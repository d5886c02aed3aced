/**
 * components/OfficerSelector.tsx: the searchable officer list of the create-shift form. The
 * search is a case-insensitive substring match on name, badge or rank; a press on an officer
 * fires the parent's remove callback when the officer is selected and its select callback
 * otherwise; a count line summarises the selection.
 *
 * The search text is a parameter here (the component's one piece of state, set by typing).
 * Lower-casing covers ASCII letters only.
 */
module OfficerSelector {
  import opened Wrappers
  import opened Seqs
  import opened ScheduleTypes
  import CreateShift

  /** `toLowerCase` on one character, for ASCII letters. */
  function LowerChar(c: char): (r: char)
    ensures 'A' <= c <= 'Z' ==> r as int == c as int + 32
    ensures !('A' <= c <= 'Z') ==> r == c
    ensures !('A' <= r <= 'Z')
  {
    if 'A' <= c <= 'Z' then (c as int + 32) as char else c
  }

  /** `toLowerCase` on a string. */
  function Lower(s: string): (r: string)
    ensures |r| == |s| && forall i :: 0 <= i < |s| ==> r[i] == LowerChar(s[i])
  {
    seq(|s|, i requires 0 <= i < |s| => LowerChar(s[i]))
  }

  /** Lower-casing twice is lower-casing once. */
  lemma LowerIdempotent(s: string)
    ensures Lower(Lower(s)) == Lower(s)
  {
  }

  /** The pattern is spelled by the text from position `i` on. */
  predicate OccursAt(text: string, pattern: string, i: int) {
    0 <= i <= |text| - |pattern| && text[i..i + |pattern|] == pattern
  }

  /** `text.includes(pattern)`: the pattern occurs at some position of the text. */
  function Includes(text: string, pattern: string): (b: bool)
    ensures b <==> exists i :: OccursAt(text, pattern, i)
    decreases |text|
  {
    if |pattern| <= |text| && text[..|pattern|] == pattern then
      assert OccursAt(text, pattern, 0);
      true
    else if |text| <= |pattern| then
      false
    else
      var b := Includes(text[1..], pattern);
      assert b <==> exists i :: OccursAt(text, pattern, i) by {
        if b {
          var j :| OccursAt(text[1..], pattern, j);
          assert text[j + 1..j + 1 + |pattern|] == text[1..][j..j + |pattern|];
          assert OccursAt(text, pattern, j + 1);
        }
        if exists i :: OccursAt(text, pattern, i) {
          var i :| OccursAt(text, pattern, i);
          if i != 0 {
            assert text[1..][i - 1..i - 1 + |pattern|] == text[i..i + |pattern|];
            assert OccursAt(text[1..], pattern, i - 1);
          }
        }
      }
      b
  }

  /** The search test of one officer: the lower-cased query occurs in the lower-cased name, badge or rank. */
  predicate Matches(o: Officer, query: string) {
    Includes(Lower(o.name), Lower(query)) || Includes(Lower(o.badge), Lower(query)) || Includes(Lower(o.rank), Lower(query))
  }

  function MatchesQuery(query: string): Officer -> bool {
    (o: Officer) => Matches(o, query)
  }

  /** `filteredOfficers`: the matching officers, in directory order. */
  function FilteredOfficers(officers: seq<Officer>, query: string): (r: seq<Officer>)
    ensures forall o :: o in r <==> o in officers && Matches(o, query)
    ensures IsSubseq(r, officers)
  {
    FilterIsSubseq(MatchesQuery(query), officers);
    Filter(MatchesQuery(query), officers)
  }

  /** The empty query lists every officer. */
  lemma {:induction false} EmptyQueryListsAll(officers: seq<Officer>)
    ensures FilteredOfficers(officers, "") == officers
  {
    forall o | o in officers ensures MatchesQuery("")(o) {
      assert OccursAt(Lower(o.name), Lower(""), 0);
    }
    FilterKeepsAll(MatchesQuery(""), officers);
  }

  /** Upper or lower case in the query makes no difference. */
  lemma {:induction false} QueryCaseIgnored(officers: seq<Officer>, query: string)
    ensures FilteredOfficers(officers, Lower(query)) == FilteredOfficers(officers, query)
  {
    LowerIdempotent(query);
    FilterExt(MatchesQuery(Lower(query)), MatchesQuery(query), officers);
  }

  /** The callback a press fires. */
  datatype Callback = OnSelect(officerId: Id) | OnRemove(officerId: Id)

  /** A press fires exactly one callback for the pressed officer: remove when selected, select otherwise. */
  function Press(selected: seq<Id>, officerId: Id): (cb: Callback)
    ensures cb.officerId == officerId
    ensures cb.OnRemove? <==> officerId in selected
  {
    if officerId in selected then OnRemove(officerId) else OnSelect(officerId)
  }

  /** The create screen's handlers for the two callbacks. */
  function Handle(selected: seq<Id>, cb: Callback): seq<Id> {
    match cb
    case OnSelect(id) => selected + [id]
    case OnRemove(id) => CreateShift.WithoutOfficerId(selected, id)
  }

  /** A press on a selected officer deselects every occurrence of them; on another, selects them once. */
  lemma PressToggles(selected: seq<Id>, officerId: Id)
    ensures var after := Handle(selected, Press(selected, officerId));
            (officerId in selected ==> officerId !in after && |after| < |selected|)
            && (officerId !in selected ==> after == selected + [officerId])
  {
    if officerId in selected {
      assert multiset(selected)[officerId] > 0;
    }
  }

  /** Tapping an unselected officer twice gives back the original selection. */
  lemma TapTwiceRestores(selected: seq<Id>, officerId: Id)
    requires officerId !in selected
    ensures var once := Handle(selected, Press(selected, officerId));
            Handle(once, Press(once, officerId)) == selected
  {
    CreateShift.SelectThenRemove(selected, officerId);
  }

  /** The count line: how many are selected and the noun that follows the number. */
  datatype CountLine = CountLine(count: nat, noun: string)

  /** The count line shows only with a selection; the noun is singular exactly for one officer. */
  function SelectedCount(selected: seq<Id>): (r: Option<CountLine>)
    ensures r.None? <==> selected == []
    ensures r.Some? ==> r.value.count == |selected| && (r.value.noun == "officer" <==> |selected| == 1)
    ensures r.Some? ==> r.value.noun in {"officer", "officers"}
  {
    if |selected| > 0 then Some(CountLine(|selected|, if |selected| == 1 then "officer" else "officers")) else None
  }
}
