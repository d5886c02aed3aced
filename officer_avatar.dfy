/**
 * components/OfficerAvatar.tsx: the initials shown when an officer has no photo. The name is
 * split at every space, each piece contributes its first character (an empty piece contributes
 * nothing, as `undefined` joins as the empty string), the result is upper-cased and cut to two
 * characters. Upper-casing covers ASCII letters only.
 */
module OfficerAvatar {
  import opened Seqs

  /** `name.split(' ')`: the pieces between spaces; there is always at least one. */
  function Split(s: string): (r: seq<string>)
    ensures |r| >= 1
    decreases |s|
  {
    if s == [] then [""]
    else if s[0] == ' ' then [""] + Split(s[1..])
    else
      var rest := Split(s[1..]);
      [[s[0]] + rest[0]] + rest[1..]
  }

  /** `parts.join(' ')`. */
  function Join(parts: seq<string>): string
    decreases |parts|
  {
    if parts == [] then ""
    else if |parts| == 1 then parts[0]
    else parts[0] + " " + Join(parts[1..])
  }

  /** Joining the pieces with spaces gives back the name. */
  lemma {:induction false} JoinSplit(s: string)
    ensures Join(Split(s)) == s
    decreases |s|
  {
    if s != [] {
      JoinSplit(s[1..]);
      var rest := Split(s[1..]);
      if s[0] == ' ' {
        assert Split(s)[1..] == rest;
        assert s == [' '] + s[1..];
      } else {
        assert Split(s)[1..] == rest[1..];
        if |rest| > 1 {
          assert rest == [rest[0]] + rest[1..];
        }
        assert s == [s[0]] + s[1..];
      }
    }
  }

  /** Splitting at one space splits each side on its own. */
  lemma {:induction false} SplitAtSpace(a: string, b: string)
    ensures Split(a + [' '] + b) == Split(a) + Split(b)
    decreases |a|
  {
    if a == [] {
      assert a + [' '] + b == [' '] + b;
      LeadingSplit(b);
    } else {
      SplitAtSpace(a[1..], b);
      SplitAtSpaceStep(a[0], a[1..], b);
      assert a + [' '] + b == [a[0]] + (a[1..] + [' '] + b);
      assert a == [a[0]] + a[1..];
    }
  }

  /** The step of `SplitAtSpace`: one more character `c` in front of `t`. */
  lemma SplitAtSpaceStep(c: char, t: string, b: string)
    requires Split(t + [' '] + b) == Split(t) + Split(b)
    ensures Split([c] + (t + [' '] + b)) == Split([c] + t) + Split(b)
  {
    var u := t + [' '] + b;
    var st, su := Split(t), Split(u);
    SplitCons(c, u);
    SplitCons(c, t);
    if c != ' ' {
      assert su[0] == st[0];
      assert su[1..] == st[1..] + Split(b);
    }
  }

  /** `Split` of a string with a known first character. */
  lemma SplitCons(c: char, t: string)
    ensures c == ' ' ==> Split([c] + t) == [""] + Split(t)
    ensures c != ' ' ==> Split([c] + t) == [[c] + Split(t)[0]] + Split(t)[1..]
  {
    assert ([c] + t)[1..] == t;
  }

  /** `.map(n => n[0]).join('')`: the first character of every non-empty piece. */
  function FirstChars(words: seq<string>): (r: string)
    ensures |r| <= |words|
    decreases |words|
  {
    if words == [] then ""
    else (if words[0] == "" then "" else [words[0][0]]) + FirstChars(words[1..])
  }

  lemma {:induction false} FirstCharsConcat(a: seq<string>, b: seq<string>)
    ensures FirstChars(a + b) == FirstChars(a) + FirstChars(b)
    decreases |a|
  {
    if a == [] {
      assert a + b == b;
    } else {
      var h := if a[0] == "" then "" else [a[0][0]];
      assert (a + b)[0] == a[0];
      assert (a + b)[1..] == a[1..] + b;
      FirstCharsConcat(a[1..], b);
      assert FirstChars(a + b) == h + FirstChars(a[1..] + b);
      assert FirstChars(a) == h + FirstChars(a[1..]);
    }
  }

  function NonEmptyWord(): string -> bool {
    (w: string) => w != ""
  }

  /** Only the non-empty pieces count: their first characters, in order. */
  lemma {:induction false} FirstCharsOfWords(words: seq<string>)
    ensures var ws := Filter(NonEmptyWord(), words);
            |FirstChars(words)| == |ws|
            && forall i :: 0 <= i < |ws| ==> FirstChars(words)[i] == ws[i][0]
    decreases |words|
  {
    if words != [] {
      FirstCharsOfWords(words[1..]);
      var ws, rest := Filter(NonEmptyWord(), words), Filter(NonEmptyWord(), words[1..]);
      var fc, frest := FirstChars(words), FirstChars(words[1..]);
      if words[0] == "" {
        assert ws == rest;
        assert fc == frest;
      } else {
        assert ws == [words[0]] + rest;
        assert fc == [words[0][0]] + frest;
        forall i | 0 <= i < |ws| ensures fc[i] == ws[i][0] {
          if i > 0 {
            assert fc[i] == frest[i - 1] && ws[i] == rest[i - 1];
          }
        }
      }
    }
  }

  /** `toUpperCase` on one character, for ASCII letters. */
  function UpperChar(c: char): (r: char)
    ensures 'a' <= c <= 'z' ==> r as int == c as int - 32
    ensures !('a' <= c <= 'z') ==> r == c
    ensures !('a' <= r <= 'z')
  {
    if 'a' <= c <= 'z' then (c as int - 32) as char else c
  }

  function Upper(s: string): (r: string)
    ensures |r| == |s| && forall i :: 0 <= i < |s| ==> r[i] == UpperChar(s[i])
  {
    seq(|s|, i requires 0 <= i < |s| => UpperChar(s[i]))
  }

  /** `.substring(0, 2)`. */
  function TakeTwo(s: string): (r: string)
    ensures |r| <= 2 && |r| == if |s| < 2 then |s| else 2
    ensures r == s[..|r|]
  {
    if |s| <= 2 then s else s[..2]
  }

  /** The initials of a name. */
  function Initials(name: string): (r: string)
    ensures |r| <= 2
    ensures forall c :: c in r ==> !('a' <= c <= 'z')
  {
    TakeTwo(Upper(FirstChars(Split(name))))
  }

  /**
   * The initials are the upper-cased first characters of the first two non-empty words
   * (fewer when the name has fewer words).
   */
  lemma InitialsOfFirstTwoWords(name: string)
    ensures var ws := Filter(NonEmptyWord(), Split(name));
            var r := Initials(name);
            |r| == (if |ws| < 2 then |ws| else 2)
            && forall i :: 0 <= i < |r| ==> r[i] == UpperChar(ws[i][0])
  {
    FirstCharsOfWords(Split(name));
  }

  /** A name without spaces is one piece. */
  lemma {:induction false} SplitNoSpace(word: string)
    requires ' ' !in word
    ensures Split(word) == [word]
    decreases |word|
  {
    if word != [] {
      assert ' ' !in word[1..];
      SplitNoSpace(word[1..]);
      assert word == [word[0]] + word[1..];
    }
  }

  /** A single word gives a single initial. */
  lemma OneWord(word: string)
    requires word != "" && ' ' !in word
    ensures Initials(word) == [UpperChar(word[0])]
  {
    SplitNoSpace(word);
    assert FirstChars([word]) == [word[0]];
  }

  /** The empty name has no initials. */
  lemma EmptyName()
    ensures Initials("") == ""
  {
  }

  /** Leading spaces contribute nothing. */
  lemma {:induction false} LeadingSpace(name: string)
    ensures Initials([' '] + name) == Initials(name)
  {
    SplitAtSpace("", name);
    assert "" + [' '] + name == [' '] + name;
    FirstCharsConcat([""], Split(name));
  }

  /** A run of two spaces gives the same initials as one. */
  lemma {:induction false} RepeatedSpace(a: string, b: string)
    ensures Initials(a + [' ', ' '] + b) == Initials(a + [' '] + b)
  {
    SplitAtSpace(a, [' '] + b);
    assert a + [' ', ' '] + b == a + [' '] + ([' '] + b);
    SplitAtSpace(a, b);
    LeadingSplit(b);
    FirstCharsConcat(Split(a), [""] + Split(b));
    FirstCharsConcat([""], Split(b));
    FirstCharsConcat(Split(a), Split(b));
  }

  lemma LeadingSplit(b: string)
    ensures Split([' '] + b) == [""] + Split(b)
  {
    assert ([' '] + b)[1..] == b;
  }
}
