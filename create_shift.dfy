/**
 * app/shifts/create.tsx: the form that creates a shift. It holds the fields being edited, keeps
 * the end time after the start time through its two picker handlers, keeps the list of chosen
 * officers, and on save builds the record handed to the schedule store's `addShift`.
 *
 * The record is returned rather than sent: what `addShift` then does with it is
 * ScheduleStore.Store.AddShift. The shift id (`Date.now()`) is a parameter.
 */
module CreateShift {
  import opened Wrappers
  import opened Seqs
  import opened DateUtils
  import opened ScheduleTypes
  import opened ScheduleStore

  /** `getShiftColor`: one fixed colour per shift type. */
  function ShiftColor(t: ShiftType): (c: string)
    ensures c in {"#3B82F6", "#8B5CF6", "#1E3A8A", "#10B981"}
  {
    match t
    case Morning => "#3B82F6"
    case Afternoon => "#8B5CF6"
    case Night => "#1E3A8A"
    case CustomShift => "#10B981"
  }

  /** Different shift types get different colours. */
  lemma ColorsDistinct(t: ShiftType, u: ShiftType)
    ensures ShiftColor(t) == ShiftColor(u) <==> t == u
  {
  }

  /** How long a recurring shift created here is meant to run: 90 days. */
  const RecurrenceDays: int := 90

  function NotId(id: Id): Id -> bool {
    (x: Id) => x != id
  }

  /** `handleRemoveOfficer`'s filter: every occurrence of the id goes, the rest keeps its order. */
  function WithoutOfficerId(selected: seq<Id>, id: Id): (r: seq<Id>)
    ensures forall x :: x in r <==> x in selected && x != id
    ensures IsSubseq(r, selected)
    ensures |r| == |selected| - multiset(selected)[id]
  {
    FilterIsSubseq(NotId(id), selected);
    var r := Filter(NotId(id), selected);
    assert multiset(r)[id] == 0;
    assert forall x :: x != id ==> multiset(r)[x] == multiset(selected)[x];
    assert multiset(r) == multiset(selected)[id := 0];
    r
  }

  /** Selecting an officer who was not selected and then removing them gives back the selection. */
  lemma {:induction false} SelectThenRemove(selected: seq<Id>, id: Id)
    requires id !in selected
    ensures WithoutOfficerId(selected + [id], id) == selected
  {
    FilterConcat(NotId(id), selected, [id]);
    FilterKeepsAll(NotId(id), selected);
    FilterDropsAll(NotId(id), [id]);
  }

  /**
   * A created weekly shift lists only its own weekday: it carries the start's weekday as its
   * one day of the week, so it is listed on a date exactly when that date has the same weekday.
   */
  lemma CreatedWeeklyListsItsWeekday(s: Shift, endsOn: Option<Instant>, date: Instant)
    requires s.recurrence == Some(Recurrence(Some(Weekly), 1, Some([WeekdayOf(s.startTime)]), endsOn, None))
    ensures OccursOn(s, date) <==> WeekdayOf(date) == WeekdayOf(s.startTime)
  {
  }

  /** The form's state. */
  class ShiftForm {
    var title: string
    var shiftType: ShiftType
    var startTime: Instant
    var endTime: Instant
    var location: string
    var notes: string
    var selectedOfficers: seq<Id>
    var isRecurring: bool
    var pattern: RecurrencePattern

    /** The end never precedes the start. */
    predicate Valid()
      reads this
    {
      startTime <= endTime
    }

    /** The form opens at `now`, ending eight hours later, untitled, morning, weekly if made recurring. */
    constructor (now: Instant)
      ensures Valid()
      ensures title == "" && shiftType == Morning && startTime == now && endTime == AddHours(now, 8)
      ensures location == "" && notes == "" && selectedOfficers == [] && !isRecurring && pattern == Weekly
    {
      title := "";
      shiftType := Morning;
      startTime := now;
      endTime := AddHours(now, 8);
      location := "";
      notes := "";
      selectedOfficers := [];
      isRecurring := false;
      pattern := Weekly;
    }

    /** `handleSelectOfficer`: append the id, without a duplicate check. */
    method SelectOfficer(id: Id)
      modifies this
      ensures selectedOfficers == old(selectedOfficers) + [id]
      ensures startTime == old(startTime) && endTime == old(endTime) && title == old(title)
      ensures shiftType == old(shiftType) && location == old(location) && notes == old(notes)
      ensures isRecurring == old(isRecurring) && pattern == old(pattern)
    {
      selectedOfficers := selectedOfficers + [id];
    }

    /** `handleRemoveOfficer`: drop every occurrence of the id. */
    method RemoveOfficer(id: Id)
      modifies this
      ensures selectedOfficers == WithoutOfficerId(old(selectedOfficers), id)
      ensures startTime == old(startTime) && endTime == old(endTime) && title == old(title)
      ensures shiftType == old(shiftType) && location == old(location) && notes == old(notes)
      ensures isRecurring == old(isRecurring) && pattern == old(pattern)
    {
      selectedOfficers := WithoutOfficerId(selectedOfficers, id);
    }

    /**
     * `onChangeStartDate`: a picked start is taken; when it is later than the end, the end
     * moves to eight hours after it. A cancelled picker changes nothing.
     */
    method OnChangeStartDate(picked: Option<Instant>)
      requires Valid()
      modifies this
      ensures Valid()
      ensures picked.None? ==> startTime == old(startTime) && endTime == old(endTime)
      ensures picked.Some? ==> startTime == picked.value
      ensures picked.Some? && picked.value > old(endTime) ==> endTime == AddHours(picked.value, 8)
      ensures picked.Some? && picked.value <= old(endTime) ==> endTime == old(endTime)
      ensures selectedOfficers == old(selectedOfficers) && title == old(title)
      ensures shiftType == old(shiftType) && location == old(location) && notes == old(notes)
      ensures isRecurring == old(isRecurring) && pattern == old(pattern)
    {
      if picked.Some? {
        startTime := picked.value;
        if picked.value > endTime {
          endTime := AddHours(picked.value, 8);
        }
      }
    }

    /**
     * `onChangeEndDate`: a picked end is taken only when strictly after the start; otherwise
     * the end stays and the user is alerted.
     */
    method OnChangeEndDate(picked: Option<Instant>) returns (alerted: bool)
      requires Valid()
      modifies this
      ensures Valid()
      ensures startTime == old(startTime)
      ensures picked.Some? && picked.value > startTime ==> endTime == picked.value && !alerted
      ensures picked.Some? && picked.value <= startTime ==> endTime == old(endTime) && alerted
      ensures picked.None? ==> endTime == old(endTime) && !alerted
      ensures selectedOfficers == old(selectedOfficers) && title == old(title)
      ensures shiftType == old(shiftType) && location == old(location) && notes == old(notes)
      ensures isRecurring == old(isRecurring) && pattern == old(pattern)
    {
      alerted := false;
      if picked.Some? {
        if picked.value > startTime {
          endTime := picked.value;
        } else {
          alerted := true;
        }
      }
    }

    /**
     * `handleSave`: nothing without a title. Otherwise the record carries the form's fields,
     * the type's colour and no assignment list; a recurring one also carries the pattern,
     * interval 1, the start's weekday as its only day of the week, an end 90 days after the
     * start and no exceptions.
     */
    method HandleSave(newId: Id) returns (submitted: Option<Shift>)
      ensures title == "" ==> submitted.None?
      ensures title != "" ==> submitted.Some?
      ensures submitted.Some? ==>
                var s := submitted.value;
                s.id == newId && s.title == title && s.shiftType == shiftType
                && s.startTime == startTime && s.endTime == endTime && s.officers == selectedOfficers
                && s.assignments.None? && s.location == Some(location) && s.notes == Some(notes)
                && s.color == Some(ShiftColor(shiftType))
                && (s.recurrence.Some? <==> isRecurring)
      ensures submitted.Some? && isRecurring ==>
                submitted.value.recurrence.value
                == Recurrence(Some(pattern), 1, Some([WeekdayOf(startTime)]), Some(AddDays(startTime, RecurrenceDays)), None)
    {
      if title == "" {
        return None;
      }
      var recurrence := None;
      if isRecurring {
        recurrence := Some(Recurrence(Some(pattern), 1, Some([WeekdayOf(startTime)]), Some(AddDays(startTime, RecurrenceDays)), None));
      }
      submitted := Some(Shift(newId, title, shiftType, startTime, endTime, selectedOfficers, None,
                              Some(notes), Some(location), Some(ShiftColor(shiftType)), recurrence));
    }
  }
}
