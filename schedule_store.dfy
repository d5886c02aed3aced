/**
 * store/scheduleStore.ts: the shift cache and the writes to the `shifts` and
 * `shift_assignments` tables.
 *
 * The pure parts (the fetch join and its recurrence decoding, the row encodings, the patch,
 * the table filters, the date rule of `getShiftsByDate`) are functions with their properties
 * proved as lemmas; the store itself is the class `Store`, whose actions take the outcome of
 * every Data Store call and the clock reading as inputs.
 */
module ScheduleStore {
  import opened Wrappers
  import opened Seqs
  import opened DateUtils
  import opened ScheduleTypes
  import opened Backend

  /** The `created_by` that `addShift` writes. */
  const CurrentUserId: Id := "current-user-id"

  // ---------------------------------------------------------------------------------
  // Row tests, as values so that the Filter lemmas can be applied to them

  /** `a.shift_id === id`, the test of `.eq('shift_id', id)`. */
  function OfShift(id: Id): AssignmentRow -> bool {
    (a: AssignmentRow) => a.shiftId == id
  }

  /** What survives `.delete().eq('shift_id', id)`. */
  function NotOfShift(id: Id): AssignmentRow -> bool {
    (a: AssignmentRow) => a.shiftId != id
  }

  /** What survives `.delete().eq('shift_id', shiftId).eq('officer_id', officerId)`. */
  function NotOfficerOnShift(shiftId: Id, officerId: Id): AssignmentRow -> bool {
    (a: AssignmentRow) => !(a.shiftId == shiftId && a.officerId == officerId)
  }

  /** What survives `.delete().eq('id', id)` on the `shifts` table. */
  function NotShiftRow(id: Id): ShiftRow -> bool {
    (row: ShiftRow) => row.id != id
  }

  // ---------------------------------------------------------------------------------
  // fetchShifts: the join of assignment rows onto shift rows

  /** The assignment rows of one shift, in table order. */
  function RowsOfShift(rows: seq<AssignmentRow>, id: Id): (r: seq<AssignmentRow>)
    ensures forall a :: a in r <==> a in rows && a.shiftId == id
  {
    Filter(OfShift(id), rows)
  }

  /** The `{ officerId, beatId, carId, notes }` entry read back from one row. */
  function AssignmentOf(a: AssignmentRow): OfficerAssignment {
    OfficerAssignment(a.officerId, a.beatId, a.carId, a.notes)
  }

  /** The `recurrence` block of a fetched row: present iff the row is marked recurring. */
  function DecodeRecurrence(row: ShiftRow): (r: Option<Recurrence>)
    ensures r.Some? <==> row.isRecurring
    ensures r.Some? ==> r.value.pattern == row.recurrencePattern
                        && r.value.daysOfWeek == row.recurrenceDaysOfWeek
                        && r.value.endsOn == row.recurrenceEndsOn
    ensures r.Some? ==> r.value.interval != 0 && r.value.exceptions.Some?
    ensures r.Some? && (row.recurrenceInterval.None? || row.recurrenceInterval == Some(0)) ==> r.value.interval == 1
    ensures r.Some? && row.recurrenceInterval.Some? && row.recurrenceInterval.value != 0 ==>
              r.value.interval == row.recurrenceInterval.value
    ensures r.Some? && row.recurrenceExceptions.None? ==> r.value.exceptions == Some([])
    ensures r.Some? && row.recurrenceExceptions.Some? ==> r.value.exceptions == row.recurrenceExceptions
  {
    if !row.isRecurring then None
    else
      var interval := if row.recurrenceInterval.None? || row.recurrenceInterval.value == 0 then 1
                      else row.recurrenceInterval.value;
      Some(Recurrence(row.recurrencePattern, interval, row.recurrenceDaysOfWeek, row.recurrenceEndsOn,
                      Some(row.recurrenceExceptions.GetOr([]))))
  }

  /** One fetched shift: the row's fields, with `officers` and `assignments` rebuilt from its join rows. */
  function DecodeShift(row: ShiftRow, rows: seq<AssignmentRow>): (s: Shift)
    ensures s.id == row.id && s.title == row.title && s.shiftType == row.shiftType
    ensures s.startTime == row.startTime && s.endTime == row.endTime
    ensures s.location == row.location && s.notes == row.notes && s.color == row.color
    ensures s.recurrence == DecodeRecurrence(row)
    ensures s.assignments.Some? && |s.assignments.value| == |s.officers| == |RowsOfShift(rows, row.id)|
    ensures forall i :: 0 <= i < |s.officers| ==> s.officers[i] == s.assignments.value[i].officerId
    ensures forall i :: 0 <= i < |s.officers| ==> s.assignments.value[i] == AssignmentOf(RowsOfShift(rows, row.id)[i])
  {
    var mine := RowsOfShift(rows, row.id);
    Shift(row.id, row.title, row.shiftType, row.startTime, row.endTime,
          OfficerIds(mine),
          Some(seq(|mine|, i requires 0 <= i < |mine| => AssignmentOf(mine[i]))),
          row.notes, row.location, row.color, DecodeRecurrence(row))
  }

  /** The officer of every row, in order. */
  function OfficerIds(rows: seq<AssignmentRow>): (r: seq<Id>)
    ensures |r| == |rows| && forall i :: 0 <= i < |rows| ==> r[i] == rows[i].officerId
  {
    seq(|rows|, i requires 0 <= i < |rows| => rows[i].officerId)
  }

  /** The sort key of `.order('start_time', { ascending: true })`. */
  function StartKey(row: ShiftRow): int {
    row.startTime
  }

  /**
   * The whole fetched list: every shift row decoded, in ascending start order; as a multiset,
   * exactly one decoded shift per row.
   */
  function JoinShifts(shiftRows: seq<ShiftRow>, rows: seq<AssignmentRow>): (r: seq<Shift>)
    ensures |r| == |shiftRows|
    ensures forall i, j :: 0 <= i < j < |r| ==> r[i].startTime <= r[j].startTime
    ensures forall row :: row in shiftRows ==> DecodeShift(row, rows) in r
    ensures forall s :: s in r ==> exists row :: row in shiftRows && s == DecodeShift(row, rows)
    ensures multiset(r) == multiset(seq(|shiftRows|, i requires 0 <= i < |shiftRows| => DecodeShift(shiftRows[i], rows)))
  {
    var sorted := SortBy(StartKey, shiftRows);
    SortByMembers(StartKey, shiftRows);
    var r := seq(|sorted|, i requires 0 <= i < |sorted| => DecodeShift(sorted[i], rows));
    JoinCovers(sorted, shiftRows, rows, r);
    JoinPermutation(sorted, shiftRows, rows, r);
    r
  }

  /** Decoding a permutation of the rows gives a permutation of the decoded rows. */
  lemma JoinPermutation(sorted: seq<ShiftRow>, shiftRows: seq<ShiftRow>, rows: seq<AssignmentRow>, r: seq<Shift>)
    requires multiset(sorted) == multiset(shiftRows)
    requires |r| == |sorted| && forall i :: 0 <= i < |r| ==> r[i] == DecodeShift(sorted[i], rows)
    ensures multiset(r) == multiset(seq(|shiftRows|, i requires 0 <= i < |shiftRows| => DecodeShift(shiftRows[i], rows)))
  {
    var decode := (row: ShiftRow) => DecodeShift(row, rows);
    MapPermutation(decode, sorted, shiftRows);
    assert r == Map(decode, sorted);
    assert seq(|shiftRows|, i requires 0 <= i < |shiftRows| => DecodeShift(shiftRows[i], rows)) == Map(decode, shiftRows);
  }

  lemma JoinCovers(sorted: seq<ShiftRow>, shiftRows: seq<ShiftRow>, rows: seq<AssignmentRow>, r: seq<Shift>)
    requires forall row :: row in sorted <==> row in shiftRows
    requires |r| == |sorted| && forall i :: 0 <= i < |r| ==> r[i] == DecodeShift(sorted[i], rows)
    ensures forall row :: row in shiftRows ==> DecodeShift(row, rows) in r
    ensures forall s :: s in r ==> exists row :: row in shiftRows && s == DecodeShift(row, rows)
  {
    forall row | row in shiftRows ensures DecodeShift(row, rows) in r {
      var i :| 0 <= i < |sorted| && sorted[i] == row;
      assert r[i] == DecodeShift(row, rows);
    }
    forall s | s in r ensures exists row :: row in shiftRows && s == DecodeShift(row, rows) {
      var i :| 0 <= i < |r| && r[i] == s;
      assert sorted[i] in sorted;
    }
  }

  // ---------------------------------------------------------------------------------
  // Row encodings of the writes

  /** The `shifts` row `addShift` inserts: recurrence columns from the block if there is one, null otherwise. */
  function EncodeShift(s: Shift): (row: ShiftRow)
    ensures row.id == s.id && row.createdBy == CurrentUserId
    ensures row.isRecurring <==> s.recurrence.Some?
    ensures s.recurrence.None? ==>
              row.recurrencePattern.None? && row.recurrenceInterval.None? && row.recurrenceDaysOfWeek.None?
              && row.recurrenceEndsOn.None? && row.recurrenceExceptions.None?
  {
    match s.recurrence
    case None =>
      ShiftRow(s.id, s.title, s.shiftType, s.startTime, s.endTime, s.location, s.notes, s.color,
               false, None, None, None, None, None, CurrentUserId)
    case Some(r) =>
      ShiftRow(s.id, s.title, s.shiftType, s.startTime, s.endTime, s.location, s.notes, s.color,
               true, r.pattern, Some(r.interval), r.daysOfWeek, r.endsOn, r.exceptions, CurrentUserId)
  }

  /** `addShift`'s entries: one per listed officer, with no beat, car or notes. */
  function BareAssignments(officers: seq<Id>): seq<OfficerAssignment> {
    seq(|officers|, i requires 0 <= i < |officers| => OfficerAssignment(officers[i], None, None, None))
  }

  /** The join rows a replace-all (or `addShift`) inserts: one `assigned` row per entry, stamped `now`. */
  function AssignedRows(shiftId: Id, list: seq<OfficerAssignment>, now: Instant): (r: seq<AssignmentRow>)
    ensures |r| == |list|
    ensures forall i :: 0 <= i < |r| ==> r[i].shiftId == shiftId && r[i].status == Assigned && r[i].assignedBy.None?
    ensures forall i :: 0 <= i < |r| ==> AssignmentOf(r[i]) == list[i]
  {
    seq(|list|, i requires 0 <= i < |list| =>
      AssignmentRow(shiftId, list[i].officerId, list[i].beatId, list[i].carId, list[i].notes, Assigned, None, now))
  }

  /** The join table without the rows of shift `id`. */
  function WithoutShift(rows: seq<AssignmentRow>, id: Id): (r: seq<AssignmentRow>)
    ensures forall a :: a in r <==> a in rows && a.shiftId != id
  {
    Filter(NotOfShift(id), rows)
  }

  /** The join table without the rows of one officer on one shift. */
  function WithoutOfficer(rows: seq<AssignmentRow>, shiftId: Id, officerId: Id): (r: seq<AssignmentRow>)
    ensures forall a :: a in r <==> a in rows && !(a.shiftId == shiftId && a.officerId == officerId)
    ensures IsSubseq(r, rows)
  {
    FilterIsSubseq(NotOfficerOnShift(shiftId, officerId), rows);
    Filter(NotOfficerOnShift(shiftId, officerId), rows)
  }

  /** Delete-then-insert of a shift's assignments when both calls succeed. */
  function ReplaceAssignments(rows: seq<AssignmentRow>, id: Id, list: seq<OfficerAssignment>, now: Instant): seq<AssignmentRow> {
    WithoutShift(rows, id) + AssignedRows(id, list, now)
  }

  /** The join table after the unchecked delete and, when the list is non-empty, the checked insert. */
  function AfterReplace(rows: seq<AssignmentRow>, id: Id, list: seq<OfficerAssignment>, now: Instant,
                        delete: Reply, insert: Reply): seq<AssignmentRow>
  {
    (if delete.Ok? then WithoutShift(rows, id) else rows)
      + (if list != [] && insert.Ok? then AssignedRows(id, list, now) else [])
  }

  /** The `shifts` table without the row `id`. */
  function WithoutShiftRow(shiftRows: seq<ShiftRow>, id: Id): (r: seq<ShiftRow>)
    ensures forall row :: row in r <==> row in shiftRows && row.id != id
  {
    Filter(NotShiftRow(id), shiftRows)
  }

  /** The fields of `updateShift`'s partial shift that it consults; `None` is an absent field. */
  datatype ShiftPatch = ShiftPatch(
    title: Option<string>,
    shiftType: Option<ShiftType>,
    startTime: Option<Instant>,
    endTime: Option<Instant>,
    location: Option<string>,
    notes: Option<string>,
    color: Option<string>,
    recurrence: Option<Recurrence>,
    assignments: Option<seq<OfficerAssignment>>)

  /** A partial shift holding only an assignment list, as the roster editor sends it. */
  function AssignmentsPatch(list: seq<OfficerAssignment>): ShiftPatch {
    ShiftPatch(None, None, None, None, None, None, None, None, Some(list))
  }

  /** A column a patch field writes when given and leaves as it was when absent. */
  function Given<T>(given: Option<T>, current: Option<T>): Option<T> {
    if given.Some? then given else current
  }

  /**
   * The recurrence columns after `updateData`: a block sets `is_recurring` (an absent one never
   * clears it) and writes its interval and every field it carries; a field absent from the
   * block sends no key and leaves its column as it was. No other column changes.
   */
  function WriteRecurrence(row: ShiftRow, rec: Option<Recurrence>): (r: ShiftRow)
    ensures r == row.(isRecurring := r.isRecurring, recurrencePattern := r.recurrencePattern,
                      recurrenceInterval := r.recurrenceInterval, recurrenceDaysOfWeek := r.recurrenceDaysOfWeek,
                      recurrenceEndsOn := r.recurrenceEndsOn, recurrenceExceptions := r.recurrenceExceptions)
    ensures r.isRecurring <==> row.isRecurring || rec.Some?
    ensures rec.None? ==> r == row
    ensures rec.Some? ==> r.recurrenceInterval == Some(rec.value.interval)
    ensures rec.Some? && rec.value.pattern.Some? ==> r.recurrencePattern == rec.value.pattern
    ensures rec.Some? && rec.value.pattern.None? ==> r.recurrencePattern == row.recurrencePattern
    ensures rec.Some? && rec.value.daysOfWeek.Some? ==> r.recurrenceDaysOfWeek == rec.value.daysOfWeek
    ensures rec.Some? && rec.value.daysOfWeek.None? ==> r.recurrenceDaysOfWeek == row.recurrenceDaysOfWeek
    ensures rec.Some? && rec.value.endsOn.Some? ==> r.recurrenceEndsOn == rec.value.endsOn
    ensures rec.Some? && rec.value.endsOn.None? ==> r.recurrenceEndsOn == row.recurrenceEndsOn
    ensures rec.Some? && rec.value.exceptions.Some? ==> r.recurrenceExceptions == rec.value.exceptions
    ensures rec.Some? && rec.value.exceptions.None? ==> r.recurrenceExceptions == row.recurrenceExceptions
  {
    match rec
    case None => row
    case Some(v) =>
      row.(isRecurring := true,
           recurrencePattern := Given(v.pattern, row.recurrencePattern),
           recurrenceInterval := Some(v.interval),
           recurrenceDaysOfWeek := Given(v.daysOfWeek, row.recurrenceDaysOfWeek),
           recurrenceEndsOn := Given(v.endsOn, row.recurrenceEndsOn),
           recurrenceExceptions := Given(v.exceptions, row.recurrenceExceptions))
  }

  /**
   * The row after `.update(updateData)`: title and color are written only when non-empty, the
   * other scalar fields whenever given, and the recurrence columns as `WriteRecurrence` says.
   */
  function PatchRow(row: ShiftRow, p: ShiftPatch): (r: ShiftRow)
    ensures r.id == row.id && r.createdBy == row.createdBy
    ensures p.title.Some? && p.title.value != "" ==> r.title == p.title.value
    ensures p.title.None? || p.title == Some("") ==> r.title == row.title
    ensures p.color.Some? && p.color.value != "" ==> r.color == p.color
    ensures p.color.None? || p.color == Some("") ==> r.color == row.color
    ensures r.shiftType == p.shiftType.GetOr(row.shiftType)
    ensures r.startTime == p.startTime.GetOr(row.startTime) && r.endTime == p.endTime.GetOr(row.endTime)
    ensures p.location.Some? ==> r.location == p.location
    ensures p.location.None? ==> r.location == row.location
    ensures p.notes.Some? ==> r.notes == p.notes
    ensures p.notes.None? ==> r.notes == row.notes
  {
    var scalars := row.(
      title := if p.title.Some? && p.title.value != "" then p.title.value else row.title,
      shiftType := p.shiftType.GetOr(row.shiftType),
      startTime := p.startTime.GetOr(row.startTime),
      endTime := p.endTime.GetOr(row.endTime),
      location := Given(p.location, row.location),
      notes := Given(p.notes, row.notes),
      color := if p.color.Some? && p.color.value != "" then p.color else row.color);
    WriteRecurrence(scalars, p.recurrence)
  }

  /** `.update(updateData).eq('id', id)` over the whole table. */
  function PatchRows(shiftRows: seq<ShiftRow>, id: Id, p: ShiftPatch): (r: seq<ShiftRow>)
    ensures |r| == |shiftRows|
    ensures forall i :: 0 <= i < |r| && shiftRows[i].id != id ==> r[i] == shiftRows[i]
    ensures forall i :: 0 <= i < |r| && shiftRows[i].id == id ==> r[i] == PatchRow(shiftRows[i], p)
  {
    seq(|shiftRows|, i requires 0 <= i < |shiftRows| =>
      if shiftRows[i].id == id then PatchRow(shiftRows[i], p) else shiftRows[i])
  }

  // ---------------------------------------------------------------------------------
  // getShiftsByDate and getShiftsByOfficer

  /**
   * The rule of `getShiftsByDate`: the start's calendar day is the date's, or the shift recurs
   * `daily`, or it recurs `weekly` and lists the date's weekday. Nothing else is consulted.
   */
  predicate OccursOn(s: Shift, date: Instant) {
    DayOf(s.startTime) == DayOf(date)
    || (s.recurrence.Some?
        && (s.recurrence.value.pattern == Some(Daily)
            || (s.recurrence.value.pattern == Some(Weekly)
                && s.recurrence.value.daysOfWeek.Some?
                && WeekdayOf(date) in s.recurrence.value.daysOfWeek.value)))
  }

  function OccursOnDate(date: Instant): Shift -> bool {
    (s: Shift) => OccursOn(s, date)
  }

  function HasOfficer(officerId: Id): Shift -> bool {
    (s: Shift) => officerId in s.officers
  }

  /** `getShiftsByDate`: the cached shifts occurring on the date, in cache order. */
  function ShiftsByDate(shifts: seq<Shift>, date: Instant): (r: seq<Shift>)
    ensures forall s :: s in r <==> s in shifts && OccursOn(s, date)
    ensures IsSubseq(r, shifts)
  {
    FilterIsSubseq(OccursOnDate(date), shifts);
    Filter(OccursOnDate(date), shifts)
  }

  /** `getShiftsByOfficer`: the cached shifts listing the officer, in cache order. */
  function ShiftsByOfficer(shifts: seq<Shift>, officerId: Id): (r: seq<Shift>)
    ensures forall s :: s in r <==> s in shifts && officerId in s.officers
    ensures IsSubseq(r, shifts)
  {
    FilterIsSubseq(HasOfficer(officerId), shifts);
    Filter(HasOfficer(officerId), shifts)
  }

  // ---------------------------------------------------------------------------------
  // Properties of the pure parts

  /** The date rule case by case. */
  lemma OccursOnCases(s: Shift, date: Instant)
    ensures DayOf(s.startTime) == DayOf(date) ==> OccursOn(s, date)
    ensures s.recurrence.Some? && s.recurrence.value.pattern == Some(Daily) ==> OccursOn(s, date)
    ensures DayOf(s.startTime) != DayOf(date) && s.recurrence.Some? && s.recurrence.value.pattern == Some(Weekly) ==>
              (OccursOn(s, date) <==> s.recurrence.value.daysOfWeek.Some?
                                      && WeekdayOf(date) in s.recurrence.value.daysOfWeek.value)
    ensures DayOf(s.startTime) != DayOf(date)
            && (s.recurrence.None? || s.recurrence.value.pattern !in {Some(Daily), Some(Weekly)}) ==>
              !OccursOn(s, date)
  {
  }

  /** `endsOn`, `exceptions` and `interval` never change whether a shift occurs on a date. */
  lemma RuleIgnoresBounds(s: Shift, date: Instant, endsOn: Option<Instant>, exceptions: Option<seq<DateKey>>, interval: int)
    requires s.recurrence.Some?
    ensures OccursOn(s.(recurrence := Some(s.recurrence.value.(endsOn := endsOn, exceptions := exceptions, interval := interval))), date)
            == OccursOn(s, date)
  {
  }

  /** A `daily` shift occurs on every date, days before its start included. */
  lemma DailyHasNoBounds(s: Shift, date: Instant)
    requires s.recurrence.Some? && s.recurrence.value.pattern == Some(Daily)
    ensures OccursOn(s, date)
  {
  }

  /** A `weekly` shift that occurs on a listed weekday occurs on the same weekday of every other week. */
  lemma {:induction false} WeeklyRepeats(s: Shift, date: Instant, k: int)
    requires s.recurrence.Some? && s.recurrence.value.pattern == Some(Weekly)
    requires s.recurrence.value.daysOfWeek.Some? && WeekdayOf(date) in s.recurrence.value.daysOfWeek.value
    ensures OccursOn(s, AddDays(date, 7 * k))
  {
    WeekdayPeriodic(DayOf(date), k);
  }

  /** A `biweekly`, `monthly` or `custom` shift, or one with no pattern, occurs only on its start day. */
  lemma OtherPatternsOnlyStartDay(s: Shift, date: Instant)
    requires s.recurrence.Some? && s.recurrence.value.pattern in {Some(Biweekly), Some(Monthly), Some(CustomPattern), None}
    ensures OccursOn(s, date) <==> DayOf(s.startTime) == DayOf(date)
  {
  }

  /** The `Traffic Control` fixture: weekly on Monday, Wednesday and Friday, ending 90 days after `today`. */
  function TrafficControl(today: Instant): Shift {
    var tomorrow := AddDays(StartOfDay(today), 1);
    Shift("4", "Traffic Control", Morning, AddHours(tomorrow, 8), AddHours(tomorrow, 16), ["3", "5"], None,
          None, Some("Highway 101"), Some("#10B981"),
          Some(Recurrence(Some(Weekly), 1, Some([1, 3, 5]), Some(AddDays(today, 90)), Some([]))))
  }

  /** The fixture is listed on every Monday, Wednesday and Friday and, apart from its first day, on no other day. */
  lemma TrafficControlDays(today: Instant, date: Instant)
    ensures WeekdayOf(date) in {1, 3, 5} ==> OccursOn(TrafficControl(today), date)
    ensures DayOf(date) != DayOf(today) + 1 && WeekdayOf(date) !in {1, 3, 5} ==> !OccursOn(TrafficControl(today), date)
  {
    var tomorrow := AddDays(StartOfDay(today), 1);
    assert DayOf(AddHours(tomorrow, 8)) == DayOf(today) + 1 by {
      DaySplit(DayOf(today) + 1, 8 * MsPerHour);
    }
  }

  /** The fixture is still listed on a Monday after its `endsOn`. */
  lemma TrafficControlOutlivesEndsOn(today: Instant) returns (date: Instant)
    ensures date > AddDays(today, 90)
    ensures OccursOn(TrafficControl(today), date)
  {
    var end := AddDays(today, 90);
    var monday := NextWeekday(DayOf(end) + 1, 1);
    date := monday * MsPerDay;
    DaySplit(monday, 0);
    Decompose(end);
    TrafficControlDays(today, date);
  }

  /** The rows of a shift that has none so far, after appending `AssignedRows`, are exactly those. */
  lemma {:induction false} RowsOfFreshShift(rows: seq<AssignmentRow>, id: Id, list: seq<OfficerAssignment>, now: Instant)
    requires forall a :: a in rows ==> a.shiftId != id
    ensures RowsOfShift(rows + AssignedRows(id, list, now), id) == AssignedRows(id, list, now)
  {
    var added := AssignedRows(id, list, now);
    FilterConcat(OfShift(id), rows, added);
    FilterDropsAll(OfShift(id), rows);
    FilterKeepsAll(OfShift(id), added);
  }

  /** Decoding a shift whose join rows are `AssignedRows(list)` gives back `list` and its officers. */
  lemma {:induction false} DecodeAssigned(row: ShiftRow, rows: seq<AssignmentRow>, list: seq<OfficerAssignment>, now: Instant)
    requires RowsOfShift(rows, row.id) == AssignedRows(row.id, list, now)
    ensures DecodeShift(row, rows).assignments == Some(list)
    ensures DecodeShift(row, rows).officers == seq(|list|, i requires 0 <= i < |list| => list[i].officerId)
  {
    var s := DecodeShift(row, rows);
    assert s.assignments.value == list;
  }

  /**
   * Add-then-fetch: a shift inserted by `addShift` (with no join rows of its own beforehand)
   * decodes to the same shift with one bare entry per officer; its recurrence comes back with
   * the same pattern, weekdays and end, the same non-zero interval and the same exception list.
   */
  lemma {:induction false} AddThenDecode(s: Shift, rows: seq<AssignmentRow>, now: Instant)
    requires forall a :: a in rows ==> a.shiftId != s.id
    ensures var d := DecodeShift(EncodeShift(s), rows + AssignedRows(s.id, BareAssignments(s.officers), now));
            d.officers == s.officers
            && d.assignments == Some(BareAssignments(s.officers))
            && d.(recurrence := s.recurrence) == s.(assignments := Some(BareAssignments(s.officers)))
            && (d.recurrence.Some? <==> s.recurrence.Some?)
    ensures var d := DecodeShift(EncodeShift(s), rows + AssignedRows(s.id, BareAssignments(s.officers), now));
            s.recurrence.Some? ==>
              d.recurrence.value.pattern == s.recurrence.value.pattern
              && d.recurrence.value.daysOfWeek == s.recurrence.value.daysOfWeek
              && d.recurrence.value.endsOn == s.recurrence.value.endsOn
              && (s.recurrence.value.interval != 0 ==> d.recurrence.value.interval == s.recurrence.value.interval)
              && (s.recurrence.value.exceptions.Some? ==> d.recurrence.value.exceptions == s.recurrence.value.exceptions)
  {
    var bare := BareAssignments(s.officers);
    var all := rows + AssignedRows(s.id, bare, now);
    RowsOfFreshShift(rows, s.id, bare, now);
    DecodeAssigned(EncodeShift(s), all, bare, now);
    var d := DecodeShift(EncodeShift(s), all);
    assert d.officers == s.officers;
  }

  /** After a replace-all, the shift's rows are exactly one `assigned` row per entry, in order. */
  lemma {:induction false} ReplaceRoundTrip(rows: seq<AssignmentRow>, id: Id, list: seq<OfficerAssignment>, now: Instant)
    ensures RowsOfShift(ReplaceAssignments(rows, id, list, now), id) == AssignedRows(id, list, now)
    ensures forall row: ShiftRow :: row.id == id ==> DecodeShift(row, ReplaceAssignments(rows, id, list, now)).assignments == Some(list)
    ensures list == [] ==> RowsOfShift(ReplaceAssignments(rows, id, list, now), id) == []
  {
    RowsOfFreshShift(WithoutShift(rows, id), id, list, now);
    forall row: ShiftRow | row.id == id ensures DecodeShift(row, ReplaceAssignments(rows, id, list, now)).assignments == Some(list) {
      DecodeAssigned(row, ReplaceAssignments(rows, id, list, now), list, now);
    }
  }

  /** A replace-all on one shift leaves the rows, hence the decoding, of every other shift unchanged. */
  lemma {:induction false} ReplaceKeepsOthers(rows: seq<AssignmentRow>, id: Id, list: seq<OfficerAssignment>, now: Instant, other: Id)
    requires other != id
    ensures RowsOfShift(ReplaceAssignments(rows, id, list, now), other) == RowsOfShift(rows, other)
    ensures forall row: ShiftRow :: row.id == other ==> DecodeShift(row, ReplaceAssignments(rows, id, list, now)) == DecodeShift(row, rows)
  {
    var kept, added := WithoutShift(rows, id), AssignedRows(id, list, now);
    FilterConcat(OfShift(other), kept, added);
    FilterFilter(OfShift(other), NotOfShift(id), OfShift(other), rows);
    FilterDropsAll(OfShift(other), added);
  }

  /** Deleting a shift's rows from rows of other shifts followed by rows of that shift leaves the former. */
  lemma {:induction false} WithoutShiftSplit(kept: seq<AssignmentRow>, added: seq<AssignmentRow>, id: Id)
    requires forall a :: a in kept ==> a.shiftId != id
    requires forall a :: a in added ==> a.shiftId == id
    ensures WithoutShift(kept + added, id) == kept
  {
    FilterConcat(NotOfShift(id), kept, added);
    FilterKeepsAll(NotOfShift(id), kept);
    FilterDropsAll(NotOfShift(id), added);
    assert kept + [] == kept;
  }

  /** Repeating a replace-all with the same list gives the rows of the last call alone. */
  lemma {:induction false} ReplaceIdempotent(rows: seq<AssignmentRow>, id: Id, list: seq<OfficerAssignment>, first: Instant, second: Instant)
    ensures ReplaceAssignments(ReplaceAssignments(rows, id, list, first), id, list, second)
            == ReplaceAssignments(rows, id, list, second)
  {
    var kept, added := WithoutShift(rows, id), AssignedRows(id, list, first);
    assert forall a :: a in added ==> a.shiftId == id by {
      forall a | a in added ensures a.shiftId == id {
        var i :| 0 <= i < |added| && added[i] == a;
      }
    }
    WithoutShiftSplit(kept, added, id);
  }

  /** When both calls succeed, the replace-all steps give `ReplaceAssignments`. */
  lemma AfterReplaceSucceeds(rows: seq<AssignmentRow>, id: Id, list: seq<OfficerAssignment>, now: Instant, insert: Reply)
    requires list == [] || insert.Ok?
    ensures AfterReplace(rows, id, list, now, Ok, insert) == ReplaceAssignments(rows, id, list, now)
  {
  }

  /** Deleting a shift's join rows and then its row leaves nothing for that id. */
  lemma {:induction false} DeleteLeavesNothing(shiftRows: seq<ShiftRow>, rows: seq<AssignmentRow>, id: Id)
    ensures RowsOfShift(WithoutShift(rows, id), id) == []
    ensures forall row :: row in WithoutShiftRow(shiftRows, id) ==> row.id != id
  {
    FilterDropsAll(OfShift(id), WithoutShift(rows, id));
  }

  /** Removing one officer from one shift leaves the rows of every other shift as they were. */
  lemma {:induction false} RemoveKeepsOthers(rows: seq<AssignmentRow>, shiftId: Id, officerId: Id, other: Id)
    requires other != shiftId
    ensures RowsOfShift(WithoutOfficer(rows, shiftId, officerId), other) == RowsOfShift(rows, other)
  {
    FilterFilter(OfShift(other), NotOfficerOnShift(shiftId, officerId), OfShift(other), rows);
  }

  /** An appended row of the shift is the last of the shift's rows. */
  lemma RowsOfShiftAppend(rows: seq<AssignmentRow>, id: Id, added: AssignmentRow)
    requires added.shiftId == id
    ensures RowsOfShift(rows + [added], id) == RowsOfShift(rows, id) + [added]
  {
    FilterConcat(OfShift(id), rows, [added]);
    FilterKeepsAll(OfShift(id), [added]);
  }

  /** Appending an `assignOfficer` row adds the officer at the end of the shift's list, even if already there. */
  lemma {:induction false} AssignAppends(row: ShiftRow, rows: seq<AssignmentRow>, added: AssignmentRow)
    requires added.shiftId == row.id
    ensures DecodeShift(row, rows + [added]).officers == DecodeShift(row, rows).officers + [added.officerId]
  {
    var mine := RowsOfShift(rows, row.id);
    RowsOfShiftAppend(rows, row.id, added);
    assert OfficerIds(mine + [added]) == OfficerIds(mine) + [added.officerId];
  }

  /** A patch with no fields leaves a row as it is; in particular a roster save changes no shift column. */
  lemma PatchNothing(row: ShiftRow, list: seq<OfficerAssignment>)
    ensures PatchRow(row, AssignmentsPatch(list)) == row
  {
  }

  /** Applying the same patch twice is applying it once. */
  lemma PatchIdempotent(row: ShiftRow, p: ShiftPatch)
    ensures PatchRow(PatchRow(row, p), p) == PatchRow(row, p)
  {
  }

  // ---------------------------------------------------------------------------------
  // The store

  /** The outcomes of the two selects of `fetchShifts`. */
  datatype FetchReplies = FetchReplies(shiftsSelect: Reply, assignmentsSelect: Reply)

  /** The error of the first failing select. */
  function FetchError(r: FetchReplies): BackendError
    requires r.shiftsSelect.Fail? || r.assignmentsSelect.Fail?
  {
    if r.shiftsSelect.Fail? then r.shiftsSelect.error else r.assignmentsSelect.error
  }

  class Store {
    const db: Database
    var shifts: seq<Shift>
    var isLoading: bool
    var error: Option<string>

    constructor (db: Database)
      ensures this.db == db && shifts == [] && !isLoading && error == None
    {
      this.db := db;
      shifts := [];
      isLoading := false;
      error := None;
    }

    /** The state `fetchShifts` leaves: the join on success, otherwise the old cache and the error text. */
    predicate FetchedFrom(r: FetchReplies, before: seq<Shift>)
      reads this, db
    {
      !isLoading
      && if r.shiftsSelect.Ok? && r.assignmentsSelect.Ok? then
           shifts == JoinShifts(db.shiftRows, db.assignmentRows) && error == None
         else
           shifts == before && error == Some(ErrorText(FetchError(r), "Failed to fetch shifts"))
    }

    /** `fetchShifts`: replaces the cache wholesale with the join, or records the error. */
    method FetchShifts(r: FetchReplies)
      modifies this
      ensures FetchedFrom(r, old(shifts))
    {
      isLoading, error := true, None;
      if r.shiftsSelect.Fail? {
        error, isLoading := Some(ErrorText(r.shiftsSelect.error, "Failed to fetch shifts")), false;
        return;
      }
      if r.assignmentsSelect.Fail? {
        error, isLoading := Some(ErrorText(r.assignmentsSelect.error, "Failed to fetch shifts")), false;
        return;
      }
      shifts, isLoading := JoinShifts(db.shiftRows, db.assignmentRows), false;
    }

    /**
     * `addShift`: inserts the shift row, then (for a non-empty officer list) one bare join row per
     * officer, then refetches. A failed shift insert writes no join rows; a failed join insert
     * keeps the shift row.
     */
    method AddShift(shift: Shift, now: Instant, shiftInsert: Reply, joinInsert: Reply, refetch: FetchReplies)
      modifies this, db
      ensures db.timeOffRows == old(db.timeOffRows) && db.balances == old(db.balances)
      ensures db.shiftRows == old(db.shiftRows) + (if shiftInsert.Ok? then [EncodeShift(shift)] else [])
      ensures db.assignmentRows == old(db.assignmentRows)
                + (if shiftInsert.Ok? && joinInsert.Ok? then AssignedRows(shift.id, BareAssignments(shift.officers), now) else [])
      ensures shiftInsert.Fail? ==>
                !isLoading && shifts == old(shifts) && error == Some(ErrorText(shiftInsert.error, "Failed to add shift"))
      ensures shiftInsert.Ok? && shift.officers != [] && joinInsert.Fail? ==>
                !isLoading && shifts == old(shifts) && error == Some(ErrorText(joinInsert.error, "Failed to add shift"))
      ensures shiftInsert.Ok? && (shift.officers == [] || joinInsert.Ok?) ==> FetchedFrom(refetch, old(shifts))
      ensures shiftInsert.Ok? && (shift.officers == [] || joinInsert.Ok?) && refetch == FetchReplies(Ok, Ok) ==>
                DecodeShift(EncodeShift(shift), db.assignmentRows) in shifts
    {
      isLoading, error := true, None;
      var failed := InsertShiftRows(shift, now, shiftInsert, joinInsert);
      if failed.Some? {
        error, isLoading := Some(ErrorText(failed.value, "Failed to add shift")), false;
        return;
      }
      FetchShifts(refetch);
      assert EncodeShift(shift) in db.shiftRows;
    }

    /**
     * The two inserts of `addShift`: the shift row, then (for a non-empty officer list) the bare
     * join rows; returns the error of the first insert that failed.
     */
    method InsertShiftRows(shift: Shift, now: Instant, shiftInsert: Reply, joinInsert: Reply)
      returns (failed: Option<BackendError>)
      modifies db
      ensures db.timeOffRows == old(db.timeOffRows) && db.balances == old(db.balances)
      ensures db.shiftRows == old(db.shiftRows) + (if shiftInsert.Ok? then [EncodeShift(shift)] else [])
      ensures db.assignmentRows == old(db.assignmentRows)
                + (if shiftInsert.Ok? && joinInsert.Ok? then AssignedRows(shift.id, BareAssignments(shift.officers), now) else [])
      ensures shiftInsert.Fail? ==> failed == Some(shiftInsert.error)
      ensures shiftInsert.Ok? && shift.officers != [] && joinInsert.Fail? ==> failed == Some(joinInsert.error)
      ensures shiftInsert.Ok? && (shift.officers == [] || joinInsert.Ok?) ==> failed.None?
    {
      if shiftInsert.Fail? {
        return Some(shiftInsert.error);
      }
      db.shiftRows := db.shiftRows + [EncodeShift(shift)];
      if |shift.officers| > 0 {
        if joinInsert.Fail? {
          return Some(joinInsert.error);
        }
        db.assignmentRows := db.assignmentRows + AssignedRows(shift.id, BareAssignments(shift.officers), now);
      } else {
        assert AssignedRows(shift.id, BareAssignments(shift.officers), now) == [];
      }
      return None;
    }

    /**
     * `updateShift`: patches the row; then, when the patch carries an assignment list, deletes the
     * shift's join rows (a failed delete goes unnoticed) and inserts the list if it is non-empty;
     * then refetches. A failed row update touches no join row.
     */
    method UpdateShift(id: Id, patch: ShiftPatch, now: Instant, rowUpdate: Reply, joinDelete: Reply, joinInsert: Reply,
                       refetch: FetchReplies)
      modifies this, db
      ensures db.timeOffRows == old(db.timeOffRows) && db.balances == old(db.balances)
      ensures db.shiftRows == if rowUpdate.Ok? then PatchRows(old(db.shiftRows), id, patch) else old(db.shiftRows)
      ensures rowUpdate.Fail? || patch.assignments.None? ==> db.assignmentRows == old(db.assignmentRows)
      ensures rowUpdate.Ok? && patch.assignments.Some? ==>
                db.assignmentRows == AfterReplace(old(db.assignmentRows), id, patch.assignments.value, now, joinDelete, joinInsert)
      ensures rowUpdate.Fail? ==>
                !isLoading && shifts == old(shifts) && error == Some(ErrorText(rowUpdate.error, "Failed to update shift"))
      ensures rowUpdate.Ok? && patch.assignments.Some? && patch.assignments.value != [] && joinInsert.Fail? ==>
                !isLoading && shifts == old(shifts) && error == Some(ErrorText(joinInsert.error, "Failed to update shift"))
      ensures rowUpdate.Ok? && (patch.assignments.None? || patch.assignments.value == [] || joinInsert.Ok?) ==>
                FetchedFrom(refetch, old(shifts))
    {
      isLoading, error := true, None;
      var failed := WriteShiftUpdate(id, patch, now, rowUpdate, joinDelete, joinInsert);
      if failed.Some? {
        error, isLoading := Some(ErrorText(failed.value, "Failed to update shift")), false;
        return;
      }
      FetchShifts(refetch);
    }

    /**
     * The writes of `updateShift`: the row update, then the replace-all of the join rows when the
     * patch carries a list; returns the error of the row update or of the join insert.
     */
    method WriteShiftUpdate(id: Id, patch: ShiftPatch, now: Instant, rowUpdate: Reply, joinDelete: Reply, joinInsert: Reply)
      returns (failed: Option<BackendError>)
      modifies db
      ensures db.timeOffRows == old(db.timeOffRows) && db.balances == old(db.balances)
      ensures db.shiftRows == if rowUpdate.Ok? then PatchRows(old(db.shiftRows), id, patch) else old(db.shiftRows)
      ensures rowUpdate.Fail? || patch.assignments.None? ==> db.assignmentRows == old(db.assignmentRows)
      ensures rowUpdate.Ok? && patch.assignments.Some? ==>
                db.assignmentRows == AfterReplace(old(db.assignmentRows), id, patch.assignments.value, now, joinDelete, joinInsert)
      ensures rowUpdate.Fail? ==> failed == Some(rowUpdate.error)
      ensures rowUpdate.Ok? && patch.assignments.Some? && patch.assignments.value != [] && joinInsert.Fail? ==>
                failed == Some(joinInsert.error)
      ensures rowUpdate.Ok? && (patch.assignments.None? || patch.assignments.value == [] || joinInsert.Ok?) ==>
                failed.None?
    {
      if rowUpdate.Fail? {
        return Some(rowUpdate.error);
      }
      PatchShiftRows(id, patch);
      failed := None;
      if patch.assignments.Some? {
        failed := ReplaceJoinRows(id, patch.assignments.value, now, joinDelete, joinInsert);
      }
    }

    /**
     * `deleteShift`: deletes the join rows first (a failed delete goes unnoticed), then the shift
     * row, then refetches; when the row delete fails the join rows are already gone.
     */
    method DeleteShift(id: Id, joinDelete: Reply, rowDelete: Reply, refetch: FetchReplies)
      modifies this, db
      ensures db.timeOffRows == old(db.timeOffRows) && db.balances == old(db.balances)
      ensures db.assignmentRows == if joinDelete.Ok? then WithoutShift(old(db.assignmentRows), id) else old(db.assignmentRows)
      ensures db.shiftRows == if rowDelete.Ok? then WithoutShiftRow(old(db.shiftRows), id) else old(db.shiftRows)
      ensures rowDelete.Fail? ==>
                !isLoading && shifts == old(shifts) && error == Some(ErrorText(rowDelete.error, "Failed to delete shift"))
      ensures rowDelete.Ok? ==> FetchedFrom(refetch, old(shifts))
    {
      isLoading, error := true, None;
      DeleteJoinRows(id, joinDelete);
      if rowDelete.Fail? {
        error, isLoading := Some(ErrorText(rowDelete.error, "Failed to delete shift")), false;
        return;
      }
      db.shiftRows := WithoutShiftRow(db.shiftRows, id);
      FetchShifts(refetch);
    }

    /** `assignOfficer`: appends one `assigned` row with its assigner, with no duplicate check, then refetches. */
    method AssignOfficer(shiftId: Id, officerId: Id, assignedBy: Id, now: Instant, insert: Reply, refetch: FetchReplies)
      modifies this, db
      ensures db.shiftRows == old(db.shiftRows) && db.timeOffRows == old(db.timeOffRows) && db.balances == old(db.balances)
      ensures db.assignmentRows == old(db.assignmentRows)
                + (if insert.Ok? then [AssignmentRow(shiftId, officerId, None, None, None, Assigned, Some(assignedBy), now)] else [])
      ensures insert.Fail? ==>
                isLoading == old(isLoading) && shifts == old(shifts)
                && error == Some(ErrorText(insert.error, "Failed to assign officer"))
      ensures insert.Ok? ==> FetchedFrom(refetch, old(shifts))
    {
      if insert.Fail? {
        error := Some(ErrorText(insert.error, "Failed to assign officer"));
        return;
      }
      db.assignmentRows := db.assignmentRows + [AssignmentRow(shiftId, officerId, None, None, None, Assigned, Some(assignedBy), now)];
      FetchShifts(refetch);
    }

    /** `removeOfficerFromShift`: deletes the rows matching both ids, then refetches. */
    method RemoveOfficerFromShift(shiftId: Id, officerId: Id, delete: Reply, refetch: FetchReplies)
      modifies this, db
      ensures db.shiftRows == old(db.shiftRows) && db.timeOffRows == old(db.timeOffRows) && db.balances == old(db.balances)
      ensures db.assignmentRows == if delete.Ok? then WithoutOfficer(old(db.assignmentRows), shiftId, officerId)
                                   else old(db.assignmentRows)
      ensures delete.Fail? ==>
                isLoading == old(isLoading) && shifts == old(shifts)
                && error == Some(ErrorText(delete.error, "Failed to remove officer"))
      ensures delete.Ok? ==> FetchedFrom(refetch, old(shifts))
    {
      if delete.Fail? {
        error := Some(ErrorText(delete.error, "Failed to remove officer"));
        return;
      }
      db.assignmentRows := WithoutOfficer(db.assignmentRows, shiftId, officerId);
      FetchShifts(refetch);
    }

    /** `updateAssignments`: the replace-all of a shift's join rows, then a refetch. */
    method UpdateAssignments(shiftId: Id, list: seq<OfficerAssignment>, now: Instant, joinDelete: Reply, joinInsert: Reply,
                             refetch: FetchReplies)
      modifies this, db
      ensures db.shiftRows == old(db.shiftRows) && db.timeOffRows == old(db.timeOffRows) && db.balances == old(db.balances)
      ensures db.assignmentRows == AfterReplace(old(db.assignmentRows), shiftId, list, now, joinDelete, joinInsert)
      ensures joinDelete.Ok? && (list == [] || joinInsert.Ok?) ==>
                db.assignmentRows == ReplaceAssignments(old(db.assignmentRows), shiftId, list, now)
      ensures list != [] && joinInsert.Fail? ==>
                isLoading == old(isLoading) && shifts == old(shifts)
                && error == Some(ErrorText(joinInsert.error, "Failed to update assignments"))
      ensures list == [] || joinInsert.Ok? ==> FetchedFrom(refetch, old(shifts))
    {
      var failed := ReplaceJoinRows(shiftId, list, now, joinDelete, joinInsert);
      if failed.Some? {
        error := Some(ErrorText(failed.value, "Failed to update assignments"));
        return;
      }
      FetchShifts(refetch);
    }

    /**
     * The replace-all both `updateShift` and `updateAssignments` run: an unchecked delete of the
     * shift's join rows, then, for a non-empty list, a checked insert; returns the insert's error.
     */
    method ReplaceJoinRows(id: Id, list: seq<OfficerAssignment>, now: Instant, joinDelete: Reply, joinInsert: Reply)
      returns (failed: Option<BackendError>)
      modifies db
      ensures db.shiftRows == old(db.shiftRows) && db.timeOffRows == old(db.timeOffRows) && db.balances == old(db.balances)
      ensures db.assignmentRows == AfterReplace(old(db.assignmentRows), id, list, now, joinDelete, joinInsert)
      ensures failed.Some? <==> list != [] && joinInsert.Fail?
      ensures failed.Some? ==> failed.value == joinInsert.error
    {
      DeleteJoinRows(id, joinDelete);
      if |list| > 0 {
        if joinInsert.Fail? {
          return Some(joinInsert.error);
        }
        db.assignmentRows := db.assignmentRows + AssignedRows(id, list, now);
      } else {
        assert db.assignmentRows + [] == db.assignmentRows;
      }
      return None;
    }

    /** The row write of `updateShift`. */
    method PatchShiftRows(id: Id, patch: ShiftPatch)
      modifies db
      ensures db.shiftRows == PatchRows(old(db.shiftRows), id, patch)
      ensures db.assignmentRows == old(db.assignmentRows) && db.timeOffRows == old(db.timeOffRows)
              && db.balances == old(db.balances)
    {
      db.shiftRows := PatchRows(db.shiftRows, id, patch);
    }

    /** The unchecked delete of a shift's join rows that `deleteShift` and `ReplaceJoinRows` start with. */
    method DeleteJoinRows(id: Id, joinDelete: Reply)
      modifies db
      ensures db.shiftRows == old(db.shiftRows) && db.timeOffRows == old(db.timeOffRows) && db.balances == old(db.balances)
      ensures db.assignmentRows == if joinDelete.Ok? then WithoutShift(old(db.assignmentRows), id) else old(db.assignmentRows)
    {
      if joinDelete.Ok? {
        db.assignmentRows := WithoutShift(db.assignmentRows, id);
      }
    }

    /** `clearError`. */
    method ClearError()
      modifies this
      ensures error == None && shifts == old(shifts) && isLoading == old(isLoading)
    {
      error := None;
    }
  }
}
