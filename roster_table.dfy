/**
 * components/RosterTable.tsx: the read-only roster of one shift on one date. The officers of
 * the shift are split into supervisors and the rest, each row shows the officer's beat, car
 * and notes from the shift's assignments, and the approved time off of the date is grouped
 * by type.
 *
 * The split and the beat/car labels are shared with components/EditableRosterTable.tsx, which
 * computes them the same way with different placeholders.
 */
module RosterTable {
  import opened Wrappers
  import opened Seqs
  import opened DateUtils
  import opened ScheduleTypes
  import TimeOffStore

  // ---------------------------------------------------------------------------------
  // Officers of the shift

  function OnShift(shiftOfficers: seq<Id>): Officer -> bool {
    (o: Officer) => o.id in shiftOfficers
  }

  function IsSupervisor(): Officer -> bool {
    (o: Officer) => o.isSupervisor
  }

  function IsRegular(): Officer -> bool {
    (o: Officer) => !o.isSupervisor
  }

  /** `officers.filter(officer => shift.officers.includes(officer.id))`: directory order, not shift order. */
  function AssignedOfficers(directory: seq<Officer>, shiftOfficers: seq<Id>): (r: seq<Officer>)
    ensures forall o :: o in r <==> o in directory && o.id in shiftOfficers
    ensures IsSubseq(r, directory)
  {
    FilterIsSubseq(OnShift(shiftOfficers), directory);
    Filter(OnShift(shiftOfficers), directory)
  }

  function Supervisors(directory: seq<Officer>, shiftOfficers: seq<Id>): seq<Officer> {
    Filter(IsSupervisor(), AssignedOfficers(directory, shiftOfficers))
  }

  function RegularOfficers(directory: seq<Officer>, shiftOfficers: seq<Id>): seq<Officer> {
    Filter(IsRegular(), AssignedOfficers(directory, shiftOfficers))
  }

  /**
   * Supervisors and regular officers split the shift's officers: every assigned officer is in
   * exactly one of the two lists, each list keeps directory order, and the "no officers" empty
   * state shows exactly when both sections are empty.
   */
  lemma SupervisorPartition(directory: seq<Officer>, shiftOfficers: seq<Id>)
    ensures var all := AssignedOfficers(directory, shiftOfficers);
            multiset(Supervisors(directory, shiftOfficers)) + multiset(RegularOfficers(directory, shiftOfficers)) == multiset(all)
    ensures forall o :: o in Supervisors(directory, shiftOfficers) <==> o in directory && o.id in shiftOfficers && o.isSupervisor
    ensures forall o :: o in RegularOfficers(directory, shiftOfficers) <==> o in directory && o.id in shiftOfficers && !o.isSupervisor
    ensures IsSubseq(Supervisors(directory, shiftOfficers), AssignedOfficers(directory, shiftOfficers))
    ensures IsSubseq(RegularOfficers(directory, shiftOfficers), AssignedOfficers(directory, shiftOfficers))
    ensures AssignedOfficers(directory, shiftOfficers) == [] <==>
              Supervisors(directory, shiftOfficers) == [] && RegularOfficers(directory, shiftOfficers) == []
  {
    var all := AssignedOfficers(directory, shiftOfficers);
    FilterPartition(IsSupervisor(), IsRegular(), all);
    FilterIsSubseq(IsSupervisor(), all);
    FilterIsSubseq(IsRegular(), all);
  }

  // ---------------------------------------------------------------------------------
  // One officer's row

  /** `shift.assignments?.find(...)`: the officer's first entry, nothing when the shift has no list. */
  function AssignmentOf(shift: Shift, officerId: Id): (r: Option<OfficerAssignment>)
    ensures shift.assignments.None? ==> r.None?
    ensures shift.assignments.Some? ==> r == FindAssignment(shift.assignments.value, officerId)
  {
    match shift.assignments
    case None => None
    case Some(list) => FindAssignment(list, officerId)
  }

  /**
   * `getBeatName`: the beat's name, or `placeholder` when the id is missing, empty or unknown.
   * The read-only table uses `'-'`, the editable one `'Select Beat'`.
   */
  function BeatLabel(beats: seq<Beat>, beatId: Option<Id>, placeholder: string): (r: string)
    ensures beatId.None? || beatId == Some("") ==> r == placeholder
    ensures beatId.Some? && beatId.value != "" && FindBeat(beats, beatId.value).None? ==> r == placeholder
    ensures beatId.Some? && beatId.value != "" && FindBeat(beats, beatId.value).Some? ==>
              r == FindBeat(beats, beatId.value).value.name
    ensures r == placeholder || exists b :: b in beats && Some(b.id) == beatId && r == b.name
  {
    if beatId.None? || beatId.value == "" then placeholder
    else
      match FindBeat(beats, beatId.value)
      case None => placeholder
      case Some(b) => b.name
  }

  /** `getCarNumber`: the car's number, or `placeholder` when the id is missing, empty or unknown. */
  function CarLabel(cars: seq<PatrolCar>, carId: Option<Id>, placeholder: string): (r: string)
    ensures carId.None? || carId == Some("") ==> r == placeholder
    ensures carId.Some? && carId.value != "" && FindCar(cars, carId.value).None? ==> r == placeholder
    ensures carId.Some? && carId.value != "" && FindCar(cars, carId.value).Some? ==>
              r == FindCar(cars, carId.value).value.number
    ensures r == placeholder || exists c :: c in cars && Some(c.id) == carId && r == c.number
  {
    if carId.None? || carId.value == "" then placeholder
    else
      match FindCar(cars, carId.value)
      case None => placeholder
      case Some(c) => c.number
  }

  const NoValue: string := "-"

  /** The beat, car and notes cells of one officer's row in the read-only table. */
  datatype RowCells = RowCells(beat: string, car: string, notes: string)

  /**
   * Without an entry for the officer every cell is empty (`'-'`, `'-'`, `''`); with one, the
   * beat and car cells are `getBeatName` and `getCarNumber` of the entry's ids (so `'-'` or the
   * name/number of the beat/car that entry names), and the notes are the entry's notes or `''`.
   */
  function RosterRowCells(shift: Shift, beats: seq<Beat>, cars: seq<PatrolCar>, officerId: Id): (r: RowCells)
    ensures AssignmentOf(shift, officerId).None? ==> r == RowCells(NoValue, NoValue, "")
    ensures AssignmentOf(shift, officerId).Some? ==>
              var a := AssignmentOf(shift, officerId).value;
              a.officerId == officerId
              && (r.beat == NoValue || exists b :: b in beats && Some(b.id) == a.beatId && r.beat == b.name)
              && (r.car == NoValue || exists c :: c in cars && Some(c.id) == a.carId && r.car == c.number)
              && (a.notes.None? ==> r.notes == "")
              && (a.notes.Some? ==> r.notes == a.notes.value)
    ensures AssignmentOf(shift, officerId).Some? ==>
              r.beat == BeatLabel(beats, AssignmentOf(shift, officerId).value.beatId, NoValue)
              && r.car == CarLabel(cars, AssignmentOf(shift, officerId).value.carId, NoValue)
  {
    match AssignmentOf(shift, officerId)
    case None => RowCells(BeatLabel(beats, None, NoValue), CarLabel(cars, None, NoValue), "")
    case Some(a) => RowCells(BeatLabel(beats, a.beatId, NoValue), CarLabel(cars, a.carId, NoValue), a.notes.GetOr(""))
  }

  // ---------------------------------------------------------------------------------
  // Time off of the date

  datatype TimeOffGroups = TimeOffGroups(
    vacation: seq<TimeOffRequest>,
    holiday: seq<TimeOffRequest>,
    sick: seq<TimeOffRequest>)

  function OfType(t: TimeOffType): TimeOffRequest -> bool {
    (r: TimeOffRequest) => r.timeOffType == t
  }

  /** `timeOffByType`: `getTimeOffByDate(date)` split by type. */
  function GroupTimeOff(requests: seq<TimeOffRequest>, date: Instant): (g: TimeOffGroups)
    ensures var approved := TimeOffStore.TimeOffByDate(requests, date);
            multiset(g.vacation) + multiset(g.holiday) + multiset(g.sick) == multiset(approved)
            && |g.vacation| + |g.holiday| + |g.sick| == |approved|
    ensures forall x :: x in g.vacation <==> x in requests && x.date == DayOf(date) && x.status == Approved && x.timeOffType == Vacation
    ensures forall x :: x in g.holiday <==> x in requests && x.date == DayOf(date) && x.status == Approved && x.timeOffType == Holiday
    ensures forall x :: x in g.sick <==> x in requests && x.date == DayOf(date) && x.status == Approved && x.timeOffType == Sick
  {
    var approved := TimeOffStore.TimeOffByDate(requests, date);
    var g := TimeOffGroups(Filter(OfType(Vacation), approved), Filter(OfType(Holiday), approved), Filter(OfType(Sick), approved));
    ThreeWaySplit(approved, g);
    CountsAdd(g.vacation, g.holiday, g.sick, approved);
    g
  }

  lemma ThreeWaySplit(s: seq<TimeOffRequest>, g: TimeOffGroups)
    requires g == TimeOffGroups(Filter(OfType(Vacation), s), Filter(OfType(Holiday), s), Filter(OfType(Sick), s))
    ensures forall x :: multiset(g.vacation)[x] + multiset(g.holiday)[x] + multiset(g.sick)[x] == multiset(s)[x]
  {
    forall x ensures multiset(g.vacation)[x] + multiset(g.holiday)[x] + multiset(g.sick)[x] == multiset(s)[x] {
      TypeCount(s, g, x);
    }
  }

  lemma CountsAdd<T>(a: seq<T>, b: seq<T>, c: seq<T>, s: seq<T>)
    requires forall x :: multiset(a)[x] + multiset(b)[x] + multiset(c)[x] == multiset(s)[x]
    ensures multiset(a) + multiset(b) + multiset(c) == multiset(s)
    ensures |a| + |b| + |c| == |s|
  {
    assert multiset(a) + multiset(b) + multiset(c) == multiset(s);
    assert |multiset(a) + multiset(b) + multiset(c)| == |multiset(s)|;
  }

  lemma TypeCount(s: seq<TimeOffRequest>, g: TimeOffGroups, x: TimeOffRequest)
    requires g == TimeOffGroups(Filter(OfType(Vacation), s), Filter(OfType(Holiday), s), Filter(OfType(Sick), s))
    ensures multiset(g.vacation)[x] + multiset(g.holiday)[x] + multiset(g.sick)[x] == multiset(s)[x]
  {
    assert multiset(g.vacation)[x] == if x.timeOffType == Vacation then multiset(s)[x] else 0;
    assert multiset(g.holiday)[x] == if x.timeOffType == Holiday then multiset(s)[x] else 0;
    assert multiset(g.sick)[x] == if x.timeOffType == Sick then multiset(s)[x] else 0;
  }

  /** The "Time Off" section is shown when one of the three groups is non-empty. */
  predicate ShowsTimeOffSection(g: TimeOffGroups) {
    |g.vacation| > 0 || |g.holiday| > 0 || |g.sick| > 0
  }

  /** The section shows exactly when some request on that day is approved. */
  lemma TimeOffSectionShown(requests: seq<TimeOffRequest>, date: Instant)
    ensures ShowsTimeOffSection(GroupTimeOff(requests, date)) <==>
              exists x :: x in requests && x.date == DayOf(date) && x.status == Approved
  {
    var approved := TimeOffStore.TimeOffByDate(requests, date);
    if exists x :: x in requests && x.date == DayOf(date) && x.status == Approved {
      var x :| x in requests && x.date == DayOf(date) && x.status == Approved;
      assert x in approved;
    }
  }
}
