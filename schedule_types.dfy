/**
 * The entities of types/schedule.ts (what screens and stores hand around) and the table rows
 * of types/database.ts (what the Data Store keeps). Timestamps are instants and calendar
 * dates are day numbers (see DateUtils); identifiers are strings.
 *
 * `Shift | RecurringShift` becomes one datatype whose `recurrence` is optional: a shift is
 * recurring exactly when it carries a recurrence block.
 */
module ScheduleTypes {
  import opened Wrappers
  import opened DateUtils

  type Id = string

  datatype ShiftType = Morning | Afternoon | Night | CustomShift

  datatype RecurrencePattern = Daily | Weekly | Biweekly | Monthly | CustomPattern

  datatype TimeOffType = Vacation | Holiday | Sick

  datatype TimeOffStatus = Pending | Approved | Denied

  datatype AssignmentStatus = Assigned | Requested | Confirmed | Declined

  /** The directory fields the core reads; `isSupervisor` absent counts as false. */
  datatype Officer = Officer(id: Id, name: string, badge: string, rank: string, isSupervisor: bool)

  datatype Beat = Beat(id: Id, name: string, district: string)

  datatype PatrolCar = PatrolCar(id: Id, number: string, carType: string)

  /** One officer's beat, car and notes on one shift. */
  datatype OfficerAssignment = OfficerAssignment(
    officerId: Id,
    beatId: Option<Id>,
    carId: Option<Id>,
    notes: Option<string>)

  /**
   * The recurrence block of a recurring shift. `pattern` is optional because a stored row may
   * be marked recurring with an empty pattern column, which decodes to an absent pattern.
   */
  datatype Recurrence = Recurrence(
    pattern: Option<RecurrencePattern>,
    interval: int,
    daysOfWeek: Option<seq<int>>,
    endsOn: Option<Instant>,
    exceptions: Option<seq<DateKey>>)

  datatype Shift = Shift(
    id: Id,
    title: string,
    shiftType: ShiftType,
    startTime: Instant,
    endTime: Instant,
    officers: seq<Id>,
    assignments: Option<seq<OfficerAssignment>>,
    notes: Option<string>,
    location: Option<string>,
    color: Option<string>,
    recurrence: Option<Recurrence>)

  /** A time-off request; the `time_off_requests` row has the same fields, so it is one datatype. */
  datatype TimeOffRequest = TimeOffRequest(
    id: Id,
    officerId: Id,
    date: DateKey,
    timeOffType: TimeOffType,
    shiftId: Option<Id>,
    status: TimeOffStatus,
    notes: Option<string>,
    requestedAt: Instant,
    approvedBy: Option<Id>,
    approvedAt: Option<Instant>)

  /** A row of the `shifts` table (creation and update stamps left out). */
  datatype ShiftRow = ShiftRow(
    id: Id,
    title: string,
    shiftType: ShiftType,
    startTime: Instant,
    endTime: Instant,
    location: Option<string>,
    notes: Option<string>,
    color: Option<string>,
    isRecurring: bool,
    recurrencePattern: Option<RecurrencePattern>,
    recurrenceInterval: Option<int>,
    recurrenceDaysOfWeek: Option<seq<int>>,
    recurrenceEndsOn: Option<Instant>,
    recurrenceExceptions: Option<seq<DateKey>>,
    createdBy: Id)

  /** A row of the `shift_assignments` join table (its generated id and stamps left out). */
  datatype AssignmentRow = AssignmentRow(
    shiftId: Id,
    officerId: Id,
    beatId: Option<Id>,
    carId: Option<Id>,
    notes: Option<string>,
    status: AssignmentStatus,
    assignedBy: Option<Id>,
    assignedAt: Instant)

  /** The three balance columns of an `officers` row; each may be null. */
  datatype PtoBalances = PtoBalances(vacation: Option<int>, holiday: Option<int>, sick: Option<int>)

  /** `list.find(a => a.officerId === officerId)`: the first entry for that officer. */
  function FindAssignment(list: seq<OfficerAssignment>, officerId: Id): (r: Option<OfficerAssignment>)
    ensures r.None? <==> forall a :: a in list ==> a.officerId != officerId
    ensures r.Some? ==> exists i :: 0 <= i < |list| && list[i] == r.value && list[i].officerId == officerId
                                    && forall j :: 0 <= j < i ==> list[j].officerId != officerId
    decreases |list|
  {
    if list == [] then None
    else if list[0].officerId == officerId then Some(list[0])
    else
      var h, t := list[0], list[1..];
      assert list == [h] + t;
      var r := FindAssignment(t, officerId);
      FindStep(h, t, officerId, r);
      r
  }

  /** The step of `FindAssignment` past a head `h` for another officer. */
  lemma FindStep(h: OfficerAssignment, t: seq<OfficerAssignment>, officerId: Id, r: Option<OfficerAssignment>)
    requires h.officerId != officerId
    requires r.None? <==> forall a :: a in t ==> a.officerId != officerId
    requires r.Some? ==> exists i :: 0 <= i < |t| && t[i] == r.value && t[i].officerId == officerId
                                    && forall j :: 0 <= j < i ==> t[j].officerId != officerId
    ensures r.None? <==> forall a :: a in [h] + t ==> a.officerId != officerId
    ensures r.Some? ==> exists i :: 0 <= i < |[h] + t| && ([h] + t)[i] == r.value && ([h] + t)[i].officerId == officerId
                                    && forall j :: 0 <= j < i ==> ([h] + t)[j].officerId != officerId
  {
    var list := [h] + t;
    if r.Some? {
      var i :| 0 <= i < |t| && t[i] == r.value && t[i].officerId == officerId
               && forall j :: 0 <= j < i ==> t[j].officerId != officerId;
      assert list[i + 1] == r.value;
      forall j | 0 <= j < i + 1 ensures list[j].officerId != officerId {
        if j > 0 {
          assert list[j] == t[j - 1];
        }
      }
    }
  }

  /** `beats.find(b => b.id === beatId)`: the first beat with that id. */
  function FindBeat(beats: seq<Beat>, beatId: Id): (r: Option<Beat>)
    ensures r.None? <==> forall b :: b in beats ==> b.id != beatId
    ensures r.Some? ==> r.value in beats && r.value.id == beatId
    ensures r.Some? ==> exists i :: 0 <= i < |beats| && beats[i] == r.value
                                    && forall j :: 0 <= j < i ==> beats[j].id != beatId
    decreases |beats|
  {
    if beats == [] then None
    else if beats[0].id == beatId then Some(beats[0])
    else
      var r := FindBeat(beats[1..], beatId);
      assert r.Some? ==> exists i :: 0 <= i < |beats| && beats[i] == r.value
                                     && forall j :: 0 <= j < i ==> beats[j].id != beatId by {
        if r.Some? {
          var i :| 0 <= i < |beats[1..]| && beats[1..][i] == r.value
                   && forall j :: 0 <= j < i ==> beats[1..][j].id != beatId;
          assert beats[i + 1] == r.value;
          forall j | 0 <= j < i + 1 ensures beats[j].id != beatId {
            if j > 0 {
              assert beats[j] == beats[1..][j - 1];
            }
          }
        }
      }
      r
  }

  /** `patrolCars.find(c => c.id === carId)`: the first car with that id. */
  function FindCar(cars: seq<PatrolCar>, carId: Id): (r: Option<PatrolCar>)
    ensures r.None? <==> forall c :: c in cars ==> c.id != carId
    ensures r.Some? ==> r.value in cars && r.value.id == carId
    ensures r.Some? ==> exists i :: 0 <= i < |cars| && cars[i] == r.value
                                    && forall j :: 0 <= j < i ==> cars[j].id != carId
    decreases |cars|
  {
    if cars == [] then None
    else if cars[0].id == carId then Some(cars[0])
    else
      var r := FindCar(cars[1..], carId);
      assert r.Some? ==> exists i :: 0 <= i < |cars| && cars[i] == r.value
                                     && forall j :: 0 <= j < i ==> cars[j].id != carId by {
        if r.Some? {
          var i :| 0 <= i < |cars[1..]| && cars[1..][i] == r.value
                   && forall j :: 0 <= j < i ==> cars[1..][j].id != carId;
          assert cars[i + 1] == r.value;
          forall j | 0 <= j < i + 1 ensures cars[j].id != carId {
            if j > 0 {
              assert cars[j] == cars[1..][j - 1];
            }
          }
        }
      }
      r
  }

  /** `officers.find(o => o.id === officerId)`: the first officer with that id. */
  function FindOfficer(officers: seq<Officer>, officerId: Id): (r: Option<Officer>)
    ensures r.None? <==> forall o :: o in officers ==> o.id != officerId
    ensures r.Some? ==> r.value in officers && r.value.id == officerId
    ensures r.Some? ==> exists i :: 0 <= i < |officers| && officers[i] == r.value
                                    && forall j :: 0 <= j < i ==> officers[j].id != officerId
    decreases |officers|
  {
    if officers == [] then None
    else if officers[0].id == officerId then Some(officers[0])
    else
      var r := FindOfficer(officers[1..], officerId);
      assert r.Some? ==> exists i :: 0 <= i < |officers| && officers[i] == r.value
                                     && forall j :: 0 <= j < i ==> officers[j].id != officerId by {
        if r.Some? {
          var i :| 0 <= i < |officers[1..]| && officers[1..][i] == r.value
                   && forall j :: 0 <= j < i ==> officers[1..][j].id != officerId;
          assert officers[i + 1] == r.value;
          forall j | 0 <= j < i + 1 ensures officers[j].id != officerId {
            if j > 0 {
              assert officers[j] == officers[1..][j - 1];
            }
          }
        }
      }
      r
  }
}
