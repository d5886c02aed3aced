/**
 * store/timeOffStore.ts: the time-off request cache, the request/approve/deny writes, the
 * conversion of a shift into approved time off, and the per-officer PTO balances.
 *
 * Balances live in `Database.balances`; `updateOfficerPTOBalance` is a read-modify-write of one
 * of the three columns of one officer, clamped at zero.
 */
module TimeOffStore {
  import opened Wrappers
  import opened Seqs
  import opened DateUtils
  import opened ScheduleTypes
  import opened Backend
  import ScheduleStore

  // ---------------------------------------------------------------------------------
  // Fetch order and selectors

  /** The sort key of `.order('date', { ascending: true })`. */
  function DateKeyOf(r: TimeOffRequest): int {
    r.date
  }

  function OnDate(date: DateKey): TimeOffRequest -> bool {
    (r: TimeOffRequest) => r.date == date
  }

  function ApprovedOn(date: DateKey): TimeOffRequest -> bool {
    (r: TimeOffRequest) => r.date == date && r.status == Approved
  }

  function OfOfficer(officerId: Id): TimeOffRequest -> bool {
    (r: TimeOffRequest) => r.officerId == officerId
  }

  /** What `fetchTimeOffRequests(date?)` reads: the table ascending by date, restricted to the date's day when one is given. */
  function FetchedRequests(rows: seq<TimeOffRequest>, date: Option<Instant>): (r: seq<TimeOffRequest>)
    ensures SortedBy(DateKeyOf, r)
    ensures forall x :: x in r <==> x in rows && (date.None? || x.date == DayOf(date.value))
    ensures date.None? ==> multiset(r) == multiset(rows)
    ensures date.Some? ==> multiset(r) == multiset(Filter(OnDate(DayOf(date.value)), rows))
  {
    match date
    case None =>
      SortByMembers(DateKeyOf, rows);
      SortBy(DateKeyOf, rows)
    case Some(d) =>
      var picked := Filter(OnDate(DayOf(d)), rows);
      SortByMembers(DateKeyOf, picked);
      SortBy(DateKeyOf, picked)
  }

  /** `getTimeOffByDate`: the approved requests on the date's day, in cache order. */
  function TimeOffByDate(requests: seq<TimeOffRequest>, date: Instant): (r: seq<TimeOffRequest>)
    ensures forall x :: x in r <==> x in requests && x.date == DayOf(date) && x.status == Approved
    ensures IsSubseq(r, requests)
  {
    FilterIsSubseq(ApprovedOn(DayOf(date)), requests);
    Filter(ApprovedOn(DayOf(date)), requests)
  }

  /** `getTimeOffByOfficer`: the officer's requests of every status, in cache order. */
  function TimeOffByOfficer(requests: seq<TimeOffRequest>, officerId: Id): (r: seq<TimeOffRequest>)
    ensures forall x :: x in r <==> x in requests && x.officerId == officerId
    ensures IsSubseq(r, requests)
  {
    FilterIsSubseq(OfOfficer(officerId), requests);
    Filter(OfOfficer(officerId), requests)
  }

  // ---------------------------------------------------------------------------------
  // Writes to the request table

  /** `.update({ status, approved_by, approved_at }).eq('id', id)`, whatever the row's current status. */
  function SetDecision(rows: seq<TimeOffRequest>, id: Id, status: TimeOffStatus, decidedBy: Id, decidedAt: Instant): (r: seq<TimeOffRequest>)
    ensures |r| == |rows|
    ensures forall i :: 0 <= i < |r| && rows[i].id != id ==> r[i] == rows[i]
    ensures forall i :: 0 <= i < |r| && rows[i].id == id ==>
              r[i].status == status && r[i].approvedBy == Some(decidedBy) && r[i].approvedAt == Some(decidedAt)
              && r[i].(status := rows[i].status, approvedBy := rows[i].approvedBy, approvedAt := rows[i].approvedAt) == rows[i]
  {
    seq(|rows|, i requires 0 <= i < |rows| =>
      if rows[i].id == id then rows[i].(status := status, approvedBy := Some(decidedBy), approvedAt := Some(decidedAt)) else rows[i])
  }

  /** A second decision on the same request overrides the first: only the last one is visible. */
  lemma {:induction false} LastDecisionWins(rows: seq<TimeOffRequest>, id: Id, s1: TimeOffStatus, b1: Id, t1: Instant,
                                            s2: TimeOffStatus, b2: Id, t2: Instant)
    ensures SetDecision(SetDecision(rows, id, s1, b1, t1), id, s2, b2, t2) == SetDecision(rows, id, s2, b2, t2)
  {
  }

  // ---------------------------------------------------------------------------------
  // PTO balances

  /** The column `${type}_balance`. */
  function BalanceOf(b: PtoBalances, t: TimeOffType): Option<int> {
    match t
    case Vacation => b.vacation
    case Holiday => b.holiday
    case Sick => b.sick
  }

  /** Writes `${type}_balance` and no other column. */
  function WithBalance(b: PtoBalances, t: TimeOffType, v: int): (r: PtoBalances)
    ensures BalanceOf(r, t) == Some(v)
    ensures forall u :: u != t ==> BalanceOf(r, u) == BalanceOf(b, u)
  {
    match t
    case Vacation => b.(vacation := Some(v))
    case Holiday => b.(holiday := Some(v))
    case Sick => b.(sick := Some(v))
  }

  /** `Math.max(0, (current || 0) + hours)`. */
  function ClampedBalance(current: Option<int>, hours: int): (n: int)
    ensures n >= 0
    ensures current.GetOr(0) + hours >= 0 ==> n == current.GetOr(0) + hours
    ensures current.GetOr(0) + hours < 0 ==> n == 0
  {
    var c := current.GetOr(0);
    if c + hours > 0 then c + hours else 0
  }

  /** Two deductions in a row leave what one deduction of their sum leaves. */
  lemma DeductionsCompose(current: Option<int>, a: int, b: int)
    requires current.GetOr(0) >= 0 && a >= 0 && b >= 0
    ensures ClampedBalance(Some(ClampedBalance(current, -a)), -b) == ClampedBalance(current, -(a + b))
  {
  }

  /** The balance table after one successful read-modify-write. */
  function AdjustedBalances(balances: map<Id, PtoBalances>, officerId: Id, t: TimeOffType, hours: int): (r: map<Id, PtoBalances>)
    requires officerId in balances
    ensures r.Keys == balances.Keys
    ensures forall o :: o in balances && o != officerId ==> r[o] == balances[o]
    ensures BalanceOf(r[officerId], t) == Some(ClampedBalance(BalanceOf(balances[officerId], t), hours))
    ensures forall u :: u != t ==> BalanceOf(r[officerId], u) == BalanceOf(balances[officerId], u)
  {
    balances[officerId := WithBalance(balances[officerId], t, ClampedBalance(BalanceOf(balances[officerId], t), hours))]
  }

  /** Every balance that is never negative stays never negative after an adjustment. */
  lemma {:induction false} AdjustKeepsNonNegative(balances: map<Id, PtoBalances>, officerId: Id, t: TimeOffType, hours: int)
    requires officerId in balances
    requires forall o, u :: o in balances ==> BalanceOf(balances[o], u).GetOr(0) >= 0
    ensures forall o, u :: o in balances ==> BalanceOf(AdjustedBalances(balances, officerId, t, hours)[o], u).GetOr(0) >= 0
  {
    var r := AdjustedBalances(balances, officerId, t, hours);
    forall o, u | o in balances ensures BalanceOf(r[o], u).GetOr(0) >= 0 {
      if o == officerId && u == t {
        assert BalanceOf(r[o], u) == Some(ClampedBalance(BalanceOf(balances[officerId], t), hours));
      }
    }
  }

  /** The hours `convertShiftToTimeOff` deducts: one eight-hour shift. */
  const HoursPerShift: int := 8

  class Store {
    const db: Database
    var requests: seq<TimeOffRequest>
    var isLoading: bool
    var error: Option<string>

    constructor (db: Database)
      ensures this.db == db && requests == [] && !isLoading && error == None
    {
      this.db := db;
      requests := [];
      isLoading := false;
      error := None;
    }

    /** The state `fetchTimeOffRequests(date)` leaves. */
    predicate FetchedFrom(select: Reply, date: Option<Instant>, before: seq<TimeOffRequest>)
      reads this, db
    {
      !isLoading
      && if select.Ok? then
           requests == FetchedRequests(db.timeOffRows, date) && error == None
         else
           requests == before && error == Some(ErrorText(select.error, "Failed to fetch time off requests"))
    }

    /** `fetchTimeOffRequests`: replaces the cache with the ordered (and possibly date-restricted) table. */
    method FetchTimeOffRequests(date: Option<Instant>, select: Reply)
      modifies this
      ensures FetchedFrom(select, date, old(requests))
    {
      isLoading, error := true, None;
      if select.Fail? {
        error, isLoading := Some(ErrorText(select.error, "Failed to fetch time off requests")), false;
        return;
      }
      requests, isLoading := FetchedRequests(db.timeOffRows, date), false;
    }

    /** `requestTimeOff`: inserts a `pending` request (id and request time generated), then refetches everything. */
    method RequestTimeOff(officerId: Id, date: DateKey, t: TimeOffType, shiftId: Option<Id>, notes: Option<string>,
                          newId: Id, now: Instant, insert: Reply, refetch: Reply)
      modifies this, db
      ensures db.shiftRows == old(db.shiftRows) && db.assignmentRows == old(db.assignmentRows) && db.balances == old(db.balances)
      ensures db.timeOffRows == old(db.timeOffRows)
                + (if insert.Ok? then [TimeOffRequest(newId, officerId, date, t, shiftId, Pending, notes, now, None, None)] else [])
      ensures insert.Fail? ==>
                !isLoading && requests == old(requests) && error == Some(ErrorText(insert.error, "Failed to request time off"))
      ensures insert.Ok? ==> FetchedFrom(refetch, None, old(requests))
    {
      isLoading, error := true, None;
      if insert.Fail? {
        error, isLoading := Some(ErrorText(insert.error, "Failed to request time off")), false;
        return;
      }
      db.timeOffRows := db.timeOffRows + [TimeOffRequest(newId, officerId, date, t, shiftId, Pending, notes, now, None, None)];
      FetchTimeOffRequests(None, refetch);
    }

    /** `approveTimeOff` and `denyTimeOff`: the decision write on one row, then a refetch; balances are not touched. */
    method Decide(id: Id, status: TimeOffStatus, approvedBy: Id, now: Instant, update: Reply, refetch: Reply, fallback: string)
      modifies this, db
      ensures db.shiftRows == old(db.shiftRows) && db.assignmentRows == old(db.assignmentRows) && db.balances == old(db.balances)
      ensures db.timeOffRows == if update.Ok? then SetDecision(old(db.timeOffRows), id, status, approvedBy, now) else old(db.timeOffRows)
      ensures update.Fail? ==> !isLoading && requests == old(requests) && error == Some(ErrorText(update.error, fallback))
      ensures update.Ok? ==> FetchedFrom(refetch, None, old(requests))
    {
      isLoading, error := true, None;
      if update.Fail? {
        error, isLoading := Some(ErrorText(update.error, fallback)), false;
        return;
      }
      db.timeOffRows := SetDecision(db.timeOffRows, id, status, approvedBy, now);
      FetchTimeOffRequests(None, refetch);
    }

    /** `approveTimeOff`. */
    method ApproveTimeOff(id: Id, approvedBy: Id, now: Instant, update: Reply, refetch: Reply)
      modifies this, db
      ensures db.shiftRows == old(db.shiftRows) && db.assignmentRows == old(db.assignmentRows) && db.balances == old(db.balances)
      ensures db.timeOffRows == if update.Ok? then SetDecision(old(db.timeOffRows), id, Approved, approvedBy, now) else old(db.timeOffRows)
      ensures update.Fail? ==>
                !isLoading && requests == old(requests) && error == Some(ErrorText(update.error, "Failed to approve time off"))
      ensures update.Ok? ==> FetchedFrom(refetch, None, old(requests))
    {
      Decide(id, Approved, approvedBy, now, update, refetch, "Failed to approve time off");
    }

    /** `denyTimeOff`. */
    method DenyTimeOff(id: Id, approvedBy: Id, now: Instant, update: Reply, refetch: Reply)
      modifies this, db
      ensures db.shiftRows == old(db.shiftRows) && db.assignmentRows == old(db.assignmentRows) && db.balances == old(db.balances)
      ensures db.timeOffRows == if update.Ok? then SetDecision(old(db.timeOffRows), id, Denied, approvedBy, now) else old(db.timeOffRows)
      ensures update.Fail? ==>
                !isLoading && requests == old(requests) && error == Some(ErrorText(update.error, "Failed to deny time off"))
      ensures update.Ok? ==> FetchedFrom(refetch, None, old(requests))
    {
      Decide(id, Denied, approvedBy, now, update, refetch, "Failed to deny time off");
    }

    /**
     * `updateOfficerPTOBalance`: reads the officer's `${type}_balance` (a read of an officer with
     * no row fails), writes `max(0, current + hours)`; any failure only sets `error`.
     */
    method UpdateOfficerPtoBalance(officerId: Id, t: TimeOffType, hours: int, read: Reply, write: Reply)
      requires read.Ok? ==> officerId in db.balances
      modifies this, db
      ensures db.shiftRows == old(db.shiftRows) && db.assignmentRows == old(db.assignmentRows)
      ensures db.timeOffRows == old(db.timeOffRows)
      ensures requests == old(requests) && isLoading == old(isLoading)
      ensures db.balances == if read.Ok? && write.Ok? then AdjustedBalances(old(db.balances), officerId, t, hours)
                             else old(db.balances)
      ensures read.Fail? ==> error == Some(ErrorText(read.error, "Failed to update PTO balance"))
      ensures read.Ok? && write.Fail? ==> error == Some(ErrorText(write.error, "Failed to update PTO balance"))
      ensures read.Ok? && write.Ok? ==> error == old(error)
    {
      if read.Fail? {
        error := Some(ErrorText(read.error, "Failed to update PTO balance"));
        return;
      }
      var current := BalanceOf(db.balances[officerId], t);
      var newBalance := ClampedBalance(current, hours);
      if write.Fail? {
        error := Some(ErrorText(write.error, "Failed to update PTO balance"));
        return;
      }
      db.balances := db.balances[officerId := WithBalance(db.balances[officerId], t, newBalance)];
    }

    /**
     * `convertShiftToTimeOff`: in order, inserts an `approved` request, deletes the officer's
     * join rows for the shift, deducts eight hours, refetches; nothing is rolled back. A failed
     * insert or delete stops the sequence; a failed deduction does not, and the refetch then
     * clears its error.
     */
    method ConvertShiftToTimeOff(shiftId: Id, officerId: Id, t: TimeOffType, date: DateKey, notes: Option<string>,
                                 newId: Id, now: Instant, insert: Reply, delete: Reply,
                                 balanceRead: Reply, balanceWrite: Reply, refetch: Reply)
      requires balanceRead.Ok? ==> officerId in db.balances
      modifies this, db
      ensures db.shiftRows == old(db.shiftRows)
      ensures db.timeOffRows == old(db.timeOffRows)
                + (if insert.Ok? then [TimeOffRequest(newId, officerId, date, t, Some(shiftId), Approved, notes, now, None, None)] else [])
      ensures db.assignmentRows == if insert.Ok? && delete.Ok? then ScheduleStore.WithoutOfficer(old(db.assignmentRows), shiftId, officerId)
                                   else old(db.assignmentRows)
      ensures db.balances == if insert.Ok? && delete.Ok? && balanceRead.Ok? && balanceWrite.Ok?
                             then AdjustedBalances(old(db.balances), officerId, t, -HoursPerShift)
                             else old(db.balances)
      ensures insert.Fail? ==>
                !isLoading && requests == old(requests) && error == Some(ErrorText(insert.error, "Failed to convert shift to time off"))
      ensures insert.Ok? && delete.Fail? ==>
                !isLoading && requests == old(requests) && error == Some(ErrorText(delete.error, "Failed to convert shift to time off"))
      ensures insert.Ok? && delete.Ok? ==> FetchedFrom(refetch, None, old(requests))
    {
      isLoading, error := true, None;
      if insert.Fail? {
        error, isLoading := Some(ErrorText(insert.error, "Failed to convert shift to time off")), false;
        return;
      }
      db.timeOffRows := db.timeOffRows + [TimeOffRequest(newId, officerId, date, t, Some(shiftId), Approved, notes, now, None, None)];
      if delete.Fail? {
        error, isLoading := Some(ErrorText(delete.error, "Failed to convert shift to time off")), false;
        return;
      }
      db.assignmentRows := ScheduleStore.WithoutOfficer(db.assignmentRows, shiftId, officerId);
      UpdateOfficerPtoBalance(officerId, t, -HoursPerShift, balanceRead, balanceWrite);
      FetchTimeOffRequests(None, refetch);
    }

    /** `clearError`. */
    method ClearError()
      modifies this
      ensures error == None && requests == old(requests) && isLoading == old(isLoading)
    {
      error := None;
    }
  }
}
