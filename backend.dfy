/**
 * The Data Store both stores talk to, as in-memory tables. Whether a call to it succeeds is
 * not decided here: every call's outcome is an explicit `Reply` input of the operation that
 * makes it, and a failed call changes no table.
 */
module Backend {
  import opened Wrappers
  import opened ScheduleTypes

  /** What a failed call raises: an `Error` object with a message, or some other value. */
  datatype BackendError = ErrorObject(message: string) | NonErrorValue

  datatype Reply = Ok | Fail(error: BackendError)

  /** The stores' `error instanceof Error ? error.message : fallback`. */
  function ErrorText(e: BackendError, fallback: string): (text: string)
    ensures e.ErrorObject? ==> text == e.message
    ensures e.NonErrorValue? ==> text == fallback
  {
    match e
    case ErrorObject(m) => m
    case NonErrorValue => fallback
  }

  /**
   * The tables: `shifts`, `shift_assignments`, `time_off_requests` and the balance columns of
   * `officers` (keyed by officer id; an officer without a row is absent from the map).
   * Rows are kept in insertion order. A select without `.order(...)` is taken to return them
   * in that order; the database itself promises no order there.
   */
  class Database {
    var shiftRows: seq<ShiftRow>
    var assignmentRows: seq<AssignmentRow>
    var timeOffRows: seq<TimeOffRequest>
    var balances: map<Id, PtoBalances>

    constructor (
      shiftRows: seq<ShiftRow>,
      assignmentRows: seq<AssignmentRow>,
      timeOffRows: seq<TimeOffRequest>,
      balances: map<Id, PtoBalances>)
      ensures this.shiftRows == shiftRows && this.assignmentRows == assignmentRows
      ensures this.timeOffRows == timeOffRows && this.balances == balances
    {
      this.shiftRows := shiftRows;
      this.assignmentRows := assignmentRows;
      this.timeOffRows := timeOffRows;
      this.balances := balances;
    }
  }
}
