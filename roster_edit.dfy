/**
 * app/roster/edit.tsx: the screen that edits the rosters of every shift on one date. It keeps
 * one assignment list per shift id, starts each list from the shift's own assignments (or one
 * blank entry per officer), replaces a list whenever its table reports a change, and on save
 * sends each list to the schedule store as an assignments-only `updateShift`.
 */
module RosterEdit {
  import opened Wrappers
  import opened DateUtils
  import opened ScheduleTypes
  import opened ScheduleStore

  /**
   * The list a shift starts with: its `assignments` whenever the field is present (even when
   * empty), otherwise one entry per officer in `officers` order with no beat, no car and notes `''`.
   */
  function InitialEntry(s: Shift): (r: seq<OfficerAssignment>)
    ensures s.assignments.Some? ==> r == s.assignments.value
    ensures s.assignments.None? ==>
              |r| == |s.officers|
              && forall i :: 0 <= i < |r| ==> r[i] == OfficerAssignment(s.officers[i], None, None, Some(""))
  {
    match s.assignments
    case Some(list) => list
    case None => seq(|s.officers|, i requires 0 <= i < |s.officers| => OfficerAssignment(s.officers[i], None, None, Some("")))
  }

  /**
   * The `forEach` that fills `initialAssignments`: one key per shift of the date, holding the
   * entry of the last shift with that id (the one written last).
   */
  function InitialAssignments(shifts: seq<Shift>): (m: map<Id, seq<OfficerAssignment>>)
    ensures m.Keys == set s | s in shifts :: s.id
    ensures forall id :: id in m ==>
              exists i :: 0 <= i < |shifts| && shifts[i].id == id && m[id] == InitialEntry(shifts[i])
                          && forall j :: i < j < |shifts| ==> shifts[j].id != id
    decreases |shifts|
  {
    if shifts == [] then map[]
    else
      var last := shifts[|shifts| - 1];
      var init := shifts[..|shifts| - 1];
      var prev := InitialAssignments(init);
      InitialStep(shifts, init, last, prev);
      prev[last.id := InitialEntry(last)]
  }

  /** The last shift's write on top of the map of the shifts before it. */
  lemma InitialStep(shifts: seq<Shift>, init: seq<Shift>, last: Shift, prev: map<Id, seq<OfficerAssignment>>)
    requires shifts == init + [last]
    requires prev.Keys == set s | s in init :: s.id
    requires forall id :: id in prev ==>
               exists i :: 0 <= i < |init| && init[i].id == id && prev[id] == InitialEntry(init[i])
                           && forall j :: i < j < |init| ==> init[j].id != id
    ensures var m := prev[last.id := InitialEntry(last)];
            m.Keys == (set s | s in shifts :: s.id)
            && forall id :: id in m ==>
                 exists i :: 0 <= i < |shifts| && shifts[i].id == id && m[id] == InitialEntry(shifts[i])
                             && forall j :: i < j < |shifts| ==> shifts[j].id != id
  {
    var m := prev[last.id := InitialEntry(last)];
    forall id | id in m
      ensures exists i :: 0 <= i < |shifts| && shifts[i].id == id && m[id] == InitialEntry(shifts[i])
                          && forall j :: i < j < |shifts| ==> shifts[j].id != id
    {
      if id == last.id {
        assert shifts[|shifts| - 1] == last;
      } else {
        var i :| 0 <= i < |init| && init[i].id == id && prev[id] == InitialEntry(init[i])
                 && forall j :: i < j < |init| ==> init[j].id != id;
        assert shifts[i] == init[i];
        forall j | i < j < |shifts| ensures shifts[j].id != id {
          if j < |init| {
            assert shifts[j] == init[j];
          }
        }
      }
    }
    forall id | id in (set s | s in shifts :: s.id) ensures id in m {
      var s :| s in shifts && s.id == id;
      if s != last {
        assert s in init;
      }
    }
  }

  /** No two shifts share an id. */
  predicate UniqueShiftIds(shifts: seq<Shift>) {
    forall i, j :: 0 <= i < j < |shifts| ==> shifts[i].id != shifts[j].id
  }

  /** With distinct ids, each shift of the date gets exactly its own initial list. */
  lemma InitialPerShift(shifts: seq<Shift>, k: int)
    requires UniqueShiftIds(shifts)
    requires 0 <= k < |shifts|
    ensures shifts[k].id in InitialAssignments(shifts)
    ensures InitialAssignments(shifts)[shifts[k].id] == InitialEntry(shifts[k])
  {
    var m := InitialAssignments(shifts);
    assert shifts[k] in shifts;
    var i :| 0 <= i < |shifts| && shifts[i].id == shifts[k].id && m[shifts[k].id] == InitialEntry(shifts[i])
             && forall j :: i < j < |shifts| ==> shifts[j].id != shifts[k].id;
    assert i == k;
  }

  /** The ids a list holds. */
  function Elems(ids: seq<Id>): set<Id> {
    set x | x in ids
  }

  lemma ElemsAppend(ids: seq<Id>, id: Id)
    ensures Elems(ids + [id]) == Elems(ids) + {id}
  {
  }

  /** A list without repeats has as many elements as the set of its elements. */
  lemma {:induction false} DistinctCount(ids: seq<Id>)
    requires forall i, j :: 0 <= i < j < |ids| ==> ids[i] != ids[j]
    ensures |Elems(ids)| == |ids|
  {
    if ids != [] {
      var init := ids[..|ids| - 1];
      var last := ids[|ids| - 1];
      assert ids == init + [last];
      DistinctCount(init);
      assert Elems(ids) == Elems(init) + {last};
      assert last !in Elems(init);
    }
  }

  /**
   * What an edit comes to when the effect runs again before the save: for a shift of the date
   * (ids distinct), the list the save sends is its initial one, never an edited list that
   * differs from it.
   */
  lemma RerenderDropsEdit(shifts: seq<Shift>, k: int, list: seq<OfficerAssignment>)
    requires UniqueShiftIds(shifts)
    requires 0 <= k < |shifts|
    requires list != InitialEntry(shifts[k])
    ensures shifts[k].id in InitialAssignments(shifts)
    ensures InitialAssignments(shifts)[shifts[k].id] != list
    ensures AssignmentsPatch(InitialAssignments(shifts)[shifts[k].id]) != AssignmentsPatch(list)
  {
    InitialPerShift(shifts, k);
  }

  const SaveMessage: string := "Roster assignments saved successfully"

  /** The screen's state: the shifts of the date and the per-shift assignment lists. */
  class RosterEditScreen {
    var shifts: seq<Shift>
    var assignments: map<Id, seq<OfficerAssignment>>

    /** The first render: the date's shifts and no lists yet. */
    constructor (cached: seq<Shift>, date: Instant)
      ensures shifts == ShiftsByDate(cached, date) && assignments == map[]
    {
      shifts := ShiftsByDate(cached, date);
      assignments := map[];
    }

    /** The effect: reload the date's shifts and start every list afresh. */
    method Load(cached: seq<Shift>, date: Instant)
      modifies this
      ensures shifts == ShiftsByDate(cached, date)
      ensures assignments == InitialAssignments(shifts)
    {
      shifts := ShiftsByDate(cached, date);
      assignments := InitialAssignments(shifts);
    }

    /** `assignments[shift.id] || []`: the list a shift's table is given. */
    function ListFor(shiftId: Id): (r: seq<OfficerAssignment>)
      reads this
      ensures shiftId !in assignments ==> r == []
      ensures shiftId in assignments ==> r == assignments[shiftId]
    {
      if shiftId in assignments then assignments[shiftId] else []
    }

    /** `updateAssignments`: replace one shift's list; every other list stays. */
    method UpdateAssignments(shiftId: Id, list: seq<OfficerAssignment>)
      modifies this
      ensures shifts == old(shifts)
      ensures assignments.Keys == old(assignments).Keys + {shiftId}
      ensures assignments[shiftId] == list
      ensures forall id :: id in old(assignments) && id != shiftId ==> assignments[id] == old(assignments)[id]
    {
      assignments := assignments[shiftId := list];
    }

    /**
     * An edit followed by a save, as the screen's code runs it. `selectedDate` is a new `Date`
     * on every render, so the effect that depends on it runs again after the render the edit
     * causes, and puts back every initial list before `handleSave` reads the map.
     */
    method EditAsWritten(cached: seq<Shift>, date: Instant, shiftId: Id, list: seq<OfficerAssignment>)
      returns (calls: seq<(Id, ShiftPatch)>, message: string)
      modifies this
      ensures shifts == ShiftsByDate(cached, date)
      ensures assignments == InitialAssignments(shifts)
      ensures |calls| == |assignments.Keys|
      ensures forall i :: 0 <= i < |calls| ==>
                calls[i].0 in assignments && calls[i].1 == AssignmentsPatch(InitialAssignments(shifts)[calls[i].0])
      ensures message == SaveMessage
    {
      UpdateAssignments(shiftId, list);
      Load(cached, date);
      calls, message := HandleSave();
    }

    /** An edit followed by a save, as intended: the edited list is the one saved for its shift. */
    method EditThenSave(shiftId: Id, list: seq<OfficerAssignment>)
      returns (calls: seq<(Id, ShiftPatch)>, message: string)
      modifies this
      ensures shifts == old(shifts)
      ensures assignments == old(assignments)[shiftId := list]
      ensures exists i :: 0 <= i < |calls| && calls[i] == (shiftId, AssignmentsPatch(list))
      ensures forall i :: 0 <= i < |calls| ==> calls[i].0 in assignments && calls[i].1 == AssignmentsPatch(assignments[calls[i].0])
      ensures message == SaveMessage
    {
      UpdateAssignments(shiftId, list);
      assert assignments == old(assignments)[shiftId := list];
      calls, message := HandleSave();
    }

    /** `Object.entries(assignments)`: every shift id with a list, each once (in some order). */
    method SaveOrder() returns (ids: seq<Id>)
      ensures Elems(ids) == assignments.Keys && |ids| == |assignments.Keys|
      ensures forall i, j :: 0 <= i < j < |ids| ==> ids[i] != ids[j]
    {
      ids := [];
      var pending := assignments.Keys;
      while pending != {}
        invariant pending !! Elems(ids)
        invariant pending + Elems(ids) == assignments.Keys
        invariant forall i, j :: 0 <= i < j < |ids| ==> ids[i] != ids[j]
        decreases |pending|
      {
        var id :| id in pending;
        ElemsAppend(ids, id);
        ids := ids + [id];
        pending := pending - {id};
      }
      DistinctCount(ids);
    }

    /**
     * `handleSave`: one assignments-only `updateShift` per list, each shift id exactly once,
     * then the success message whatever the calls do (they are not awaited and report their
     * failures in the store's `error`).
     */
    method HandleSave() returns (calls: seq<(Id, ShiftPatch)>, message: string)
      ensures |calls| == |assignments.Keys|
      ensures forall i :: 0 <= i < |calls| ==> calls[i].0 in assignments && calls[i].1 == AssignmentsPatch(assignments[calls[i].0])
      ensures forall i, j :: 0 <= i < j < |calls| ==> calls[i].0 != calls[j].0
      ensures forall id :: id in assignments ==> exists i :: 0 <= i < |calls| && calls[i].0 == id
      ensures message == SaveMessage
    {
      var ids := SaveOrder();
      var m := assignments;
      calls := seq(|ids|, i requires 0 <= i < |ids| => (ids[i], AssignmentsPatch(m[ids[i]])));
      forall id | id in assignments ensures exists i :: 0 <= i < |calls| && calls[i].0 == id {
        assert id in Elems(ids);
        var i :| 0 <= i < |ids| && ids[i] == id;
        assert calls[i].0 == id;
      }
      message := SaveMessage;
    }
  }
}
