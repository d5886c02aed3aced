/**
 * components/EditableRosterTable.tsx: the roster of one shift with a beat picker, a car picker
 * and a notes field per officer. The component does not own the assignment list: it receives
 * it, and every edit hands a new list to `onAssignmentsChange`. What it owns is the picker
 * state, the officer whose beat or car is being chosen and which of the two pickers is open.
 *
 * The supervisor split and the label lookups are the ones of RosterTable, with the
 * placeholders `'Select Beat'` and `'Select Car'`.
 */
module EditableRosterTable {
  import opened Wrappers
  import opened ScheduleTypes
  import opened RosterTable

  const SelectBeat: string := "Select Beat"
  const SelectCar: string := "Select Car"

  /** The one-field `Partial<OfficerAssignment>` each control sends. */
  datatype AssignmentUpdate = SetBeat(beatId: Id) | SetCar(carId: Id) | SetNotes(notes: string)

  /** `{ ...assignment, ...updates }`: the update overrides its one field. */
  function Merge(a: OfficerAssignment, u: AssignmentUpdate): (r: OfficerAssignment)
    ensures r.officerId == a.officerId
    ensures u.SetBeat? ==> r.beatId == Some(u.beatId) && r.carId == a.carId && r.notes == a.notes
    ensures u.SetCar? ==> r.carId == Some(u.carId) && r.beatId == a.beatId && r.notes == a.notes
    ensures u.SetNotes? ==> r.notes == Some(u.notes) && r.beatId == a.beatId && r.carId == a.carId
  {
    match u
    case SetBeat(b) => a.(beatId := Some(b))
    case SetCar(c) => a.(carId := Some(c))
    case SetNotes(n) => a.(notes := Some(n))
  }

  /** The entry an officer without one is shown with: no beat, no car, empty notes. */
  function DefaultAssignment(officerId: Id): OfficerAssignment {
    OfficerAssignment(officerId, None, None, Some(""))
  }

  predicate HasEntry(list: seq<OfficerAssignment>, officerId: Id) {
    exists a :: a in list && a.officerId == officerId
  }

  /** `getAssignmentForOfficer`: the officer's first entry, or the default entry. */
  function AssignmentForOfficer(list: seq<OfficerAssignment>, officerId: Id): (r: OfficerAssignment)
    ensures r.officerId == officerId
    ensures !HasEntry(list, officerId) ==> r == DefaultAssignment(officerId)
    ensures HasEntry(list, officerId) ==>
              exists i :: 0 <= i < |list| && list[i] == r && forall j :: 0 <= j < i ==> list[j].officerId != officerId
  {
    FindAssignment(list, officerId).GetOr(DefaultAssignment(officerId))
  }

  /**
   * `updateAssignment`: every entry of the officer gets the update, and when the officer has
   * none, one entry (the default overridden by the update) is appended. The given list is not
   * changed; the result is the list handed to `onAssignmentsChange`.
   */
  function UpdateAssignment(list: seq<OfficerAssignment>, officerId: Id, u: AssignmentUpdate): (r: seq<OfficerAssignment>)
    ensures HasEntry(list, officerId) ==> |r| == |list|
    ensures !HasEntry(list, officerId) ==> |r| == |list| + 1 && r[|list|] == Merge(DefaultAssignment(officerId), u)
    ensures forall i :: 0 <= i < |list| && list[i].officerId != officerId ==> r[i] == list[i]
    ensures forall i :: 0 <= i < |list| && list[i].officerId == officerId ==> r[i] == Merge(list[i], u)
  {
    var merged := seq(|list|, i requires 0 <= i < |list| => if list[i].officerId == officerId then Merge(list[i], u) else list[i]);
    if FindAssignment(list, officerId).None? then merged + [Merge(DefaultAssignment(officerId), u)] else merged
  }

  /** No two entries of the list belong to the same officer. */
  predicate UniqueOfficers(list: seq<OfficerAssignment>) {
    forall i, j :: 0 <= i < j < |list| ==> list[i].officerId != list[j].officerId
  }

  /** An update keeps one entry per officer when there was at most one before. */
  lemma UpdateKeepsUnique(list: seq<OfficerAssignment>, officerId: Id, u: AssignmentUpdate)
    requires UniqueOfficers(list)
    ensures UniqueOfficers(UpdateAssignment(list, officerId, u))
  {
    var r := UpdateAssignment(list, officerId, u);
    assert forall i :: 0 <= i < |list| ==> r[i].officerId == list[i].officerId;
    if !HasEntry(list, officerId) {
      forall i | 0 <= i < |list| ensures r[i].officerId != r[|list|].officerId {
        assert list[i] in list;
      }
    }
  }

  /** The entry found first is at index `i` when `i` is the first index of that officer. */
  lemma FindsFirst(list: seq<OfficerAssignment>, officerId: Id, i: int)
    requires 0 <= i < |list| && list[i].officerId == officerId
    requires forall j :: 0 <= j < i ==> list[j].officerId != officerId
    ensures FindAssignment(list, officerId) == Some(list[i])
  {
    assert list[i] in list;
    var r := FindAssignment(list, officerId);
    var k :| 0 <= k < |list| && list[k] == r.value && list[k].officerId == officerId
             && forall j :: 0 <= j < k ==> list[j].officerId != officerId;
    assert !(k < i) && !(i < k);
  }

  /** After an update, the updated officer's row shows its old entry (or the default) with the update applied. */
  lemma LookupUpdated(list: seq<OfficerAssignment>, officerId: Id, u: AssignmentUpdate)
    ensures AssignmentForOfficer(UpdateAssignment(list, officerId, u), officerId) == Merge(AssignmentForOfficer(list, officerId), u)
  {
    var r := UpdateAssignment(list, officerId, u);
    if HasEntry(list, officerId) {
      var a := AssignmentForOfficer(list, officerId);
      var i :| 0 <= i < |list| && list[i] == a && forall j :: 0 <= j < i ==> list[j].officerId != officerId;
      forall j | 0 <= j < i ensures r[j].officerId != officerId {
        assert r[j] == list[j];
      }
      assert i < |r|;
      assert list[i].officerId == officerId;
      assert r[i] == Merge(list[i], u);
      FindsFirst(r, officerId, i);
    } else {
      forall j | 0 <= j < |list| ensures r[j].officerId != officerId {
        assert list[j] in list;
      }
      FindsFirst(r, officerId, |list|);
    }
  }

  /** After an update of one officer, every other officer's row shows what it showed before. */
  lemma LookupOthers(list: seq<OfficerAssignment>, officerId: Id, u: AssignmentUpdate, other: Id)
    requires other != officerId
    ensures AssignmentForOfficer(UpdateAssignment(list, officerId, u), other) == AssignmentForOfficer(list, other)
  {
    var r := UpdateAssignment(list, officerId, u);
    if HasEntry(list, other) {
      var a := AssignmentForOfficer(list, other);
      var k :| 0 <= k < |list| && list[k] == a && forall j :: 0 <= j < k ==> list[j].officerId != other;
      forall j | 0 <= j < k ensures r[j].officerId != other {
        assert r[j].officerId == list[j].officerId;
      }
      assert k < |r|;
      assert list[k].officerId == other;
      assert r[k] == list[k];
      FindsFirst(r, other, k);
    } else {
      forall a | a in r ensures a.officerId != other {
        var i :| 0 <= i < |r| && r[i] == a;
        if i < |list| {
          assert list[i] in list;
          assert r[i].officerId == list[i].officerId;
        }
      }
    }
  }

  /** Choosing "No Beat" stores `''`, which the row shows as the `'Select Beat'` placeholder. */
  lemma NoBeatShowsPlaceholder(list: seq<OfficerAssignment>, officerId: Id, beats: seq<Beat>)
    ensures var r := UpdateAssignment(list, officerId, SetBeat(""));
            BeatLabel(beats, AssignmentForOfficer(r, officerId).beatId, SelectBeat) == SelectBeat
  {
    LookupUpdated(list, officerId, SetBeat(""));
  }

  /** Choosing "No Car" stores `''`, which the row shows as the `'Select Car'` placeholder. */
  lemma NoCarShowsPlaceholder(list: seq<OfficerAssignment>, officerId: Id, cars: seq<PatrolCar>)
    ensures var r := UpdateAssignment(list, officerId, SetCar(""));
            CarLabel(cars, AssignmentForOfficer(r, officerId).carId, SelectCar) == SelectCar
  {
    LookupUpdated(list, officerId, SetCar(""));
  }

  /** JavaScript truthiness of the selected officer id: set and non-empty. */
  predicate Selected(selection: Option<Id>) {
    selection.Some? && selection.value != ""
  }

  /** The picker state of the component. */
  class RosterEditor {
    var selectedOfficer: Option<Id>
    var showBeatModal: bool
    var showCarModal: bool

    constructor ()
      ensures selectedOfficer.None? && !showBeatModal && !showCarModal
    {
      selectedOfficer := None;
      showBeatModal := false;
      showCarModal := false;
    }

    /** `openBeatModal`: remember the officer and open the beat picker. */
    method OpenBeatModal(officerId: Id)
      modifies this
      ensures selectedOfficer == Some(officerId) && showBeatModal && showCarModal == old(showCarModal)
    {
      selectedOfficer := Some(officerId);
      showBeatModal := true;
    }

    /** `openCarModal`: remember the officer and open the car picker. */
    method OpenCarModal(officerId: Id)
      modifies this
      ensures selectedOfficer == Some(officerId) && showCarModal && showBeatModal == old(showBeatModal)
    {
      selectedOfficer := Some(officerId);
      showCarModal := true;
    }

    /**
     * `handleBeatSelect`: with an officer selected, the list with that officer's beat set is
     * handed on; without one nothing is. Either way the beat picker closes and the selection
     * is cleared.
     */
    method HandleBeatSelect(list: seq<OfficerAssignment>, beatId: Id) returns (changed: Option<seq<OfficerAssignment>>)
      modifies this
      ensures Selected(old(selectedOfficer)) ==> changed == Some(UpdateAssignment(list, old(selectedOfficer).value, SetBeat(beatId)))
      ensures !Selected(old(selectedOfficer)) ==> changed.None?
      ensures selectedOfficer.None? && !showBeatModal && showCarModal == old(showCarModal)
    {
      changed := None;
      if Selected(selectedOfficer) {
        changed := Some(UpdateAssignment(list, selectedOfficer.value, SetBeat(beatId)));
      }
      showBeatModal := false;
      selectedOfficer := None;
    }

    /** `handleCarSelect`: as `handleBeatSelect`, for the car and the car picker. */
    method HandleCarSelect(list: seq<OfficerAssignment>, carId: Id) returns (changed: Option<seq<OfficerAssignment>>)
      modifies this
      ensures Selected(old(selectedOfficer)) ==> changed == Some(UpdateAssignment(list, old(selectedOfficer).value, SetCar(carId)))
      ensures !Selected(old(selectedOfficer)) ==> changed.None?
      ensures selectedOfficer.None? && !showCarModal && showBeatModal == old(showBeatModal)
    {
      changed := None;
      if Selected(selectedOfficer) {
        changed := Some(UpdateAssignment(list, selectedOfficer.value, SetCar(carId)));
      }
      showCarModal := false;
      selectedOfficer := None;
    }

    /** Closing the beat picker without choosing: only the picker closes; the selection stays. */
    method DismissBeatModal()
      modifies this
      ensures !showBeatModal && showCarModal == old(showCarModal) && selectedOfficer == old(selectedOfficer)
    {
      showBeatModal := false;
    }

    /** Closing the car picker without choosing: only the picker closes; the selection stays. */
    method DismissCarModal()
      modifies this
      ensures !showCarModal && showBeatModal == old(showBeatModal) && selectedOfficer == old(selectedOfficer)
    {
      showCarModal := false;
    }
  }
}
