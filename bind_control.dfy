/**
 * Ownership of the single abort handle of a detection. Clicking bind on an
 * action aborts whatever detection is running and arms a new one; clicking
 * the action that is listening only aborts; Escape aborts; a detection that
 * ends gives the handle back only if it still owns it. Handles are numbered
 * in the order they are created. A handle stands for one detection; which
 * `Detection.Session` it guards is not modelled here.
 */
module BindControl {
  import opened Types

  /** The positions of the devices whose GUID is selected, ascending. */
  function SelectedPositions(devices: seq<DetectedDevice>, selected: set<string>): (r: seq<nat>)
    ensures forall k :: 0 <= k < |r| ==> r[k] < |devices| && devices[r[k]].guid in selected
    ensures forall k1, k2 :: 0 <= k1 < k2 < |r| ==> r[k1] < r[k2]
    ensures forall p :: 0 <= p < |devices| && devices[p].guid in selected ==> p in r
    decreases |devices|
  {
    if devices == [] then []
    else
      var n := |devices| - 1;
      var prev := SelectedPositions(devices[..n], selected);
      if devices[n].guid in selected then prev + [n] else prev
  }

  /**
   * `devices.filter(d => selected.has(d.guid)).map(d => d.index)`: position
   * by position, the index of each selected device in the list's order, a
   * repeated index kept as often as it occurs.
   */
  function ActiveIndices(devices: seq<DetectedDevice>, selected: set<string>): (r: seq<nat>)
    ensures |r| <= |devices|
    ensures forall i :: i in r <==> exists d :: d in devices && d.guid in selected && d.index == i
    ensures r == [] <==> forall d :: d in devices ==> d.guid !in selected
    decreases |devices|
  {
    if devices == [] then []
    else
      var n := |devices| - 1;
      var rest := ActiveIndices(devices[..n], selected);
      assert forall d :: d in devices ==> d == devices[n] || d in devices[..n];
      assert forall d :: d in devices[..n] ==> d in devices;
      if devices[n].guid in selected then rest + [devices[n].index] else rest
  }

  /** The filter keeps the list's order and multiplicity: entry `k` is the index of the `k`-th selected device. */
  lemma {:induction false} ActiveIndicesByPosition(devices: seq<DetectedDevice>, selected: set<string>)
    ensures |ActiveIndices(devices, selected)| == |SelectedPositions(devices, selected)|
    ensures forall k :: 0 <= k < |ActiveIndices(devices, selected)| ==>
              ActiveIndices(devices, selected)[k] == devices[SelectedPositions(devices, selected)[k]].index
    decreases |devices|
  {
    if devices != [] {
      var n := |devices| - 1;
      ActiveIndicesByPosition(devices[..n], selected);
      SelectedPositionsBelow(devices[..n], selected);
      UnfoldLast(devices, selected);
      PositionStep(devices, selected, SelectedPositions(devices[..n], selected), ActiveIndices(devices[..n], selected));
    }
  }

  lemma SelectedPositionsBelow(devices: seq<DetectedDevice>, selected: set<string>)
    ensures forall k :: 0 <= k < |SelectedPositions(devices, selected)| ==> SelectedPositions(devices, selected)[k] < |devices|
  {
  }

  /** Both filters, one device longer. */
  lemma UnfoldLast(devices: seq<DetectedDevice>, selected: set<string>)
    requires devices != []
    ensures var n := |devices| - 1;
            SelectedPositions(devices, selected) ==
              if devices[n].guid in selected then SelectedPositions(devices[..n], selected) + [n]
              else SelectedPositions(devices[..n], selected)
    ensures var n := |devices| - 1;
            ActiveIndices(devices, selected) ==
              if devices[n].guid in selected then ActiveIndices(devices[..n], selected) + [devices[n].index]
              else ActiveIndices(devices[..n], selected)
  {
  }

  /** One more device keeps the index list aligned with the position list. */
  lemma PositionStep(devices: seq<DetectedDevice>, selected: set<string>, pos: seq<nat>, prev: seq<nat>)
    requires devices != [] && |prev| == |pos|
    requires forall k :: 0 <= k < |pos| ==> pos[k] < |devices| - 1
    requires forall k :: 0 <= k < |prev| ==> prev[k] == devices[..|devices| - 1][pos[k]].index
    ensures var n := |devices| - 1;
            var pos' := if devices[n].guid in selected then pos + [n] else pos;
            var prev' := if devices[n].guid in selected then prev + [devices[n].index] else prev;
            |prev'| == |pos'| && forall k :: 0 <= k < |prev'| ==> prev'[k] == devices[pos'[k]].index
  {
    var n := |devices| - 1;
    forall k | 0 <= k < |prev| ensures prev[k] == devices[pos[k]].index {
      assert devices[..n][pos[k]] == devices[pos[k]];
    }
  }

  /** The outcome of a bind click. */
  datatype ClickOutcome =
    | StoppedListening   // the action was listening: its detection is aborted, nothing new starts
    | NoDeviceSelected   // no live device is selected: nothing is armed
    | Started(handle: nat, allowed: seq<nat>)

  class BindController {
    /** The action whose binding is being detected (`listeningForAction`). */
    var listening: Option<string>
    /** The handle in the abort slot (`abortControllerRef.current`). */
    var handle: Option<nat>
    /** How many handles have been created; they are numbered from 0. */
    var created: nat
    /** The handles that have been aborted. */
    var aborted: set<nat>
    /** The handles whose detection has ended. */
    var ended: set<nat>

    /** A handle whose detection still runs and has not been aborted. */
    ghost predicate Live(h: nat)
      reads this
    {
      h < created && h !in aborted && h !in ended
    }

    /** At most one detection is live, and if there is one its handle is in the slot. */
    ghost predicate Valid()
      reads this
    {
      && (handle.Some? ==> handle.value < created)
      && (forall h :: h in aborted + ended ==> h < created)
      && (forall h: nat :: Live(h) ==> handle == Some(h))
    }

    constructor()
      ensures Valid()
      ensures listening == None && handle == None && created == 0
      ensures aborted == {} && ended == {}
    {
      listening := None;
      handle := None;
      created := 0;
      aborted := {};
      ended := {};
    }

    /** Aborts the handle in the slot, if there is one; the slot keeps it. */
    method AbortCurrent()
      modifies this
      requires Valid()
      ensures Valid()
      ensures forall h: nat :: !Live(h)
      ensures aborted == old(aborted) + (if old(handle).Some? then {old(handle).value} else {})
      ensures listening == old(listening) && handle == old(handle)
      ensures created == old(created) && ended == old(ended)
    {
      if handle.Some? {
        aborted := aborted + {handle.value};
      }
    }

    /**
     * `handleBindClick` up to the point where the detection starts: a click
     * on the listening action only aborts; any other click aborts the
     * running detection, then arms a new one over the selected live
     * devices, or nothing when none is selected.
     */
    method Click(actionId: string, devices: seq<DetectedDevice>, selected: set<string>) returns (outcome: ClickOutcome)
      modifies this
      requires Valid()
      ensures Valid()
      ensures ended == old(ended)
      ensures aborted == old(aborted) + (if old(handle).Some? then {old(handle).value} else {})
      ensures old(listening) == Some(actionId) ==>
                outcome == StoppedListening && listening == old(listening) && handle == old(handle) && created == old(created)
      ensures old(listening) != Some(actionId) && ActiveIndices(devices, selected) == [] ==>
                outcome == NoDeviceSelected && listening == old(listening) && handle == old(handle) && created == old(created)
      ensures old(listening) != Some(actionId) && ActiveIndices(devices, selected) != [] ==>
                && outcome == Started(old(created), ActiveIndices(devices, selected))
                && listening == Some(actionId) && handle == Some(old(created)) && created == old(created) + 1
                && Live(old(created))
      ensures outcome.Started? ==> forall h: nat :: Live(h) <==> h == outcome.handle
      ensures !outcome.Started? ==> forall h: nat :: !Live(h)
    {
      if listening == Some(actionId) {
        AbortCurrent();
        return StoppedListening;
      }
      AbortCurrent();
      var active := ActiveIndices(devices, selected);
      if active == [] {
        return NoDeviceSelected;
      }
      listening := Some(actionId);
      var h := created;
      created := created + 1;
      handle := Some(h);
      return Started(h, active);
    }

    /** The Escape key: while an action is listening, the handle in the slot is aborted. */
    method Escape()
      modifies this
      requires Valid()
      ensures Valid()
      ensures old(listening).Some? ==> forall h: nat :: !Live(h)
      ensures aborted == old(aborted) + (if old(listening).Some? && old(handle).Some? then {old(handle).value} else {})
      ensures listening == old(listening) && handle == old(handle)
      ensures created == old(created) && ended == old(ended)
    {
      if listening.Some? {
        AbortCurrent();
      }
    }

    /**
     * The `finally` block of the detection for `actionId` guarded by handle
     * `h`: the action stops listening only if it still is the listening one,
     * and the slot is cleared only if it still holds `h`.
     */
    method Finish(actionId: string, h: nat)
      modifies this
      requires Valid()
      requires h < created && h !in ended
      ensures Valid()
      ensures listening == (if old(listening) == Some(actionId) then None else old(listening))
      ensures handle == (if old(handle) == Some(h) then None else old(handle))
      ensures ended == old(ended) + {h}
      ensures created == old(created) && aborted == old(aborted)
      ensures forall k: nat :: Live(k) <==> k != h && old(Live(k))
    {
      if listening == Some(actionId) {
        listening := None;
      }
      if handle == Some(h) {
        handle := None;
      }
      ended := ended + {h};
    }
  }
}
