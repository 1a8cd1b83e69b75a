/**
 * The mapping store: action id to the ordered list of its bindings, and the
 * updates the application applies to it (add with duplicate check, remove,
 * field update, and reconciliation against the live device list).
 */
module MappingStore {
  import opened Types
  import opened Detection

  /** The list of an action, or the empty list when it has none (`prev[actionId] || []`). */
  function Lookup(state: MappingState, actionId: string): seq<InputMapping>
  {
    if actionId in state then state[actionId] else []
  }

  /**
   * The duplicate test: same device GUID, kind, slot and direction, each
   * compared with `===` (so a NaN slot equals nothing).
   */
  predicate SameInput(a: InputMapping, b: InputMapping)
  {
    a.deviceGuid == b.deviceGuid && a.kind == b.kind && StrictEquals(a.index, b.index) && a.direction == b.direction
  }

  predicate HasSameInput(list: seq<InputMapping>, m: InputMapping)
  {
    exists j :: 0 <= j < |list| && SameInput(list[j], m)
  }

  /** No list holds two bindings of the same input. */
  predicate Deduplicated(state: MappingState)
  {
    forall k :: k in state ==> NoDuplicateInputs(state[k])
  }

  /** No action is kept with an empty list. */
  predicate NoEmptyLists(state: MappingState)
  {
    forall k :: k in state ==> state[k] != []
  }

  // ----- Adding a detected binding -----

  /** The calibration a new binding of `actionId` starts with. */
  function DefaultCalibration(actionId: string): (c: Calibration)
    ensures c == BiDirLower <==> actionId == "Steer Left"
    ensures c == BiDirUpper <==> actionId == "Steer Right"
    ensures c == UniDirPos <==> actionId != "Steer Left" && actionId != "Steer Right"
  {
    if actionId == "Steer Left" then BiDirLower
    else if actionId == "Steer Right" then BiDirUpper
    else UniDirPos
  }

  /** The binding built from a detection on `device`, with the default calibration, deadzone and saturation. */
  function NewBinding(actionId: string, device: DetectedDevice, hit: Detected): InputMapping
  {
    InputMapping(device.guid, device.index, device.name, hit.kind, Num(hit.index), hit.direction,
                 Some(DefaultCalibration(actionId)), Some(0.0), Some(1.0))
  }

  /**
   * Appends `m` to the action's list unless the list already binds the same
   * input, in which case the state is returned as it was.
   */
  function AddBinding(state: MappingState, actionId: string, m: InputMapping): (r: MappingState)
    ensures r - {actionId} == state - {actionId}
    ensures actionId in r && Lookup(state, actionId) <= r[actionId]
    ensures r == state <==> HasSameInput(Lookup(state, actionId), m)
    ensures r != state ==> r[actionId] == Lookup(state, actionId) + [m]
  {
    var current := Lookup(state, actionId);
    if exists j :: 0 <= j < |current| && SameInput(current[j], m) then state
    else state[actionId := current + [m]]
  }

  /** Why binding a detection can fail after the detection itself succeeded. */
  datatype BindError = DeviceDisconnected

  /** `devices.find(d => d.index === deviceIndex)`. */
  function FindByIndex(devices: seq<DetectedDevice>, deviceIndex: nat): (r: Option<DetectedDevice>)
    ensures r.Some? ==> r.value in devices && r.value.index == deviceIndex
    ensures r.Some? ==> exists i :: 0 <= i < |devices| && devices[i] == r.value &&
                          forall k :: 0 <= k < i ==> devices[k].index != deviceIndex
    ensures r.None? ==> forall d :: d in devices ==> d.index != deviceIndex
  {
    if devices == [] then None
    else if devices[0].index == deviceIndex then Some(devices[0])
    else
      var r := FindByIndex(devices[1..], deviceIndex);
      if r.Some? then FirstMatchShifted(devices, deviceIndex, r.value); r else r
  }

  /** A first match in the tail, behind a head that does not match, is the first match of the list. */
  lemma FirstMatchShifted(devices: seq<DetectedDevice>, deviceIndex: nat, d: DetectedDevice)
    requires devices != [] && devices[0].index != deviceIndex
    requires exists i :: 0 <= i < |devices[1..]| && devices[1..][i] == d &&
                         forall k :: 0 <= k < i ==> devices[1..][k].index != deviceIndex
    ensures exists i :: 0 <= i < |devices| && devices[i] == d &&
                        forall k :: 0 <= k < i ==> devices[k].index != deviceIndex
  {
    var i :| 0 <= i < |devices[1..]| && devices[1..][i] == d &&
             forall k :: 0 <= k < i ==> devices[1..][k].index != deviceIndex;
    assert devices[i + 1] == d;
    forall k | 0 <= k < i + 1 ensures devices[k].index != deviceIndex {
      if k > 0 {
        assert devices[k] == devices[1..][k - 1];
      }
    }
  }

  /**
   * What `handleBindClick` does with a detection: look the device up by its
   * index among the devices known when binding started, and add the new
   * binding. When that device is gone the store is left as it was.
   */
  function CompleteBinding(state: MappingState, actionId: string, devices: seq<DetectedDevice>, hit: Detected)
    : (r: Result<MappingState, BindError>)
    ensures r.Err? <==> forall d :: d in devices ==> d.index != hit.deviceIndex
    ensures r.Ok? ==> r.value - {actionId} == state - {actionId}
    ensures r.Ok? ==> actionId in r.value
    ensures r.Ok? ==> exists d :: d in devices && d.index == hit.deviceIndex && HasSameInput(r.value[actionId], NewBinding(actionId, d, hit))
    ensures r.Ok? ==>
              && FindByIndex(devices, hit.deviceIndex).Some?
              && r.value == AddBinding(state, actionId, NewBinding(actionId, FindByIndex(devices, hit.deviceIndex).value, hit))
    ensures r.Ok? ==> Lookup(state, actionId) <= r.value[actionId]
    ensures r.Ok? ==> (r.value == state <==>
              HasSameInput(Lookup(state, actionId), NewBinding(actionId, FindByIndex(devices, hit.deviceIndex).value, hit)))
    ensures r.Ok? && r.value != state ==>
              && |r.value[actionId]| == |Lookup(state, actionId)| + 1
              && var m := r.value[actionId][|r.value[actionId]| - 1];
                 && m.kind == hit.kind && m.index == Num(hit.index) && m.direction == hit.direction
                 && m.deviceIndex == hit.deviceIndex
                 && m.deviceGuid == FindByIndex(devices, hit.deviceIndex).value.guid
                 && m.deviceName == FindByIndex(devices, hit.deviceIndex).value.name
                 && m.calibration == Some(DefaultCalibration(actionId))
                 && m.deadzone == Some(0.0) && m.saturation == Some(1.0)
  {
    match FindByIndex(devices, hit.deviceIndex)
    case None => Err(DeviceDisconnected)
    case Some(device) =>
      var m := NewBinding(actionId, device, hit);
      var r := AddBinding(state, actionId, m);
      assert SameInput(r[actionId][|r[actionId]| - 1], m) || HasSameInput(Lookup(state, actionId), m);
      Ok(r)
  }

  /** Binding the same input twice leaves one binding: adding is idempotent. */
  lemma AddBindingIdempotent(state: MappingState, actionId: string, m: InputMapping)
    requires m.index.Num?
    ensures AddBinding(AddBinding(state, actionId, m), actionId, m) == AddBinding(state, actionId, m)
  {
    var once := AddBinding(state, actionId, m);
    if once != state {
      assert once[actionId][|once[actionId]| - 1] == m;
      assert SameInput(m, m);
      assert HasSameInput(Lookup(once, actionId), m);
    }
  }

  /** Adding keeps every list free of duplicates. */
  lemma AddBindingKeepsDeduplicated(state: MappingState, actionId: string, m: InputMapping)
    requires Deduplicated(state)
    ensures Deduplicated(AddBinding(state, actionId, m))
  {
    var r := AddBinding(state, actionId, m);
    if r != state {
      var l := r[actionId];
      forall k, i, j | k in r && 0 <= i < j < |r[k]| ensures !SameInput(r[k][i], r[k][j]) {
        if k != actionId {
          assert r[k] == state[k];
        } else if j == |l| - 1 {
          assert l[j] == m;
          assert l[i] == Lookup(state, actionId)[i];
        } else {
          assert l[i] == state[k][i] && l[j] == state[k][j];
        }
      }
    }
  }

  /** Adding never leaves an empty list behind. */
  lemma AddBindingKeepsNonEmpty(state: MappingState, actionId: string, m: InputMapping)
    requires NoEmptyLists(state)
    ensures NoEmptyLists(AddBinding(state, actionId, m))
  {
    var r := AddBinding(state, actionId, m);
    forall k | k in r ensures r[k] != [] {
      if k != actionId {
        assert (r - {actionId})[k] == (state - {actionId})[k];
      }
    }
  }

  // ----- Removing by position -----

  /** `list.filter((_, i) => i !== pos)`. */
  function Without(list: seq<InputMapping>, pos: int): seq<InputMapping>
    decreases |list|
  {
    if list == [] then []
    else Without(list[..|list| - 1], pos) + (if |list| - 1 == pos then [] else [list[|list| - 1]])
  }

  /** The filter drops exactly the entry at `pos`, when there is one, and keeps the rest in order. */
  lemma {:induction false} WithoutCutsOne(list: seq<InputMapping>, pos: int)
    ensures Without(list, pos) == if 0 <= pos < |list| then list[..pos] + list[pos + 1..] else list
    decreases |list|
  {
    if list != [] {
      var init := list[..|list| - 1];
      WithoutCutsOne(init, pos);
      if pos == |list| - 1 {
        assert list[..pos] + list[pos + 1..] == init;
      } else if 0 <= pos < |list| - 1 {
        assert init[..pos] + init[pos + 1..] + [list[|list| - 1]] == list[..pos] + list[pos + 1..];
      } else {
        assert init + [list[|list| - 1]] == list;
      }
    }
  }

  /**
   * `removeMapping`: drops the entry at `pos` from the action's list and
   * deletes the action when nothing is left. An unknown action, or a
   * position past the list, changes nothing else.
   */
  function RemoveBinding(state: MappingState, actionId: string, pos: int): (r: MappingState)
    ensures r - {actionId} == state - {actionId}
    ensures actionId !in state ==> r == state
    ensures actionId in state ==>
              var list := state[actionId];
              var rest := if 0 <= pos < |list| then list[..pos] + list[pos + 1..] else list;
              && (rest == [] ==> actionId !in r)
              && (rest != [] ==> actionId in r && r[actionId] == rest)
  {
    if actionId !in state then state
    else
      var updated := Without(state[actionId], pos);
      WithoutCutsOne(state[actionId], pos);
      if updated == [] then state - {actionId} else state[actionId := updated]
  }

  /** Removing keeps the store free of empty lists and of duplicates. */
  lemma RemoveBindingKeepsInvariants(state: MappingState, actionId: string, pos: int)
    requires NoEmptyLists(state) && Deduplicated(state)
    ensures NoEmptyLists(RemoveBinding(state, actionId, pos))
    ensures Deduplicated(RemoveBinding(state, actionId, pos))
  {
    var r := RemoveBinding(state, actionId, pos);
    forall k | k in r ensures r[k] != [] && NoDuplicateInputs(r[k]) {
      assert NoDuplicateInputs(state[k]);
      if k != actionId {
        assert (r - {actionId})[k] == (state - {actionId})[k];
      } else if 0 <= pos < |state[k]| {
        CutKeepsNoDuplicateInputs(state[k], pos);
      }
    }
  }

  predicate NoDuplicateInputs(list: seq<InputMapping>)
  {
    forall i, j :: 0 <= i < j < |list| ==> !SameInput(list[i], list[j])
  }

  lemma CutKeepsNoDuplicateInputs(list: seq<InputMapping>, pos: nat)
    requires pos < |list| && NoDuplicateInputs(list)
    ensures NoDuplicateInputs(list[..pos] + list[pos + 1..])
  {
    var l := list[..pos] + list[pos + 1..];
    forall i, j | 0 <= i < j < |l| ensures !SameInput(l[i], l[j]) {
      var i' := if i < pos then i else i + 1;
      var j' := if j < pos then j else j + 1;
      assert l[i] == list[i'] && l[j] == list[j'];
    }
  }

  /** Removing the binding just appended undoes the addition. */
  lemma RemoveUndoesAdd(state: MappingState, actionId: string, m: InputMapping)
    requires NoEmptyLists(state)
    requires !HasSameInput(Lookup(state, actionId), m)
    ensures RemoveBinding(AddBinding(state, actionId, m), actionId, |Lookup(state, actionId)|) == state
  {
    var added := AddBinding(state, actionId, m);
    var n := |Lookup(state, actionId)|;
    var r := RemoveBinding(added, actionId, n);
    assert added[actionId][..n] + added[actionId][n + 1..] == Lookup(state, actionId);
    if actionId in state {
      assert r[actionId] == state[actionId];
      assert r == state;
    } else {
      assert r == state;
    }
  }

  // ----- Updating fields of one binding -----

  /**
   * A `Partial<InputMapping>`: `None` where the update does not mention a
   * field; `Some(v)` where it does (for an optional field `v` may itself be
   * `None`, an explicit `undefined`).
   */
  datatype Patch = Patch(
    deviceGuid: Option<string>,
    deviceIndex: Option<int>,
    deviceName: Option<string>,
    kind: Option<InputType>,
    index: Option<Index>,
    direction: Option<Option<Direction>>,
    calibration: Option<Option<Calibration>>,
    deadzone: Option<Option<real>>,
    saturation: Option<Option<real>>)

  function Pick<T>(update: Option<T>, current: T): T
  {
    if update.Some? then update.value else current
  }

  /** `{ ...m, ...updates }`. */
  function Merge(m: InputMapping, p: Patch): InputMapping
  {
    InputMapping(
      Pick(p.deviceGuid, m.deviceGuid), Pick(p.deviceIndex, m.deviceIndex), Pick(p.deviceName, m.deviceName),
      Pick(p.kind, m.kind), Pick(p.index, m.index), Pick(p.direction, m.direction),
      Pick(p.calibration, m.calibration), Pick(p.deadzone, m.deadzone), Pick(p.saturation, m.saturation))
  }

  /** A patch that leaves the duplicate key alone (the calibration, deadzone and saturation edits). */
  predicate KeepsInput(p: Patch)
  {
    p.deviceGuid.None? && p.kind.None? && p.index.None? && p.direction.None?
  }

  /** The patch that mentions no field. */
  const NoChange: Patch := Patch(None, None, None, None, None, None, None, None, None)

  /**
   * `updateMapping`: merges the patch into the entry at `pos` of the
   * action's list; every other entry, the list's length and every other
   * action stay as they were. An unknown action is left out.
   */
  function UpdateBinding(state: MappingState, actionId: string, pos: int, p: Patch): (r: MappingState)
    ensures r.Keys == state.Keys
    ensures r - {actionId} == state - {actionId}
    ensures actionId in state ==>
              && |r[actionId]| == |state[actionId]|
              && (forall j :: 0 <= j < |state[actionId]| && j != pos ==> r[actionId][j] == state[actionId][j])
              && (0 <= pos < |state[actionId]| ==> r[actionId][pos] == Merge(state[actionId][pos], p))
  {
    if actionId !in state then state
    else
      var current := state[actionId];
      var updated := seq(|current|, i requires 0 <= i < |current| => if i == pos then Merge(current[i], p) else current[i]);
      state[actionId := updated]
  }

  /** Merging is idempotent, and the empty patch changes nothing. */
  lemma MergeLaws(m: InputMapping, p: Patch)
    ensures Merge(Merge(m, p), p) == Merge(m, p)
    ensures Merge(m, NoChange) == m
  {
  }

  /**
   * An edit of calibration, deadzone or saturation keeps the store free of
   * empty lists and of duplicates.
   */
  lemma UpdateBindingKeepsInvariants(state: MappingState, actionId: string, pos: int, p: Patch)
    requires NoEmptyLists(state) && Deduplicated(state)
    requires KeepsInput(p)
    ensures NoEmptyLists(UpdateBinding(state, actionId, pos, p))
    ensures Deduplicated(UpdateBinding(state, actionId, pos, p))
  {
    var r := UpdateBinding(state, actionId, pos, p);
    forall k | k in r ensures r[k] != [] {
      if k != actionId {
        assert (r - {actionId})[k] == (state - {actionId})[k];
      }
    }
    forall k, i, j | k in r && 0 <= i < j < |r[k]| ensures !SameInput(r[k][i], r[k][j]) {
      if k != actionId {
        assert (r - {actionId})[k] == (state - {actionId})[k];
      } else {
        assert SameInput(r[k][i], r[k][j]) == SameInput(state[k][i], state[k][j]);
      }
    }
  }

  // ----- Reconciliation against the live devices -----

  /** `devices.find(d => d.guid === guid)`: the first live device with that GUID. */
  function FindByGuid(devices: seq<DetectedDevice>, guid: string): (r: Option<DetectedDevice>)
    ensures r.Some? ==> r.value.guid == guid &&
                        exists i :: 0 <= i < |devices| && devices[i] == r.value
                                    && forall j :: 0 <= j < i ==> devices[j].guid != guid
    ensures r.None? ==> forall i :: 0 <= i < |devices| ==> devices[i].guid != guid
  {
    if devices == [] then None
    else if devices[0].guid == guid then Some(devices[0])
    else FindByGuid(devices[1..], guid)
  }

  /** One binding with its cached device name and index taken from the first live device of its GUID. */
  function Refresh(m: InputMapping, devices: seq<DetectedDevice>): InputMapping
  {
    match FindByGuid(devices, m.deviceGuid)
    case None => m
    case Some(d) => m.(deviceName := d.name, deviceIndex := d.index)
  }

  function RefreshAll(list: seq<InputMapping>, devices: seq<DetectedDevice>): seq<InputMapping>
  {
    seq(|list|, i requires 0 <= i < |list| => Refresh(list[i], devices))
  }

  /** The state reconciliation produces; with no live device it is the state itself. */
  function Reconciled(state: MappingState, devices: seq<DetectedDevice>): MappingState
  {
    if devices == [] then state else map k | k in state :: RefreshAll(state[k], devices)
  }

  /**
   * The reconcile effect: every binding whose GUID is live takes the name
   * and index of the first live device with that GUID; `changed` reports
   * whether any binding's cached fields differed.
   */
  method Reconcile(prev: MappingState, devices: seq<DetectedDevice>) returns (next: MappingState, changed: bool)
    ensures next == Reconciled(prev, devices)
    ensures changed <==> next != prev
  {
    if |devices| == 0 {
      return prev, false;
    }
    changed := false;
    next := prev;
    var todo := prev.Keys;
    while todo != {}
      invariant todo <= prev.Keys && next.Keys == prev.Keys
      invariant forall k :: k in todo ==> next[k] == prev[k]
      invariant forall k :: k in prev && k !in todo ==> next[k] == RefreshAll(prev[k], devices)
      invariant changed <==> exists k :: k in prev && k !in todo && RefreshAll(prev[k], devices) != prev[k]
      decreases todo
    {
      var actionId :| actionId in todo;
      var updated, listChanged := RefreshList(prev[actionId], devices);
      changed := changed || listChanged;
      next := next[actionId := updated];
      todo := todo - {actionId};
    }
    if !changed {
      assert next == prev;
    }
  }

  /** The `map` over one action's list, noting whether any binding's cached fields changed. */
  method RefreshList(list: seq<InputMapping>, devices: seq<DetectedDevice>) returns (updated: seq<InputMapping>, changed: bool)
    ensures updated == RefreshAll(list, devices)
    ensures changed <==> updated != list
  {
    updated := [];
    changed := false;
    for i := 0 to |list|
      invariant |updated| == i
      invariant forall j :: 0 <= j < i ==> updated[j] == Refresh(list[j], devices)
      invariant changed <==> exists j :: 0 <= j < i && Refresh(list[j], devices) != list[j]
    {
      var m := list[i];
      var found := FindByGuid(devices, m.deviceGuid);
      if found.Some? && (m.deviceName != found.value.name || m.deviceIndex != found.value.index) {
        changed := true;
        updated := updated + [m.(deviceName := found.value.name, deviceIndex := found.value.index)];
      } else {
        updated := updated + [m];
      }
    }
    if !changed {
      assert updated == list;
    }
  }

  /** Reconciling twice is reconciling once. */
  lemma ReconcileIdempotent(state: MappingState, devices: seq<DetectedDevice>)
    ensures Reconciled(Reconciled(state, devices), devices) == Reconciled(state, devices)
  {
    if devices != [] {
      var once := Reconciled(state, devices);
      forall k | k in once ensures RefreshAll(once[k], devices) == once[k] {
        forall i | 0 <= i < |once[k]| ensures Refresh(once[k][i], devices) == once[k][i] {
          assert once[k][i] == Refresh(state[k][i], devices);
        }
      }
    }
  }

  /**
   * Reconciliation loses and invents nothing: the same actions, the same
   * list lengths, and every binding keeps all its fields except the cached
   * device name and index, which are those of the first live device with
   * its GUID when there is one and are untouched otherwise.
   */
  lemma ReconcileKeepsBindings(state: MappingState, devices: seq<DetectedDevice>, k: string, i: nat)
    requires k in state && i < |state[k]|
    ensures var r := Reconciled(state, devices);
            && r.Keys == state.Keys && |r[k]| == |state[k]|
            && var (m, m') := (state[k][i], r[k][i]);
               && m'.(deviceName := m.deviceName, deviceIndex := m.deviceIndex) == m
               && (devices == [] || FindByGuid(devices, m.deviceGuid).None? ==> m' == m)
               && (devices != [] && FindByGuid(devices, m.deviceGuid).Some? ==>
                     m'.deviceName == FindByGuid(devices, m.deviceGuid).value.name
                     && m'.deviceIndex == FindByGuid(devices, m.deviceGuid).value.index)
  {
  }

  /** Reconciliation keeps the store free of empty lists and of duplicates. */
  lemma ReconcileKeepsInvariants(state: MappingState, devices: seq<DetectedDevice>)
    requires NoEmptyLists(state) && Deduplicated(state)
    ensures NoEmptyLists(Reconciled(state, devices)) && Deduplicated(Reconciled(state, devices))
  {
    var r := Reconciled(state, devices);
    forall k, i, j | k in r && 0 <= i < j < |r[k]| ensures !SameInput(r[k][i], r[k][j]) {
      assert SameInput(r[k][i], r[k][j]) == SameInput(state[k][i], state[k][j]);
    }
  }
}
