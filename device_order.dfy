/**
 * The user's device ordering and selection: the persisted list of GUIDs,
 * the effect that appends newly seen GUIDs to it, moving one GUID up or
 * down, the ordered view of the live devices, and the selected-GUID set.
 */
module DeviceOrder {
  import opened Types
  import opened Lists

  predicate IsLiveGuid(devices: seq<DetectedDevice>, g: string)
  {
    exists d :: d in devices && d.guid == g
  }

  /** The position of the first live device with GUID `g`, or -1 when none has it. */
  function GuidIndex(devices: seq<DetectedDevice>, g: string): (r: int)
    ensures -1 <= r < |devices|
    ensures r >= 0 ==> devices[r].guid == g && forall j :: 0 <= j < r ==> devices[j].guid != g
    ensures r == -1 <==> forall j :: 0 <= j < |devices| ==> devices[j].guid != g
  {
    if devices == [] then -1
    else if devices[0].guid == g then 0
    else
      var r := GuidIndex(devices[1..], g);
      if r == -1 then -1 else r + 1
  }

  lemma GuidIndexAt(devices: seq<DetectedDevice>, g: string, i: nat)
    requires i < |devices| && devices[i].guid == g
    requires forall j :: 0 <= j < i ==> devices[j].guid != g
    ensures GuidIndex(devices, g) == i
  {
  }

  /** A GUID seen in a prefix of the device list is first seen at the same position in the whole list. */
  lemma GuidIndexOfPrefix(init: seq<DetectedDevice>, devices: seq<DetectedDevice>, g: string)
    requires init <= devices && GuidIndex(init, g) >= 0
    ensures GuidIndex(devices, g) == GuidIndex(init, g)
  {
    var i := GuidIndex(init, g);
    forall j | 0 <= j < i ensures devices[j].guid != g {
      assert devices[j] == init[j];
    }
    assert devices[i] == init[i];
    GuidIndexAt(devices, g, i);
  }

  // ----- Appending newly seen GUIDs -----

  /**
   * The order after visiting `devices` front to back and pushing each GUID
   * the order does not hold yet.
   */
  function Appended(order: seq<string>, devices: seq<DetectedDevice>): (r: seq<string>)
    ensures order <= r
    ensures forall d :: d in devices ==> d.guid in r
    ensures forall k :: |order| <= k < |r| ==> IsLiveGuid(devices, r[k])
    decreases |devices|
  {
    if devices == [] then order
    else
      var init := devices[..|devices| - 1];
      var last := devices[|devices| - 1];
      var prev := Appended(order, init);
      assert forall d :: d in init ==> d in devices;
      if last.guid in prev then prev else prev + [last.guid]
  }

  /**
   * The device-order effect: with no live device nothing happens; otherwise
   * each live GUID missing from the order is pushed onto a copy, and the
   * copy is kept only if something was pushed.
   */
  method AppendNewGuids(order: seq<string>, devices: seq<DetectedDevice>) returns (next: seq<string>, changed: bool)
    ensures next == Appended(order, devices)
    ensures changed <==> next != order
  {
    if |devices| == 0 {
      return order, false;
    }
    next := order;
    changed := false;
    for i := 0 to |devices|
      invariant next == Appended(order, devices[..i])
      invariant changed <==> |next| != |order|
    {
      assert devices[..i + 1][..i] == devices[..i];
      if devices[i].guid !in next {
        next := next + [devices[i].guid];
        changed := true;
      }
    }
    assert devices[..|devices|] == devices;
    if changed {
      assert |next| != |order|;
    }
  }

  /** Appending never introduces a duplicate, even when two live devices share a GUID. */
  lemma {:induction false} AppendedKeepsNoDuplicates(order: seq<string>, devices: seq<DetectedDevice>)
    requires NoDuplicates(order)
    ensures NoDuplicates(Appended(order, devices))
    decreases |devices|
  {
    if devices != [] {
      var init := devices[..|devices| - 1];
      AppendedKeepsNoDuplicates(order, init);
    }
  }

  /**
   * The appended GUIDs are exactly new ones, in the order their first
   * devices appear in the device list.
   */
  lemma {:induction false} AppendedInDeviceOrder(order: seq<string>, devices: seq<DetectedDevice>)
    ensures forall k :: |order| <= k < |Appended(order, devices)| ==> Appended(order, devices)[k] !in order
    ensures forall k :: |order| <= k < |Appended(order, devices)| ==> GuidIndex(devices, Appended(order, devices)[k]) >= 0
    ensures forall k1, k2 :: |order| <= k1 < k2 < |Appended(order, devices)| ==>
              GuidIndex(devices, Appended(order, devices)[k1]) < GuidIndex(devices, Appended(order, devices)[k2])
    decreases |devices|
  {
    if devices != [] {
      var init := devices[..|devices| - 1];
      var prev := Appended(order, init);
      AppendedInDeviceOrder(order, init);
      forall j | 0 <= j < |devices| - 1 ensures devices[j].guid in prev {
        assert devices[j] == init[j] && init[j] in init;
      }
      AppendStep(order, prev, init, devices);
      if devices[|devices| - 1].guid in prev {
        assert Appended(order, devices) == prev;
      } else {
        assert Appended(order, devices) == prev + [devices[|devices| - 1].guid];
      }
    }
  }

  /** One step of the append loop keeps the appended GUIDs new and in first-seen order. */
  lemma AppendStep(order: seq<string>, prev: seq<string>, init: seq<DetectedDevice>, devices: seq<DetectedDevice>)
    requires |devices| > 0 && init == devices[..|devices| - 1] && order <= prev
    requires forall j :: 0 <= j < |devices| - 1 ==> devices[j].guid in prev
    requires forall k :: |order| <= k < |prev| ==> prev[k] !in order
    requires forall k :: |order| <= k < |prev| ==> GuidIndex(init, prev[k]) >= 0
    requires forall k1, k2 :: |order| <= k1 < k2 < |prev| ==>
               GuidIndex(init, prev[k1]) < GuidIndex(init, prev[k2])
    ensures var g := devices[|devices| - 1].guid;
            var r := if g in prev then prev else prev + [g];
            && (forall k :: |order| <= k < |r| ==> r[k] !in order)
            && (forall k :: |order| <= k < |r| ==> GuidIndex(devices, r[k]) >= 0)
            && (forall k1, k2 :: |order| <= k1 < k2 < |r| ==> GuidIndex(devices, r[k1]) < GuidIndex(devices, r[k2]))
  {
    var n := |devices| - 1;
    var g := devices[n].guid;
    GuidsFirstSeenInLongerList(order, prev, init, devices);
    if g !in prev {
      GuidNotSeenBefore(prev, devices);
      GuidIndexAt(devices, g, n);
      assert g !in order by {
        assert order <= prev;
      }
      PushGuidFirstSeen(order, prev, devices);
    }
  }

  lemma GuidNotSeenBefore(prev: seq<string>, devices: seq<DetectedDevice>)
    requires |devices| > 0 && devices[|devices| - 1].guid !in prev
    requires forall j :: 0 <= j < |devices| - 1 ==> devices[j].guid in prev
    ensures forall j :: 0 <= j < |devices| - 1 ==> devices[j].guid != devices[|devices| - 1].guid
  {
  }

  /** The first-seen facts about the appended GUIDs survive one more device at the end of the list. */
  lemma GuidsFirstSeenInLongerList(order: seq<string>, prev: seq<string>, init: seq<DetectedDevice>, devices: seq<DetectedDevice>)
    requires init <= devices
    requires forall k :: |order| <= k < |prev| ==> GuidIndex(init, prev[k]) >= 0
    requires forall k1, k2 :: |order| <= k1 < k2 < |prev| ==> GuidIndex(init, prev[k1]) < GuidIndex(init, prev[k2])
    ensures forall k :: |order| <= k < |prev| ==> 0 <= GuidIndex(devices, prev[k]) < |init|
    ensures forall k1, k2 :: |order| <= k1 < k2 < |prev| ==> GuidIndex(devices, prev[k1]) < GuidIndex(devices, prev[k2])
  {
    forall k | |order| <= k < |prev| ensures GuidIndex(devices, prev[k]) == GuidIndex(init, prev[k]) {
      GuidIndexOfPrefix(init, devices, prev[k]);
    }
  }

  /** Appending the last device's GUID, first seen at the end of the list, keeps the appended GUIDs new and ordered. */
  lemma PushGuidFirstSeen(order: seq<string>, prev: seq<string>, devices: seq<DetectedDevice>)
    requires |devices| > 0 && |order| <= |prev|
    requires devices[|devices| - 1].guid !in order
    requires GuidIndex(devices, devices[|devices| - 1].guid) == |devices| - 1
    requires forall k :: |order| <= k < |prev| ==> prev[k] !in order
    requires forall k :: |order| <= k < |prev| ==> 0 <= GuidIndex(devices, prev[k]) < |devices| - 1
    requires forall k1, k2 :: |order| <= k1 < k2 < |prev| ==> GuidIndex(devices, prev[k1]) < GuidIndex(devices, prev[k2])
    ensures var r := prev + [devices[|devices| - 1].guid];
            && (forall k :: |order| <= k < |r| ==> r[k] !in order)
            && (forall k :: |order| <= k < |r| ==> GuidIndex(devices, r[k]) >= 0)
            && (forall k1, k2 :: |order| <= k1 < k2 < |r| ==> GuidIndex(devices, r[k1]) < GuidIndex(devices, r[k2]))
  {
    var r := prev + [devices[|devices| - 1].guid];
    forall k1, k2 | |order| <= k1 < k2 < |r|
      ensures GuidIndex(devices, r[k1]) < GuidIndex(devices, r[k2])
    {
      assert r[k1] == prev[k1];
      if k2 < |prev| {
        assert r[k2] == prev[k2];
      }
    }
    forall k | |order| <= k < |r| ensures r[k] !in order && GuidIndex(devices, r[k]) >= 0 {
      if k < |prev| {
        assert r[k] == prev[k];
      }
    }
  }

  // ----- Moving a GUID -----

  datatype MoveDirection = Up | Down

  /** `s` with the entries at `i` and `j` exchanged. */
  function Swapped(s: seq<string>, i: nat, j: nat): seq<string>
    requires i < |s| && j < |s|
  {
    s[i := s[j]][j := s[i]]
  }

  /** The order `handleMoveDevice` produces. */
  function Moved(order: seq<string>, g: string, dir: MoveDirection): seq<string>
  {
    var i := IndexOf(order, g);
    if i == -1 then order
    else if dir == Up && i > 0 then Swapped(order, i, i - 1)
    else if dir == Down && i < |order| - 1 then Swapped(order, i, i + 1)
    else order
  }

  /**
   * `handleMoveDevice`: copies the order into a fresh array and swaps the
   * GUID's first occurrence with its neighbour in place.
   */
  method MoveDevice(order: seq<string>, g: string, dir: MoveDirection) returns (next: seq<string>)
    ensures next == Moved(order, g, dir)
  {
    var index := IndexOf(order, g);
    if index == -1 {
      return order;
    }
    var a := new string[|order|](k requires 0 <= k < |order| => order[k]);
    if dir == Up && index > 0 {
      a[index], a[index - 1] := a[index - 1], a[index];
    } else if dir == Down && index < a.Length - 1 {
      a[index], a[index + 1] := a[index + 1], a[index];
    }
    next := a[..];
  }

  /**
   * A move swaps the GUID with its neighbour in the chosen direction and
   * touches nothing else; an unknown GUID or a move past either end changes
   * nothing; the result is always a permutation of the order.
   */
  lemma MovedSwapsNeighbour(order: seq<string>, g: string, dir: MoveDirection)
    ensures |Moved(order, g, dir)| == |order|
    ensures multiset(Moved(order, g, dir)) == multiset(order)
    ensures g !in order ==> Moved(order, g, dir) == order
    ensures g in order ==>
              var i := IndexOf(order, g);
              var j := if dir == Up then i - 1 else i + 1;
              if 0 <= j < |order| then SwapsNeighbour(order, Moved(order, g, dir), i, j)
              else Moved(order, g, dir) == order
  {
    var i := IndexOf(order, g);
    if i != -1 {
      var j := if dir == Up then i - 1 else i + 1;
      if 0 <= j < |order| {
        SwapFacts(order, i, j);
      }
    }
  }

  /** `r` is `s` with the entries at `i` and `j` exchanged and nothing else changed. */
  predicate SwapsNeighbour(s: seq<string>, r: seq<string>, i: nat, j: nat)
    requires i < |s| && j < |s|
  {
    && |r| == |s| && r[j] == s[i] && r[i] == s[j]
    && forall k :: 0 <= k < |s| && k != i && k != j ==> r[k] == s[k]
  }

  lemma SwapFacts(s: seq<string>, i: nat, j: nat)
    requires i < |s| && j < |s| && i != j
    ensures SwapsNeighbour(s, Swapped(s, i, j), i, j)
    ensures multiset(Swapped(s, i, j)) == multiset(s)
  {
    var t := s[i := s[j]];
    assert multiset(t) == multiset(s) - multiset{s[i]} + multiset{s[j]};
    assert multiset(t[j := s[i]]) == multiset(t) - multiset{t[j]} + multiset{s[i]};
  }

  /** Moving a GUID up and then down again restores the order. */
  lemma MoveUpThenDown(order: seq<string>, g: string)
    requires IndexOf(order, g) > 0
    ensures Moved(Moved(order, g, Up), g, Down) == order
  {
    var i := IndexOf(order, g);
    var once := Swapped(order, i, i - 1);
    assert Moved(order, g, Up) == once;
    SwapFacts(order, i, i - 1);
    IndexOfAt(once, g, i - 1);
    assert Moved(once, g, Down) == Swapped(once, i - 1, i);
    SwapFacts(once, i - 1, i);
    assert Swapped(once, i - 1, i) == order;
  }

  // ----- The ordered view of the live devices -----

  /**
   * `new Map(devices.map(d => [d.guid, d])).get(g)`: when several live
   * devices share a GUID the map keeps the last of them.
   */
  function LastByGuid(devices: seq<DetectedDevice>, g: string): (r: Option<DetectedDevice>)
    ensures r.Some? ==> r.value in devices && r.value.guid == g
    ensures r.Some? ==> exists i :: 0 <= i < |devices| && devices[i] == r.value &&
                          forall k :: i < k < |devices| ==> devices[k].guid != g
    ensures r.None? <==> !IsLiveGuid(devices, g)
    decreases |devices|
  {
    if devices == [] then None
    else if devices[|devices| - 1].guid == g then
      assert devices[|devices| - 1] in devices;
      Some(devices[|devices| - 1])
    else
      var r := LastByGuid(devices[..|devices| - 1], g);
      LastByGuidStep(devices, devices[..|devices| - 1], g, r);
      r
  }

  /** A last match in the front of the list, before a last device that does not match, is the list's last match. */
  lemma LastByGuidStep(devices: seq<DetectedDevice>, init: seq<DetectedDevice>, g: string, r: Option<DetectedDevice>)
    requires devices != [] && init == devices[..|devices| - 1] && devices[|devices| - 1].guid != g
    requires r.Some? ==> r.value in init && r.value.guid == g
    requires r.Some? ==> exists i :: 0 <= i < |init| && init[i] == r.value &&
                                     forall k :: i < k < |init| ==> init[k].guid != g
    requires r.None? <==> !IsLiveGuid(init, g)
    ensures r.Some? ==> r.value in devices && r.value.guid == g
    ensures r.Some? ==> exists i :: 0 <= i < |devices| && devices[i] == r.value &&
                                    forall k :: i < k < |devices| ==> devices[k].guid != g
    ensures r.None? <==> !IsLiveGuid(devices, g)
  {
    var n := |devices| - 1;
    assert forall d :: d in init ==> d in devices;
    assert forall d :: d in devices ==> d in init || d == devices[n];
    if r.Some? {
      var i :| 0 <= i < n && init[i] == r.value && forall k :: i < k < n ==> init[k].guid != g;
      assert devices[i] == r.value;
      forall k | i < k < |devices| ensures devices[k].guid != g {
        if k < n {
          assert devices[k] == init[k];
        }
      }
    }
  }

  /** The live devices of the order's GUIDs, in the order's order; GUIDs not live are skipped. */
  function Listed(order: seq<string>, devices: seq<DetectedDevice>): (r: seq<DetectedDevice>)
    ensures forall x :: x in r ==> x in devices && x.guid in order
    ensures forall g :: g in order && IsLiveGuid(devices, g) ==> exists x :: x in r && x.guid == g
    decreases |order|
  {
    if order == [] then []
    else
      var prev := Listed(order[..|order| - 1], devices);
      assert forall g :: g in order[..|order| - 1] ==> g in order;
      assert forall g :: g in order ==> g in order[..|order| - 1] || g == order[|order| - 1];
      match LastByGuid(devices, order[|order| - 1])
      case None => prev
      case Some(d) => prev + [d]
  }

  /** The positions of the order whose GUID has a live device, ascending. */
  function LivePositions(order: seq<string>, devices: seq<DetectedDevice>): (r: seq<nat>)
    ensures forall k :: 0 <= k < |r| ==> r[k] < |order| && IsLiveGuid(devices, order[r[k]])
    ensures forall k1, k2 :: 0 <= k1 < k2 < |r| ==> r[k1] < r[k2]
    ensures forall p :: 0 <= p < |order| && IsLiveGuid(devices, order[p]) ==> p in r
    decreases |order|
  {
    if order == [] then []
    else
      var n := |order| - 1;
      var prev := LivePositions(order[..n], devices);
      if IsLiveGuid(devices, order[n]) then prev + [n] else prev
  }

  /**
   * `Listed` is the order filtered to its live GUIDs, each mapped to the
   * device the GUID map holds for it: position by position, so the listed
   * devices follow the order's order.
   */
  lemma {:induction false} ListedFollowsOrder(order: seq<string>, devices: seq<DetectedDevice>)
    ensures |Listed(order, devices)| == |LivePositions(order, devices)|
    ensures forall k :: 0 <= k < |Listed(order, devices)| ==>
              Some(Listed(order, devices)[k]) == LastByGuid(devices, order[LivePositions(order, devices)[k]])
    decreases |order|
  {
    if order != [] {
      var n := |order| - 1;
      ListedFollowsOrder(order[..n], devices);
      LivePositionsBelow(order[..n], devices);
      ListedUnfoldLast(order, devices);
      ListedStep(order, devices, LivePositions(order[..n], devices), Listed(order[..n], devices));
    }
  }

  lemma LivePositionsBelow(order: seq<string>, devices: seq<DetectedDevice>)
    ensures forall k :: 0 <= k < |LivePositions(order, devices)| ==> LivePositions(order, devices)[k] < |order|
  {
  }

  /** Both walks over the order, one GUID longer. */
  lemma ListedUnfoldLast(order: seq<string>, devices: seq<DetectedDevice>)
    requires order != []
    ensures var n := |order| - 1;
            LivePositions(order, devices) ==
              if IsLiveGuid(devices, order[n]) then LivePositions(order[..n], devices) + [n]
              else LivePositions(order[..n], devices)
    ensures var n := |order| - 1;
            Listed(order, devices) ==
              if IsLiveGuid(devices, order[n]) then Listed(order[..n], devices) + [LastByGuid(devices, order[n]).value]
              else Listed(order[..n], devices)
  {
  }

  /** One more GUID keeps the listed devices aligned with the live positions. */
  lemma ListedStep(order: seq<string>, devices: seq<DetectedDevice>, pos: seq<nat>, prev: seq<DetectedDevice>)
    requires order != [] && |prev| == |pos|
    requires forall k :: 0 <= k < |pos| ==> pos[k] < |order| - 1
    requires forall k :: 0 <= k < |prev| ==> Some(prev[k]) == LastByGuid(devices, order[..|order| - 1][pos[k]])
    ensures var n := |order| - 1;
            var pos' := if IsLiveGuid(devices, order[n]) then pos + [n] else pos;
            var prev' := if IsLiveGuid(devices, order[n]) then prev + [LastByGuid(devices, order[n]).value] else prev;
            |prev'| == |pos'| && forall k :: 0 <= k < |prev'| ==> Some(prev'[k]) == LastByGuid(devices, order[pos'[k]])
  {
    var n := |order| - 1;
    forall k | 0 <= k < |prev| ensures Some(prev[k]) == LastByGuid(devices, order[pos[k]]) {
      assert order[..n][pos[k]] == order[pos[k]];
    }
  }

  /** `a` occurs in `order` at some position before one where `b` occurs. */
  predicate OccursBefore(order: seq<string>, a: string, b: string)
  {
    exists p, q :: 0 <= p < q < |order| && order[p] == a && order[q] == b
  }

  /** Each listed device is the one the GUID map holds for its GUID, and the listed GUIDs follow the order. */
  lemma ListedEntriesInOrder(order: seq<string>, devices: seq<DetectedDevice>)
    ensures |Listed(order, devices)| <= |order|
    ensures forall k :: 0 <= k < |Listed(order, devices)| ==>
              LastByGuid(devices, Listed(order, devices)[k].guid) == Some(Listed(order, devices)[k])
    ensures forall i, j :: 0 <= i < j < |Listed(order, devices)| ==>
              OccursBefore(order, Listed(order, devices)[i].guid, Listed(order, devices)[j].guid)
  {
    ListedFollowsOrder(order, devices);
    AlignedEntries(order, devices, Listed(order, devices), LivePositions(order, devices));
  }

  /** Devices aligned with ascending positions of the order inherit the order's order. */
  lemma AlignedEntries(order: seq<string>, devices: seq<DetectedDevice>, r: seq<DetectedDevice>, pos: seq<nat>)
    requires |r| == |pos|
    requires forall k :: 0 <= k < |pos| ==> pos[k] < |order|
    requires forall k1, k2 :: 0 <= k1 < k2 < |pos| ==> pos[k1] < pos[k2]
    requires forall k :: 0 <= k < |r| ==> Some(r[k]) == LastByGuid(devices, order[pos[k]])
    ensures |r| <= |order|
    ensures forall k :: 0 <= k < |r| ==> LastByGuid(devices, r[k].guid) == Some(r[k])
    ensures forall i, j :: 0 <= i < j < |r| ==> OccursBefore(order, r[i].guid, r[j].guid)
  {
    PositionsBound(pos, |order|);
    forall k | 0 <= k < |r| ensures LastByGuid(devices, r[k].guid) == Some(r[k]) {
      assert r[k].guid == order[pos[k]];
    }
    forall i, j | 0 <= i < j < |r| ensures OccursBefore(order, r[i].guid, r[j].guid) {
      assert order[pos[i]] == r[i].guid && order[pos[j]] == r[j].guid;
    }
  }

  /** Strictly increasing positions below `n` number at most `n`. */
  lemma {:induction false} PositionsBound(pos: seq<nat>, n: nat)
    requires forall k :: 0 <= k < |pos| ==> pos[k] < n
    requires forall k1, k2 :: 0 <= k1 < k2 < |pos| ==> pos[k1] < pos[k2]
    ensures |pos| <= n
    decreases n
  {
    if pos != [] {
      var init := pos[..|pos| - 1];
      assert forall k :: 0 <= k < |init| ==> init[k] < pos[|pos| - 1];
      PositionsBound(init, pos[|pos| - 1]);
    }
  }

  /** `result.find(r => r.guid === g)` succeeds. */
  predicate HasGuid(result: seq<DetectedDevice>, g: string)
  {
    exists j :: 0 <= j < |result| && result[j].guid == g
  }

  /** Pushes, front to back, each of `devices` whose GUID `start` does not list yet. */
  function Completed(start: seq<DetectedDevice>, devices: seq<DetectedDevice>): (r: seq<DetectedDevice>)
    ensures start <= r
    ensures forall d :: d in devices ==> HasGuid(r, d.guid)
    ensures forall k :: |start| <= k < |r| ==> r[k] in devices
    decreases |devices|
  {
    if devices == [] then start
    else
      var init := devices[..|devices| - 1];
      var last := devices[|devices| - 1];
      var prev := Completed(start, init);
      assert forall d :: d in init ==> d in devices;
      if HasGuid(prev, last.guid) then prev
      else
        var r := prev + [last];
        assert r[|prev|] == last;
        HasGuidGrows(prev, r);
        r
  }

  lemma HasGuidGrows(s: seq<DetectedDevice>, t: seq<DetectedDevice>)
    requires s <= t
    ensures forall g :: HasGuid(s, g) ==> HasGuid(t, g)
  {
    forall g | HasGuid(s, g) ensures HasGuid(t, g) {
      var j :| 0 <= j < |s| && s[j].guid == g;
      assert t[j] == s[j];
    }
  }

  /**
   * The devices `Completed` pushes are the first live device of each GUID
   * not yet listed, in the order the device list first shows them.
   */
  lemma {:induction false} CompletedInDeviceOrder(start: seq<DetectedDevice>, devices: seq<DetectedDevice>)
    ensures forall k :: |start| <= k < |Completed(start, devices)| ==> !HasGuid(start, Completed(start, devices)[k].guid)
    ensures forall k :: |start| <= k < |Completed(start, devices)| ==>
              && GuidIndex(devices, Completed(start, devices)[k].guid) >= 0
              && devices[GuidIndex(devices, Completed(start, devices)[k].guid)] == Completed(start, devices)[k]
    ensures forall k1, k2 :: |start| <= k1 < k2 < |Completed(start, devices)| ==>
              GuidIndex(devices, Completed(start, devices)[k1].guid) < GuidIndex(devices, Completed(start, devices)[k2].guid)
    decreases |devices|
  {
    if devices != [] {
      var init := devices[..|devices| - 1];
      CompletedInDeviceOrder(start, init);
      forall j | 0 <= j < |init| ensures HasGuid(Completed(start, init), init[j].guid) {
        assert init[j] in init;
      }
      var prev := Completed(start, init);
      CompleteStep(start, prev, init, devices);
      if HasGuid(prev, devices[|devices| - 1].guid) {
        assert Completed(start, devices) == prev;
      } else {
        assert Completed(start, devices) == prev + [devices[|devices| - 1]];
      }
    }
  }

  /** One step of the completion loop keeps the pushed devices first-seen and in first-seen order. */
  lemma CompleteStep(start: seq<DetectedDevice>, prev: seq<DetectedDevice>, init: seq<DetectedDevice>, devices: seq<DetectedDevice>)
    requires |devices| > 0 && init == devices[..|devices| - 1] && start <= prev
    requires forall j :: 0 <= j < |devices| - 1 ==> HasGuid(prev, devices[j].guid)
    requires forall k :: |start| <= k < |prev| ==> !HasGuid(start, prev[k].guid)
    requires forall k :: |start| <= k < |prev| ==>
               && GuidIndex(init, prev[k].guid) >= 0
               && init[GuidIndex(init, prev[k].guid)] == prev[k]
    requires forall k1, k2 :: |start| <= k1 < k2 < |prev| ==>
               GuidIndex(init, prev[k1].guid) < GuidIndex(init, prev[k2].guid)
    ensures HasGuid(prev, devices[|devices| - 1].guid) ==>
              && (forall k :: |start| <= k < |prev| ==>
                    GuidIndex(devices, prev[k].guid) >= 0 && devices[GuidIndex(devices, prev[k].guid)] == prev[k])
              && (forall k1, k2 :: |start| <= k1 < k2 < |prev| ==>
                    GuidIndex(devices, prev[k1].guid) < GuidIndex(devices, prev[k2].guid))
    ensures !HasGuid(prev, devices[|devices| - 1].guid) ==>
              var r := prev + [devices[|devices| - 1]];
              && (forall k :: |start| <= k < |r| ==> !HasGuid(start, r[k].guid))
              && (forall k :: |start| <= k < |r| ==>
                    GuidIndex(devices, r[k].guid) >= 0 && devices[GuidIndex(devices, r[k].guid)] == r[k])
              && (forall k1, k2 :: |start| <= k1 < k2 < |r| ==> GuidIndex(devices, r[k1].guid) < GuidIndex(devices, r[k2].guid))
  {
    var n := |devices| - 1;
    FirstSeenInLongerList(start, prev, init, devices);
    if !HasGuid(prev, devices[n].guid) {
      FirstSeenLast(prev, devices);
      HasGuidGrows(start, prev);
      PushFirstSeen(start, prev, devices);
    }
  }

  /** A last device whose GUID nothing before it carries is first seen at the end. */
  lemma FirstSeenLast(prev: seq<DetectedDevice>, devices: seq<DetectedDevice>)
    requires |devices| > 0 && !HasGuid(prev, devices[|devices| - 1].guid)
    requires forall j :: 0 <= j < |devices| - 1 ==> HasGuid(prev, devices[j].guid)
    ensures GuidIndex(devices, devices[|devices| - 1].guid) == |devices| - 1
  {
    NotSeenBefore(prev, devices);
    GuidIndexAt(devices, devices[|devices| - 1].guid, |devices| - 1);
  }

  lemma NotSeenBefore(prev: seq<DetectedDevice>, devices: seq<DetectedDevice>)
    requires |devices| > 0 && !HasGuid(prev, devices[|devices| - 1].guid)
    requires forall j :: 0 <= j < |devices| - 1 ==> HasGuid(prev, devices[j].guid)
    ensures forall j :: 0 <= j < |devices| - 1 ==> devices[j].guid != devices[|devices| - 1].guid
  {
  }

  /** The first-seen facts about the pushed devices survive one more device at the end of the list. */
  lemma FirstSeenInLongerList(start: seq<DetectedDevice>, prev: seq<DetectedDevice>,
                              init: seq<DetectedDevice>, devices: seq<DetectedDevice>)
    requires init <= devices
    requires forall k :: |start| <= k < |prev| ==>
               && GuidIndex(init, prev[k].guid) >= 0
               && init[GuidIndex(init, prev[k].guid)] == prev[k]
    requires forall k1, k2 :: |start| <= k1 < k2 < |prev| ==>
               GuidIndex(init, prev[k1].guid) < GuidIndex(init, prev[k2].guid)
    ensures forall k :: |start| <= k < |prev| ==>
              && 0 <= GuidIndex(devices, prev[k].guid) < |init|
              && devices[GuidIndex(devices, prev[k].guid)] == prev[k]
    ensures forall k1, k2 :: |start| <= k1 < k2 < |prev| ==>
              GuidIndex(devices, prev[k1].guid) < GuidIndex(devices, prev[k2].guid)
  {
    forall k | |start| <= k < |prev| ensures GuidIndex(devices, prev[k].guid) == GuidIndex(init, prev[k].guid) {
      GuidIndexOfPrefix(init, devices, prev[k].guid);
    }
  }

  /** Pushing the last device, first seen at the end of the list, keeps the pushed devices first-seen and ordered. */
  lemma PushFirstSeen(start: seq<DetectedDevice>, prev: seq<DetectedDevice>, devices: seq<DetectedDevice>)
    requires |devices| > 0 && start <= prev
    requires !HasGuid(start, devices[|devices| - 1].guid)
    requires GuidIndex(devices, devices[|devices| - 1].guid) == |devices| - 1
    requires forall k :: |start| <= k < |prev| ==> !HasGuid(start, prev[k].guid)
    requires forall k :: |start| <= k < |prev| ==>
               && 0 <= GuidIndex(devices, prev[k].guid) < |devices| - 1
               && devices[GuidIndex(devices, prev[k].guid)] == prev[k]
    requires forall k1, k2 :: |start| <= k1 < k2 < |prev| ==>
               GuidIndex(devices, prev[k1].guid) < GuidIndex(devices, prev[k2].guid)
    ensures var r := prev + [devices[|devices| - 1]];
            && (forall k :: |start| <= k < |r| ==> !HasGuid(start, r[k].guid))
            && (forall k :: |start| <= k < |r| ==>
                  GuidIndex(devices, r[k].guid) >= 0 && devices[GuidIndex(devices, r[k].guid)] == r[k])
            && (forall k1, k2 :: |start| <= k1 < k2 < |r| ==> GuidIndex(devices, r[k1].guid) < GuidIndex(devices, r[k2].guid))
  {
    var r := prev + [devices[|devices| - 1]];
    forall k1, k2 | |start| <= k1 < k2 < |r|
      ensures GuidIndex(devices, r[k1].guid) < GuidIndex(devices, r[k2].guid)
    {
      assert r[k1] == prev[k1];
      if k2 < |prev| {
        assert r[k2] == prev[k2];
      }
    }
    forall k | |start| <= k < |r|
      ensures !HasGuid(start, r[k].guid)
      ensures GuidIndex(devices, r[k].guid) >= 0 && devices[GuidIndex(devices, r[k].guid)] == r[k]
    {
      if k < |prev| {
        assert r[k] == prev[k];
      }
    }
  }

  /** The `sortedDevices` view. */
  function SortedView(devices: seq<DetectedDevice>, order: seq<string>): seq<DetectedDevice>
  {
    Completed(Listed(order, devices), devices)
  }

  /**
   * The `sortedDevices` memo: map the order through the GUID map, drop the
   * misses, then push every live device whose GUID is not yet in the result.
   */
  method SortDevices(devices: seq<DetectedDevice>, order: seq<string>) returns (result: seq<DetectedDevice>)
    ensures result == SortedView(devices, order)
  {
    result := [];
    for i := 0 to |order|
      invariant result == Listed(order[..i], devices)
    {
      assert order[..i + 1][..i] == order[..i];
      var found := LastByGuid(devices, order[i]);
      if found.Some? {
        result := result + [found.value];
      }
    }
    assert order[..|order|] == order;
    ghost var listed := result;
    for i := 0 to |devices|
      invariant result == Completed(listed, devices[..i])
    {
      assert devices[..i + 1][..i] == devices[..i];
      var d := devices[i];
      if !HasGuid(result, d.guid) {
        result := result + [d];
      }
    }
    assert devices[..|devices|] == devices;
  }

  /**
   * What the view promises: it starts with the live devices of the
   * order's GUIDs in that order, every live GUID appears in it, and it
   * holds nothing but live devices.
   */
  lemma SortedViewCoversLiveDevices(devices: seq<DetectedDevice>, order: seq<string>)
    ensures Listed(order, devices) <= SortedView(devices, order)
    ensures forall d :: d in devices ==> HasGuid(SortedView(devices, order), d.guid)
    ensures forall x :: x in SortedView(devices, order) ==> x in devices
  {
    var start := Listed(order, devices);
    var r := SortedView(devices, order);
    forall x | x in r ensures x in devices {
      var k :| 0 <= k < |r| && r[k] == x;
      if k < |start| {
        assert start[k] == x;
      }
    }
  }

  predicate UniqueGuids(s: seq<DetectedDevice>)
  {
    forall i, j :: 0 <= i < j < |s| ==> s[i].guid != s[j].guid
  }

  /** With a duplicate-free order, no GUID appears twice in the view. */
  lemma SortedViewUniqueGuids(devices: seq<DetectedDevice>, order: seq<string>)
    requires NoDuplicates(order)
    ensures UniqueGuids(SortedView(devices, order))
  {
    ListedUniqueGuids(order, devices);
    CompletedUniqueGuids(Listed(order, devices), devices);
  }

  lemma {:induction false} ListedUniqueGuids(order: seq<string>, devices: seq<DetectedDevice>)
    requires NoDuplicates(order)
    ensures UniqueGuids(Listed(order, devices))
    decreases |order|
  {
    if order != [] {
      var init := order[..|order| - 1];
      var g := order[|order| - 1];
      ListedUniqueGuids(init, devices);
      assert g !in init;
      var prev := Listed(init, devices);
      if LastByGuid(devices, g).Some? {
        forall k | 0 <= k < |prev| ensures prev[k].guid != g {
          assert prev[k] in prev;
        }
      }
    }
  }

  lemma {:induction false} CompletedUniqueGuids(start: seq<DetectedDevice>, devices: seq<DetectedDevice>)
    requires UniqueGuids(start)
    ensures UniqueGuids(Completed(start, devices))
    decreases |devices|
  {
    if devices != [] {
      CompletedUniqueGuids(start, devices[..|devices| - 1]);
    }
  }

  // ----- Selection -----

  /** `toggleDevice`: the GUID's membership flips and every other GUID keeps its own. */
  function Toggle(selected: set<string>, g: string): (r: set<string>)
    ensures g in r <==> g !in selected
    ensures r - {g} == selected - {g}
  {
    if g in selected then selected - {g} else selected + {g}
  }

  /** Toggling the same GUID twice restores the selection. */
  lemma ToggleTwice(selected: set<string>, g: string)
    ensures Toggle(Toggle(selected, g), g) == selected
  {
  }
}
