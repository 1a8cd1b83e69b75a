/**
 * The "listen for the next input" protocol. On arming, the state of every
 * candidate controller is captured as a baseline; each frame then scans the
 * live state against it and the first input that moved decisively wins:
 * a button that went down, or an axis that travelled more than half its
 * range from where it was. The frame loop, the platform poll and the abort
 * signal are parameters here: a frame is one call with a fresh snapshot and
 * the current value of the abort flag.
 */
module Detection {
  import opened Types

  /** One controller in one poll: its axis values and its buttons' pressed flags. */
  datatype Pad = Pad(axes: seq<real>, buttons: seq<bool>)

  /** `navigator.getGamepads()`: one slot per platform index, `None` where nothing is connected. */
  type Snapshot = seq<Option<Pad>>

  /** The state captured on arming, for each candidate controller that was connected then. */
  datatype Baseline = Baseline(axes: map<nat, seq<real>>, buttons: map<nat, seq<bool>>)

  /** What a successful detection reports. */
  datatype Detected = Detected(deviceIndex: nat, kind: InputType, index: nat, direction: Option<Direction>)

  /** How far an axis must travel from its baseline before it counts. */
  const Threshold: real := 0.5

  function Abs(x: real): real
  {
    if x < 0.0 then -x else x
  }

  /** The controller at platform index `idx`; an index past the end reads as empty. */
  function PadAt(s: Snapshot, idx: nat): Option<Pad>
  {
    if idx < |s| then s[idx] else None
  }

  /**
   * The baseline capture of `detectInput`: every candidate index whose slot
   * holds a controller gets a copy of its axes and of its pressed flags.
   */
  method CaptureBaseline(allowed: seq<nat>, snapshot: Snapshot) returns (b: Baseline)
    ensures b.axes.Keys == b.buttons.Keys
    ensures forall idx :: idx in b.axes <==> idx in allowed && PadAt(snapshot, idx).Some?
    ensures forall idx :: idx in b.axes ==>
              b.axes[idx] == PadAt(snapshot, idx).value.axes && b.buttons[idx] == PadAt(snapshot, idx).value.buttons
  {
    var axes: map<nat, seq<real>> := map[];
    var buttons: map<nat, seq<bool>> := map[];
    for i := 0 to |allowed|
      invariant axes.Keys == buttons.Keys
      invariant forall idx :: idx in axes <==> idx in allowed[..i] && PadAt(snapshot, idx).Some?
      invariant forall idx :: idx in axes ==>
                  axes[idx] == PadAt(snapshot, idx).value.axes && buttons[idx] == PadAt(snapshot, idx).value.buttons
    {
      var idx := allowed[i];
      match PadAt(snapshot, idx)
      case Some(gp) =>
        axes := axes[idx := gp.axes];
        buttons := buttons[idx := gp.buttons];
      case None =>
    }
    assert allowed[..|allowed|] == allowed;
    b := Baseline(axes, buttons);
  }

  /** Button `b` of controller `idx` was down when the baseline was taken. */
  predicate WasPressed(base: Baseline, idx: nat, b: nat)
  {
    idx in base.buttons && b < |base.buttons[idx]| && base.buttons[idx][b]
  }

  /**
   * Button `b` is down now and was not at arming. A controller with no
   * baseline, or a slot the baseline does not have, counts as "was up".
   */
  predicate ButtonFires(base: Baseline, idx: nat, pad: Pad, b: nat)
  {
    b < |pad.buttons| && pad.buttons[b] && !WasPressed(base, idx, b)
  }

  /**
   * Axis `a` is more than the threshold away from its baseline value. A
   * controller with no baseline, or a slot the baseline does not have (the
   * difference is NaN there), never fires.
   */
  predicate AxisFires(base: Baseline, idx: nat, pad: Pad, a: nat)
  {
    idx in base.axes && a < |pad.axes| && a < |base.axes[idx]|
    && Abs(pad.axes[a] - base.axes[idx][a]) > Threshold
  }

  /** The sign of the deflection of axis `a`. */
  function DirectionOf(base: Baseline, idx: nat, pad: Pad, a: nat): Direction
    requires idx in base.axes && a < |pad.axes| && a < |base.axes[idx]|
  {
    if pad.axes[a] - base.axes[idx][a] > 0.0 then Positive else Negative
  }

  /** The lowest button slot at or after `from` that fires. */
  function FirstButton(base: Baseline, idx: nat, pad: Pad, from: nat): (r: Option<nat>)
    ensures r.Some? ==> from <= r.value && ButtonFires(base, idx, pad, r.value)
    ensures r.Some? ==> forall b :: from <= b < r.value ==> !ButtonFires(base, idx, pad, b)
    ensures r.None? ==> forall b :: from <= b ==> !ButtonFires(base, idx, pad, b)
    decreases |pad.buttons| - from
  {
    if from >= |pad.buttons| then None
    else if ButtonFires(base, idx, pad, from) then Some(from)
    else FirstButton(base, idx, pad, from + 1)
  }

  /** The lowest axis slot at or after `from` that fires. */
  function FirstAxis(base: Baseline, idx: nat, pad: Pad, from: nat): (r: Option<nat>)
    ensures r.Some? ==> from <= r.value && AxisFires(base, idx, pad, r.value)
    ensures r.Some? ==> forall a :: from <= a < r.value ==> !AxisFires(base, idx, pad, a)
    ensures r.None? ==> forall a :: from <= a ==> !AxisFires(base, idx, pad, a)
    decreases |pad.axes| - from
  {
    if from >= |pad.axes| then None
    else if AxisFires(base, idx, pad, from) then Some(from)
    else FirstAxis(base, idx, pad, from + 1)
  }

  /** One controller's verdict: its first firing button, else its first firing axis. */
  function DeviceHit(base: Baseline, idx: nat, pad: Pad): Option<Detected>
  {
    match FirstButton(base, idx, pad, 0)
    case Some(b) => Some(Detected(idx, Button, b, None))
    case None =>
      match FirstAxis(base, idx, pad, 0)
      case Some(a) => Some(Detected(idx, Axis, a, Some(DirectionOf(base, idx, pad, a))))
      case None => None
  }

  /** The verdict of one frame: candidates in the given order, absent ones skipped, first hit wins. */
  function FirstMatch(allowed: seq<nat>, base: Baseline, current: Snapshot): Option<Detected>
  {
    if allowed == [] then None
    else
      var rest := FirstMatch(allowed[1..], base, current);
      match PadAt(current, allowed[0])
      case None => rest
      case Some(pad) => if DeviceHit(base, allowed[0], pad).Some? then DeviceHit(base, allowed[0], pad) else rest
  }

  /**
   * The body of one `checkLoop` frame after the abort test: controllers in
   * the order given, buttons before axes, slots in ascending order, and the
   * first input that fires is returned at once.
   */
  method ScanFrame(allowed: seq<nat>, base: Baseline, current: Snapshot) returns (r: Option<Detected>)
    ensures r == FirstMatch(allowed, base, current)
  {
    for i := 0 to |allowed|
      invariant FirstMatch(allowed[i..], base, current) == FirstMatch(allowed, base, current)
    {
      var idx := allowed[i];
      assert allowed[i..][1..] == allowed[i + 1..];
      if PadAt(current, idx).None? {
        continue;
      }
      var gp := PadAt(current, idx).value;
      for b := 0 to |gp.buttons|
        invariant FirstButton(base, idx, gp, b) == FirstButton(base, idx, gp, 0)
      {
        var isPressed := gp.buttons[b];
        var wasPressed := idx in base.buttons && b < |base.buttons[idx]| && base.buttons[idx][b];
        if isPressed && !wasPressed {
          return Some(Detected(idx, Button, b, None));
        }
      }
      if idx in base.axes {
        var initial := base.axes[idx];
        for a := 0 to |gp.axes|
          invariant FirstAxis(base, idx, gp, a) == FirstAxis(base, idx, gp, 0)
        {
          if a < |initial| {
            var diff := gp.axes[a] - initial[a];
            if Abs(diff) > Threshold {
              var direction := if diff > 0.0 then Positive else Negative;
              return Some(Detected(idx, Axis, a, Some(direction)));
            }
          }
        }
      }
    }
    return None;
  }

  // ----- What a frame's verdict means -----

  /** Nothing on controller `idx` fires in this frame (or it is absent). */
  ghost predicate Quiet(base: Baseline, current: Snapshot, idx: nat)
  {
    PadAt(current, idx).Some? ==>
      && (forall b :: !ButtonFires(base, idx, PadAt(current, idx).value, b))
      && (forall a :: !AxisFires(base, idx, PadAt(current, idx).value, a))
  }

  /**
   * A verdict is always justified: it names a candidate that is connected,
   * and either a button that went down since arming or an axis that moved
   * past the threshold, with the sign of its movement.
   */
  lemma {:induction false} FirstMatchSound(allowed: seq<nat>, base: Baseline, current: Snapshot)
    requires FirstMatch(allowed, base, current).Some?
    ensures var d := FirstMatch(allowed, base, current).value;
            && d.deviceIndex in allowed
            && PadAt(current, d.deviceIndex).Some?
            && var pad := PadAt(current, d.deviceIndex).value;
               (d.kind == Button ==> ButtonFires(base, d.deviceIndex, pad, d.index) && d.direction == None)
               && (d.kind == Axis ==> AxisFires(base, d.deviceIndex, pad, d.index)
                                      && d.direction == Some(DirectionOf(base, d.deviceIndex, pad, d.index)))
  {
    if PadAt(current, allowed[0]).None? || DeviceHit(base, allowed[0], PadAt(current, allowed[0]).value).None? {
      FirstMatchSound(allowed[1..], base, current);
    }
  }

  /** A frame finds nothing exactly when every candidate is quiet. */
  lemma {:induction false} FirstMatchNoneIffQuiet(allowed: seq<nat>, base: Baseline, current: Snapshot)
    ensures FirstMatch(allowed, base, current).None? <==> forall idx :: idx in allowed ==> Quiet(base, current, idx)
  {
    if allowed != [] {
      FirstMatchNoneIffQuiet(allowed[1..], base, current);
      var idx := allowed[0];
      assert forall j :: j in allowed <==> j == idx || j in allowed[1..];
      match PadAt(current, idx)
      case None =>
      case Some(pad) =>
        if DeviceHit(base, idx, pad).None? {
          assert Quiet(base, current, idx);
        } else {
          assert !Quiet(base, current, idx);
        }
    }
  }

  /**
   * The verdict is the first hit in scan order: every candidate before the
   * reporting one is quiet, and within that controller no earlier slot of
   * the same kind fires, nor any button when an axis is reported.
   */
  lemma {:induction false} FirstMatchIsFirst(allowed: seq<nat>, base: Baseline, current: Snapshot)
    requires FirstMatch(allowed, base, current).Some?
    ensures var d := FirstMatch(allowed, base, current).value;
            && (exists k :: 0 <= k < |allowed| && allowed[k] == d.deviceIndex
                            && forall k' :: 0 <= k' < k ==> Quiet(base, current, allowed[k']))
            && PadAt(current, d.deviceIndex).Some?
            && var pad := PadAt(current, d.deviceIndex).value;
               (d.kind == Button ==> forall b: nat :: b < d.index ==> !ButtonFires(base, d.deviceIndex, pad, b))
               && (d.kind == Axis ==> (forall b :: !ButtonFires(base, d.deviceIndex, pad, b))
                                      && forall a: nat :: a < d.index ==> !AxisFires(base, d.deviceIndex, pad, a))
  {
    var d := FirstMatch(allowed, base, current).value;
    var idx := allowed[0];
    if PadAt(current, idx).Some? && DeviceHit(base, idx, PadAt(current, idx).value).Some? {
      assert allowed[0] == d.deviceIndex;
    } else {
      FirstMatchIsFirst(allowed[1..], base, current);
      var k :| 0 <= k < |allowed[1..]| && allowed[1..][k] == d.deviceIndex
               && forall k' :: 0 <= k' < k ==> Quiet(base, current, allowed[1..][k']);
      assert Quiet(base, current, idx);
      assert allowed[k + 1] == d.deviceIndex;
      forall k' | 0 <= k' < k + 1 ensures Quiet(base, current, allowed[k']) {
        if k' > 0 {
          assert allowed[k'] == allowed[1..][k' - 1];
        }
      }
    }
  }

  /** A button held down since arming never produces a verdict for that button. */
  lemma HeldButtonNeverFires(allowed: seq<nat>, base: Baseline, current: Snapshot, idx: nat, b: nat)
    requires WasPressed(base, idx, b)
    ensures FirstMatch(allowed, base, current) != Some(Detected(idx, Button, b, None))
  {
    if FirstMatch(allowed, base, current) == Some(Detected(idx, Button, b, None)) {
      FirstMatchSound(allowed, base, current);
    }
  }

  /** A controller that was absent at arming never produces an axis verdict. */
  lemma NoBaselineNoAxis(allowed: seq<nat>, base: Baseline, current: Snapshot)
    requires FirstMatch(allowed, base, current).Some?
    requires FirstMatch(allowed, base, current).value.deviceIndex !in base.axes
    ensures FirstMatch(allowed, base, current).value.kind == Button
  {
    FirstMatchSound(allowed, base, current);
  }

  // ----- The session: Armed, then Resolved or Rejected -----

  /** Why a session failed. */
  datatype Failure = Aborted | GamepadApiUnavailable

  datatype Phase = Armed | Resolved(hit: Detected) | Rejected(failure: Failure)

  /** What one frame sees: whether the abort signal has fired, and the live poll. */
  datatype Tick = Tick(aborted: bool, current: Snapshot)

  /** One run of `checkLoop` on a session's phase. */
  function Step(allowed: seq<nat>, base: Baseline, phase: Phase, t: Tick): Phase
  {
    if phase != Armed then phase
    else if t.aborted then Rejected(Aborted)
    else match FirstMatch(allowed, base, t.current)
         case Some(d) => Resolved(d)
         case None => Armed
  }

  /** The phase after a sequence of frames. */
  function Run(allowed: seq<nat>, base: Baseline, phase: Phase, ticks: seq<Tick>): Phase
    decreases |ticks|
  {
    if ticks == [] then phase else Run(allowed, base, Step(allowed, base, phase, ticks[0]), ticks[1..])
  }

  /** A frame in which the session stays armed: no abort and no hit. */
  predicate Idle(allowed: seq<nat>, base: Baseline, t: Tick)
  {
    !t.aborted && FirstMatch(allowed, base, t.current).None?
  }

  /** A settled session stays settled whatever frames follow. */
  lemma {:induction false} SettledIsFinal(allowed: seq<nat>, base: Baseline, phase: Phase, ticks: seq<Tick>)
    requires phase != Armed
    ensures Run(allowed, base, phase, ticks) == phase
  {
    if ticks != [] {
      SettledIsFinal(allowed, base, phase, ticks[1..]);
    }
  }

  /**
   * An armed session settles at the first frame that is not idle, and only
   * there: it is rejected as aborted if that frame's abort flag is set, and
   * otherwise resolved with that frame's verdict. Without such a frame it is
   * still armed.
   */
  lemma {:induction false} RunSettlesAtFirstEvent(allowed: seq<nat>, base: Baseline, ticks: seq<Tick>, k: nat)
    requires k < |ticks|
    requires forall j :: 0 <= j < k ==> Idle(allowed, base, ticks[j])
    requires !Idle(allowed, base, ticks[k])
    ensures Run(allowed, base, Armed, ticks) ==
              if ticks[k].aborted then Rejected(Aborted)
              else Resolved(FirstMatch(allowed, base, ticks[k].current).value)
  {
    if k == 0 {
      SettledIsFinal(allowed, base, Step(allowed, base, Armed, ticks[0]), ticks[1..]);
    } else {
      assert Idle(allowed, base, ticks[0]);
      RunSettlesAtFirstEvent(allowed, base, ticks[1..], k - 1);
    }
  }

  /** Without an abort or a hit in any frame the session stays armed. */
  lemma {:induction false} RunStaysArmed(allowed: seq<nat>, base: Baseline, ticks: seq<Tick>)
    requires forall j :: 0 <= j < |ticks| ==> Idle(allowed, base, ticks[j])
    ensures Run(allowed, base, Armed, ticks) == Armed
  {
    if ticks != [] {
      assert Idle(allowed, base, ticks[0]);
      RunStaysArmed(allowed, base, ticks[1..]);
    }
  }

  /**
   * One detection session, from arming to its verdict. `Frame` is one run of
   * `checkLoop`: the abort flag is read before anything else, and a settled
   * session ignores further frames.
   */
  class Session {
    const allowed: seq<nat>
    const baseline: Baseline
    var phase: Phase

    /**
     * Arming. `source` is the first poll of the platform; when the platform
     * offers no poll at all the session is rejected before any frame runs.
     */
    constructor (allowed: seq<nat>, source: Option<Snapshot>)
      ensures this.allowed == allowed
      ensures source.None? ==> phase == Rejected(GamepadApiUnavailable)
      ensures source.Some? ==> phase == Armed
      ensures source.Some? ==>
                && baseline.axes.Keys == baseline.buttons.Keys
                && (forall idx :: idx in baseline.axes <==> idx in allowed && PadAt(source.value, idx).Some?)
                && (forall idx :: idx in baseline.axes ==>
                      && baseline.axes[idx] == PadAt(source.value, idx).value.axes
                      && baseline.buttons[idx] == PadAt(source.value, idx).value.buttons)
    {
      this.allowed := allowed;
      if source.None? {
        baseline := Baseline(map[], map[]);
        phase := Rejected(GamepadApiUnavailable);
      } else {
        var b := CaptureBaseline(allowed, source.value);
        baseline := b;
        phase := Armed;
      }
    }

    /** One frame, given whether the abort signal has fired and the live poll. */
    method Frame(aborted: bool, current: Snapshot)
      modifies this
      ensures phase == Step(allowed, baseline, old(phase), Tick(aborted, current))
      ensures old(phase) != Armed ==> phase == old(phase)
      ensures old(phase) == Armed && aborted ==> phase == Rejected(Aborted)
    {
      if phase != Armed {
        return;
      }
      if aborted {
        phase := Rejected(Aborted);
        return;
      }
      var r := ScanFrame(allowed, baseline, current);
      if r.Some? {
        phase := Resolved(r.value);
      }
    }
  }
}
