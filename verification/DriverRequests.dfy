// What each request is for, stated of one step of the driver and of whole runs: which calibrations
// are accepted, what start, stop, disable, activate and the large-touch requests set, and that a new
// start of the driver finds it so again.
module DriverRequests {
  import opened Wrappers
  import opened Lines
  import opened DriverSpec
  import opened DriverProofs
  import opened DriverLog
  import FivePoint
  import NinePoint

  // ---------- calibration requests ----------

  function Needed(nine: bool): nat {
    if nine then NINE else FIVE
  }

  // The layout check of as many points as a calibration has.
  function LayoutStatus(p: seq<Point>): (r: Status)
    requires |p| == FIVE || |p| == NINE
    ensures r == Success <==> if |p| == NINE then NinePoint.Layout(p) else FivePoint.Layout(p)
  {
    if (if |p| == NINE then NinePoint.Layout(p) else FivePoint.Layout(p)) then Success else InvalidParameter
  }

  // The request carries exactly its mode's number of points, all on the screen and well laid out.
  predicate GoodPoints(nine: bool, buffer: Option<seq<Point>>, inLength: nat) {
    && buffer.Some? && inLength == 4 * Needed(nine) && |buffer.value| == Needed(nine)
    && (forall i :: 0 <= i < |buffer.value| ==> buffer.value[i].x <= 32767 && buffer.value[i].y <= 32767)
    && LayoutStatus(buffer.value) == Success
  }

  lemma SameStatus(n: nat, p: seq<Point>, q: seq<Point>)
    requires (n == FIVE || n == NINE) && |p| == NINE && |q| == n && p[..n] == q
    ensures Check(n, p) == LayoutStatus(q)
  {
    if n == FIVE {
      assert forall i :: 0 <= i < 5 ==> p[i] == p[..n][i];
      SameFive(p, q);
    } else {
      assert p == p[..n];
    }
  }

  lemma AcceptIff(cpoints: seq<Point>, nine: bool, buffer: Option<seq<Point>>, inLength: nat, fp: bool)
    requires |cpoints| == NINE && (buffer.Some? ==> |buffer.value| == inLength / 4)
    ensures var (ok, p) := Accept(cpoints, Needed(nine), buffer, inLength, fp);
            && (ok <==> fp && GoodPoints(nine, buffer, inLength))
            && (ok ==> p[..Needed(nine)] == buffer.value && p[Needed(nine)..] == cpoints[Needed(nine)..])
  {
    var n := Needed(nine);
    if buffer.Some? && inLength == 4 * n && FirstBad(buffer.value) == n {
      var p := Overwrite(cpoints, buffer.value, n);
      assert p[..n] == buffer.value && p[n..] == cpoints[n..];
      SameStatus(n, p, buffer.value);
    }
  }

  // A calibration request is accepted if and only if its points are good and the floating-point
  // state can be saved to check them.  The points in use are then the given ones, and nothing but
  // the calibration changes, accepted or not.
  lemma CalibrationAcceptedIff(s: State, nine: bool, buffer: Option<seq<Point>>, inLength: nat, fp: bool, w: Writes)
    requires Enabled(s, SendPoints(nine, buffer, inLength, fp))
    ensures var s' := Next(s, SendPoints(nine, buffer, inLength, fp), w);
            && s'.numberPoints == Needed(nine) && |s'.cpoints| == NINE
            && (s'.checkPoints <==> fp && GoodPoints(nine, buffer, inLength))
            && (s'.checkPoints ==> s'.cpoints[..Needed(nine)] == buffer.value
                                   && s'.cpoints[Needed(nine)..] == s.cpoints[Needed(nine)..])
            && s' == s.(cpoints := s'.cpoints, numberPoints := s'.numberPoints, checkPoints := s'.checkPoints,
                        reg := s'.reg)
  {
    AcceptIff(s.cpoints, nine, buffer, inLength, fp);
  }

  // The registry, whichever writes fail.  Availability and count are written only after the points
  // were; a refusal withdraws the availability and leaves the points.
  lemma CalibrationRecorded(s: State, nine: bool, buffer: Option<seq<Point>>, inLength: nat, fp: bool, w: Writes)
    requires Enabled(s, SendPoints(nine, buffer, inLength, fp))
    ensures var s' := Next(s, SendPoints(nine, buffer, inLength, fp), w);
            && (!w.a ==> s'.reg == s.reg)
            && (w.a && fp && GoodPoints(nine, buffer, inLength) ==>
                  s'.reg == s.reg.(points := buffer,
                                   available := if w.b then Some(1) else s.reg.available,
                                   numberPoints := if w.c then Some(Needed(nine)) else s.reg.numberPoints))
            && (w.a && !(fp && GoodPoints(nine, buffer, inLength)) ==> s'.reg == s.reg.(available := Some(0)))
  {
    AcceptIff(s.cpoints, nine, buffer, inLength, fp);
  }

  // After an accepted request a new start of the driver finds the same points available; after a
  // refused one it finds none available.
  lemma CalibrationSurvives(s: State, nine: bool, buffer: Option<seq<Point>>, inLength: nat, fp: bool, env: Env,
                            w: Writes)
    requires Enabled(s, SendPoints(nine, buffer, inLength, fp)) && |env.beyond| == NINE && env.fp
    ensures var s' := Next(s, SendPoints(nine, buffer, inLength, fp), ALL_WRITTEN);
            && Bounded(s'.reg)
            && var b := Boot(s'.reg, env, w);
               && (b.checkPoints <==> fp && GoodPoints(nine, buffer, inLength))
               && (b.checkPoints ==> b.numberPoints == Needed(nine) && b.cpoints[..Needed(nine)] == buffer.value)
  {
    CalibrationRecorded(s, nine, buffer, inLength, fp, ALL_WRITTEN);
    var s' := Next(s, SendPoints(nine, buffer, inLength, fp), ALL_WRITTEN);
    assert Bounded(s'.reg);
    BootChecks(s'.reg, env, w);
    if fp && GoodPoints(nine, buffer, inLength) {
      var n := Needed(nine);
      LongCompleted(buffer.value, env.beyond, env.beyond, n);
      assert buffer.value[..n] == buffer.value;
      SameStatus(n, Completed(buffer.value, env.beyond, n), buffer.value);
    }
  }

  // Start-up withdraws a stored calibration if and only if it could read and check it and the check
  // fails; whatever it cannot check it leaves available for the next start.
  lemma BootWithdrawsIff(reg: Registry, env: Env, w: Writes)
    requires Bounded(reg) && |env.beyond| == NINE && reg.available != Some(0)
    ensures Boot(reg, env, w).reg.available == Some(0) <==>
            && Offered(reg) && env.fp && (Count(reg) == FIVE || Count(reg) == NINE) && w.a
            && Check(Count(reg), Completed(reg.points.value, env.beyond, Count(reg))) == InvalidParameter
    ensures Boot(reg, env, w).reg.available == Some(0) || Boot(reg, env, w).reg == reg
  {
  }

  // ---------- control requests ----------

  // After a start or stop request the calibration is on or off as asked, and so it is when the
  // driver starts again; nothing else changes.
  lemma StartIsAsAsked(s: State, on: bool, w: Writes)
    requires Enabled(s, SetStart(on))
    ensures var s' := Next(s, SetStart(on), w);
            && s'.start == on
            && s' == s.(start := on, reg := s.reg.(start := s'.reg.start))
            && (w.a ==> Flag(s'.reg.start) == on)
            && (!w.a ==> s'.reg == s.reg)
  {
  }

  lemma StartSurvives(s: State, on: bool, env: Env, w: Writes)
    requires Enabled(s, SetStart(on)) && Bounded(s.reg) && |env.beyond| == NINE
    ensures var s' := Next(s, SetStart(on), ALL_WRITTEN); Bounded(s'.reg) && Boot(s'.reg, env, w).start == on
  {
  }

  // The same number of devices, each changed as said.
  ghost predicate Each(devs: seq<Dev>, devs': seq<Dev>, change: (Dev, Dev) -> bool) {
    |devs'| == |devs| && forall i :: 0 <= i < |devs| ==> change(devs[i], devs'[i])
  }

  // After a disable request exactly the target device is inactive, and it is the one that will be
  // inactive when the devices are plugged in again.  Without a target device nothing happens.
  lemma DisablesTarget(s: State, w: Writes)
    requires WellFormed(s) && Enabled(s, Disable)
    ensures var s' := Next(s, Disable, w);
            match s.targetDevice
            case None => s' == s
            case Some(handle) =>
              && s' == s.(devs := s'.devs, reg := s.reg.(disabled := s'.reg.disabled))
              && Each(s.devs, s'.devs, (d: Dev, d': Dev) => d' == d.(active := d.handle != handle))
              && (!w.a ==> s'.reg == s.reg)
              && (w.a ==> forall i, other: UInt32 :: 0 <= i < |s.devs| && s.devs[i].handle == handle ==>
                    (Loaded(s'.reg, handle, other).active <==> other != s.devs[i].id))
  {
    if s.targetDevice.Some? {
      var k := Find(s.devs, s.targetDevice.value);
      assert forall i :: 0 <= i < |s.devs| && s.devs[i].handle == s.targetDevice.value ==> i == k;
    }
  }

  // After an activate request every device is active, and none will be inactive when plugged in.
  lemma ActivatesAll(s: State, w: Writes)
    requires Enabled(s, Activate)
    ensures var s' := Next(s, Activate, w);
            && s' == s.(devs := s'.devs, reg := s.reg.(disabled := s'.reg.disabled))
            && Each(s.devs, s'.devs, (d: Dev, d': Dev) => d' == d.(active := true))
            && (!w.a ==> s'.reg == s.reg)
            && (w.a ==> forall handle: nat, id: UInt32 :: Loaded(s'.reg, handle, id).active)
  {
  }

  // A large-touch request sets the flag of the target device and of no other, now and for when the
  // devices are plugged in again.
  lemma SetsLargeOfTarget(s: State, on: bool, w: Writes)
    requires WellFormed(s) && Enabled(s, SetLarge(on))
    ensures var s' := Next(s, SetLarge(on), w);
            match s.targetDevice
            case None => s' == s
            case Some(handle) =>
              && s' == s.(devs := s'.devs, reg := s.reg.(large := s'.reg.large))
              && Each(s.devs, s'.devs,
                         (d: Dev, d': Dev) => d' == d.(large := if d.handle == handle then on else d.large))
              && (!w.a ==> s'.reg == s.reg)
              && (w.a ==> forall i, other: UInt32 :: 0 <= i < |s.devs| && s.devs[i].handle == handle ==>
                    Loaded(s'.reg, handle, other).large ==
                    if other == s.devs[i].id then on else Loaded(s.reg, handle, other).large)
  {
    if s.targetDevice.Some? {
      var k := Find(s.devs, s.targetDevice.value);
      assert forall i :: 0 <= i < |s.devs| && s.devs[i].handle == s.targetDevice.value ==> i == k;
    }
  }

  // A remove-driver request leaves no device selected and changes nothing else; in particular the
  // target device stays named, which is why it is no part of an orderly run.
  lemma RemoveDriverDeselects(s: State, w: Writes)
    requires Enabled(s, RemoveDriver)
    ensures var s' := Next(s, RemoveDriver, w);
            s' == s.(devs := s'.devs) && Each(s.devs, s'.devs, (d: Dev, d': Dev) => d' == d.(target := false))
  {
  }

  // ---------- plugging and unplugging ----------

  // A device the registry knows nothing about starts active, unselected and with large touches let
  // through; the others keep their places and flags.
  lemma UnknownDevicePlugged(s: State, handle: nat, id: UInt32, w: Writes)
    requires Enabled(s, Plug(handle, id))
    requires s.reg.disabled != Some(id) && s.reg.target != Some(id) && id !in s.reg.large
    ensures Next(s, Plug(handle, id), w) == s.(devs := s.devs + [Dev(handle, id, true, false, true)])
  {
  }

  // The device the registry names is selected and becomes the target device.
  lemma NamedDevicePlugged(s: State, handle: nat, id: UInt32, w: Writes)
    requires Enabled(s, Plug(handle, id)) && s.reg.target == Some(id)
    ensures var s' := Next(s, Plug(handle, id), w);
            && s'.targetDevice == Some(handle) && s'.reg == s.reg
            && |s'.devs| == |s.devs| + 1 && s'.devs[..|s.devs|] == s.devs
            && s'.devs[|s.devs|].handle == handle && s'.devs[|s.devs|].id == id && s'.devs[|s.devs|].target
  {
  }

  // Exactly the unplugged device goes; the others keep their order and flags, the registry its
  // values, and the extra device is left as long as any device is.
  lemma UnplugsOne(s: State, handle: nat, w: Writes)
    requires WellFormed(s) && Enabled(s, Unplug(handle))
    ensures var s' := Next(s, Unplug(handle), w);
            && (forall d :: d in s'.devs <==> d in s.devs && d.handle != handle)
            && (exists k :: 0 <= k < |s.devs| && s'.devs == s.devs[..k] + s.devs[k + 1..])
            && s'.targetDevice == (if s.targetDevice == Some(handle) then None else s.targetDevice)
            && (s'.live <==> s'.devs != [])
            && s' == s.(devs := s'.devs, targetDevice := s'.targetDevice, live := s'.live)
  {
    CutOne(s.devs, Find(s.devs, handle));
  }

  lemma CutOne(devs: seq<Dev>, k: nat)
    requires k < |devs| && forall i, j :: 0 <= i < j < |devs| ==> devs[i].handle != devs[j].handle
    ensures forall d :: d in devs[..k] + devs[k + 1..] <==> d in devs && d.handle != devs[k].handle
  {
    var cut := devs[..k] + devs[k + 1..];
    assert forall i :: 0 <= i < |cut| ==> cut[i] == devs[if i < k then i else i + 1];
    forall d | d in devs && d.handle != devs[k].handle
      ensures d in cut
    {
      var i :| 0 <= i < |devs| && devs[i] == d;
      assert cut[if i < k then i else i - 1] == d;
    }
  }

  // ---------- over a run ----------

  lemma StartKept(s: State, e: Event, s': State)
    requires StepsTo(s, e, s') && !e.step.SetStart?
    ensures s'.start == s.start
  {
    if e.step.SendPoints? {
      SendKeepsDevices(s, Needed(e.step.nine), e.step.buffer, e.step.inLength, e.step.fp, e.writes);
    }
  }

  lemma StartAsked(s: State, e: Event, s': State)
    requires StepsTo(s, e, s') && e.step.SetStart?
    ensures s'.start == e.step.on
  {
  }

  // Calibration is on in a run exactly as the last start or stop request asked, whatever came since
  // and whichever writes failed.
  lemma {:induction false} StartIsLastAsked(states: seq<State>, run: seq<Event>, i: nat, k: nat)
    requires Run(states, run) && i < k <= |run| && run[i].step.SetStart?
    requires forall j :: i < j < k ==> !run[j].step.SetStart?
    ensures states[k].start == run[i].step.on
  {
    Ran(states, run, k - 1);
    if k > i + 1 {
      StartIsLastAsked(states, run, i, k - 1);
      StartKept(states[k - 1], run[k - 1], states[k]);
    } else {
      StartAsked(states[i], run[i], states[k]);
    }
  }

  lemma Ran(states: seq<State>, run: seq<Event>, k: nat)
    requires Run(states, run) && k < |run|
    ensures |states| == |run| + 1 && StepsTo(states[k], run[k], states[k + 1])
  {
  }

  // The calibration in use is the one the request asked for, if it was good.
  ghost predicate InUse(s: State, step: Step)
    requires step.SendPoints?
  {
    && |s.cpoints| == NINE && s.numberPoints == Needed(step.nine)
    && (s.checkPoints <==> step.fp && GoodPoints(step.nine, step.buffer, step.inLength))
    && (s.checkPoints ==> s.cpoints[..Needed(step.nine)] == step.buffer.value)
  }

  lemma CalibrationSent(s: State, e: Event, s': State)
    requires StepsTo(s, e, s') && e.step.SendPoints?
    ensures InUse(s', e.step)
  {
    CalibrationAcceptedIff(s, e.step.nine, e.step.buffer, e.step.inLength, e.step.fp, e.writes);
  }

  lemma CalibrationKept(s: State, e: Event, s': State, step: Step)
    requires StepsTo(s, e, s') && !e.step.SendPoints? && step.SendPoints? && InUse(s, step)
    ensures InUse(s', step)
  {
    OnlySendCalibrates(s, e, s');
  }

  // The points in use are those of the last calibration request, and available exactly when it was
  // good: with the start flag this is when reads of a selected, enabled device are calibrated.
  lemma {:induction false} CalibrationIsLastSent(states: seq<State>, run: seq<Event>, i: nat, k: nat)
    requires Run(states, run) && i < k <= |run| && run[i].step.SendPoints?
    requires forall j :: i < j < k ==> !run[j].step.SendPoints?
    ensures InUse(states[k], run[i].step)
  {
    Ran(states, run, k - 1);
    if k > i + 1 {
      CalibrationIsLastSent(states, run, i, k - 1);
      CalibrationKept(states[k - 1], run[k - 1], states[k], run[i].step);
    } else {
      CalibrationSent(states[i], run[i], states[k]);
    }
  }

  // ---------- values of other widths ----------

  // Start-up keeps the low byte of a flag and the low half of the count.
  lemma WideValuesTruncated(reg: Registry, env: Env, w: Writes)
    requires Bounded(reg) && |env.beyond| == NINE
    ensures reg.start == Some(0x100) ==> !Boot(reg, env, w).start
    ensures reg.start == Some(0x101) ==> Boot(reg, env, w).start
    ensures reg.available == Some(0x100) ==> !Boot(reg, env, w).checkPoints
    ensures reg.numberPoints == Some(0x1_0005) ==> Boot(reg, env, w).numberPoints == FIVE
  {
    BootKeepsLog(reg, env, w);
    BootChecks(reg, env, w);
  }
}
