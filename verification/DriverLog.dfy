// The registry as a log of the driver's state, and the identify protocol that depends on it.
module DriverLog {
  import opened Wrappers
  import opened Lines
  import opened DriverSpec
  import opened DriverProofs
  import FivePoint
  import NinePoint

  const ALL_WRITTEN := Writes(true, true, true)

  // The points start-up reads for a stored value.
  function Completed(points: seq<Point>, beyond: seq<Point>, n: nat): (p: seq<Point>)
    requires n <= NINE && n <= |points| + |beyond|
    ensures |p| == NINE
  {
    Overwrite(Zeroed(), ReadBack(points, beyond, n), n)
  }

  // Start-up will read the stored calibration.
  predicate Offered(reg: Registry) {
    Flag(reg.available) && Count(reg) != 0 && reg.points.Some? && LongEnough(reg.points.value, Count(reg))
  }

  // And can accept it, with suitable values beyond it if it is too short.
  ghost predicate Acceptable(reg: Registry)
    requires Bounded(reg)
  {
    Offered(reg) &&
    exists beyond: seq<Point> ::
      |beyond| == NINE && Check(Count(reg), Completed(reg.points.value, beyond, Count(reg))) == Success
  }

  predicate Short(reg: Registry)
    requires reg.points.Some?
  {
    |reg.points.value| < Count(reg)
  }

  // A stored calibration that can be accepted is stored in full, and the floating-point state can be
  // saved to check it.
  ghost predicate Whole(reg: Registry, fp: bool) {
    Bounded(reg) && (Acceptable(reg) ==> fp && !Short(reg))
  }

  ghost predicate CalibrationLogged(s: State) {
    && |s.cpoints| == NINE && Bounded(s.reg)
    && if s.checkPoints then
         && Flag(s.reg.available) && Count(s.reg) == s.numberPoints
         && (s.numberPoints != 0 ==>
               && Check(s.numberPoints, s.cpoints) == Success
               && s.reg.points.Some? && |s.reg.points.value| >= s.numberPoints
               && s.reg.points.value[..s.numberPoints] == s.cpoints[..s.numberPoints])
       else (Flag(s.reg.available) ==> Count(s.reg) != 0) && !Acceptable(s.reg)
  }

  ghost predicate FlagsLogged(s: State) {
    && s.start == Flag(s.reg.start)
    && forall i :: 0 <= i < |s.devs| ==>
         && s.devs[i].active == (s.reg.disabled != Some(s.devs[i].id))
         && s.devs[i].large == LargeFlag(s.reg, s.devs[i].id)
  }

  // While the event is signalled nobody is selected; otherwise the flags, the registry and the
  // target device name the same device.
  ghost predicate TargetLogged(s: State) {
    && (s.event ==> s.waiting)
    && (s.waiting && !s.event ==> s.reg.target.Some?)
    && forall i :: 0 <= i < |s.devs| ==>
         if s.event then !s.devs[i].target
         else
           && (s.devs[i].target <==> s.reg.target == Some(s.devs[i].id))
           && (s.devs[i].target <==> s.targetDevice == Some(s.devs[i].handle))
  }

  ghost predicate Faithful(s: State) {
    WellFormed(s) && CalibrationLogged(s) && FlagsLogged(s) && TargetLogged(s)
  }

  // A step of a run whose writes succeed and that does not remove the driver, nor plug in the
  // device the registry still names while the event is signalled.
  predicate Orderly(s: State, e: Event) {
    && e.writes == ALL_WRITTEN
    && !e.step.RemoveDriver?
    && (e.step.Plug? ==> !(s.event && s.reg.target == Some(e.step.id)))
  }

  // ---------- the calibration part ----------

  lemma CheckPrefix(n: nat, p: seq<Point>, p': seq<Point>)
    requires |p| == NINE && |p'| == NINE && n <= NINE && p[..n] == p'[..n]
    ensures Check(n, p) == Check(n, p')
  {
    if n == FIVE {
      assert forall i :: 0 <= i < 5 ==> p[i] == p[..n][i] && p'[i] == p'[..n][i];
      SameFive(p, p');
    } else if n == NINE {
      assert p == p[..n] && p' == p'[..n];
    }
  }

  lemma SameFive(p: seq<Point>, p': seq<Point>)
    requires |p| >= 5 && |p'| >= 5 && forall i :: 0 <= i < 5 ==> p[i] == p'[i]
    ensures FivePoint.Layout(p) == FivePoint.Layout(p')
  {
    assert p[0] == p'[0] && p[1] == p'[1] && p[2] == p'[2] && p[3] == p'[3] && p[4] == p'[4];
  }

  // What lies beyond a value that is long enough does not matter.
  lemma LongCompleted(points: seq<Point>, beyond: seq<Point>, beyond': seq<Point>, n: nat)
    requires n <= NINE && n <= |points|
    ensures Completed(points, beyond, n) == Completed(points, beyond', n)
    ensures Completed(points, beyond, n)[..n] == points[..n]
  {
    assert ReadBack(points, beyond, n) == points[..n] == ReadBack(points, beyond', n);
  }

  // What start-up makes of the stored calibration.
  lemma BootChecks(reg: Registry, env: Env, w: Writes)
    requires Bounded(reg) && |env.beyond| == NINE
    ensures var b := Boot(reg, env, w); var n := Count(reg);
            && b.reg == reg.(available := b.reg.available) && b.numberPoints == n
            && (b.checkPoints <==>
                  Flag(reg.available) && (n != 0 ==>
                    Offered(reg) && env.fp && Check(n, Completed(reg.points.value, env.beyond, n)) == Success))
            && (b.checkPoints && n != 0 ==> b.cpoints == Completed(reg.points.value, env.beyond, n))
            && (b.reg.available == reg.available || b.reg.available == Some(0))
            && (b.checkPoints || !env.fp ==> b.reg.available == reg.available)
  {
  }

  lemma Accepted(reg: Registry, beyond: seq<Point>)
    requires Bounded(reg) && Offered(reg) && |beyond| == NINE
    ensures Check(Count(reg), Completed(reg.points.value, beyond, Count(reg))) == Success ==> Acceptable(reg)
    ensures Acceptable(reg) && !Short(reg) ==>
              Check(Count(reg), Completed(reg.points.value, beyond, Count(reg))) == Success
  {
    if Acceptable(reg) && !Short(reg) {
      var other: seq<Point> :|
        |other| == NINE && Check(Count(reg), Completed(reg.points.value, other, Count(reg))) == Success;
      LongCompleted(reg.points.value, beyond, other, Count(reg));
    }
  }

  lemma BootCalibrationLogged(reg: Registry, env: Env, w: Writes, b: State)
    requires Whole(reg, env.fp) && |env.beyond| == NINE && b == Boot(reg, env, w)
    ensures CalibrationLogged(b)
  {
    BootChecks(reg, env, w);
    if Offered(reg) {
      Accepted(reg, env.beyond);
      if !Short(reg) {
        LongCompleted(reg.points.value, env.beyond, env.beyond, Count(reg));
      }
    }
  }

  lemma BootFaithful(reg: Registry, env: Env, w: Writes, b: State)
    requires Whole(reg, env.fp) && |env.beyond| == NINE && b == Boot(reg, env, w)
    ensures Faithful(b)
  {
    BootDevicesLogged(reg, env, w, b);
    BootCalibrationLogged(reg, env, w, b);
  }

  lemma BootDevicesLogged(reg: Registry, env: Env, w: Writes, b: State)
    requires Bounded(reg) && |env.beyond| == NINE && b == Boot(reg, env, w)
    ensures DevicesLogged(b)
  {
    BootKeepsLog(reg, env, w);
  }

  // Start-up can come to the state, whatever lies beyond the stored value and whichever write fails.
  ghost predicate BootsTo(reg: Registry, fp: bool, b: State)
    requires Bounded(reg)
  {
    exists beyond: seq<Point>, w :: |beyond| == NINE && b == Boot(reg, Env(fp, beyond), w)
  }

  lemma BootUnlogged(reg: Registry, fp: bool) returns (b: State)
    requires Bounded(reg) && !Whole(reg, fp)
    ensures BootsTo(reg, fp, b) && !CalibrationLogged(b)
  {
    var beyond: seq<Point> :|
      |beyond| == NINE && Check(Count(reg), Completed(reg.points.value, beyond, Count(reg))) == Success;
    b := Boot(reg, Env(fp, beyond), ALL_WRITTEN);
    BootChecks(reg, Env(fp, beyond), ALL_WRITTEN);
  }

  // Every state start-up can come to has the registry as its log, if and only if the registry is whole.
  lemma BootFaithfulIff(reg: Registry, fp: bool)
    requires Bounded(reg)
    ensures (forall b | BootsTo(reg, fp, b) :: Faithful(b)) <==> Whole(reg, fp)
  {
    if Whole(reg, fp) {
      forall b | BootsTo(reg, fp, b)
        ensures Faithful(b)
      {
        var beyond: seq<Point>, w :| |beyond| == NINE && b == Boot(reg, Env(fp, beyond), w);
        BootFaithful(reg, Env(fp, beyond), w, b);
      }
    } else {
      var b := BootUnlogged(reg, fp);
    }
  }

  // The registry of a driver that keeps a log is whole, so the driver can start from it again.
  lemma LogIsWhole(s: State)
    requires Faithful(s)
    ensures Whole(s.reg, true)
  {
  }

  // Start-up is settled by the registry, if and only if no value too short by at most three points
  // can be completed to an accepted layout.
  lemma BootSettledIff(reg: Registry, w: Writes)
    requires Bounded(reg)
    ensures (forall b: seq<Point>, c: seq<Point> :: |b| == NINE && |c| == NINE ==>
               Boot(reg, Env(true, b), w).checkPoints == Boot(reg, Env(true, c), w).checkPoints)
       <==> !(Acceptable(reg) && Short(reg))
  {
    if Acceptable(reg) && Short(reg) {
      var b: seq<Point> :| |b| == NINE && Check(Count(reg), Completed(reg.points.value, b, Count(reg))) == Success;
      var c := BadCompletion(reg.points.value, Count(reg));
      BootChecks(reg, Env(true, b), w);
      BootChecks(reg, Env(true, c), w);
    } else {
      forall b: seq<Point>, c: seq<Point> | |b| == NINE && |c| == NINE
        ensures Boot(reg, Env(true, b), w).checkPoints == Boot(reg, Env(true, c), w).checkPoints
      {
        BootChecks(reg, Env(true, b), w);
        BootChecks(reg, Env(true, c), w);
        if Offered(reg) {
          Accepted(reg, b);
          Accepted(reg, c);
        }
      }
    }
  }

  // Some values beyond a value that is too short spoil the layout: the first point over again where
  // the centre should be, or an inner point on the left edge of the screen.
  lemma BadCompletion(points: seq<Point>, n: nat) returns (beyond: seq<Point>)
    requires n <= NINE && |points| < n <= |points| + 3
    ensures |beyond| == NINE && Check(n, Completed(points, beyond, n)) == InvalidParameter
  {
    if n == FIVE {
      beyond := seq(NINE, _ => points[0]);
      var p := Completed(points, beyond, n);
      assert p[0] == points[0] && p[4] == points[0];
      CentreOnCorner(p);
    } else {
      beyond := seq(NINE, _ => Point(0, 0));
      if n == NINE {
        assert Completed(points, beyond, n)[8] == Point(0, 0);
      }
    }
  }

  lemma CentreOnCorner(p: seq<Point>)
    requires |p| == NINE && p[4] == p[0]
    ensures !FivePoint.Layout(p)
  {
    if p[0].y < p[3].y {
      ThroughPoints(p[0], p[3]);
    }
  }

  // The first three points of an accepted layout, and what would complete them.
  lemma Completing() returns (points: seq<Point>, b: seq<Point>)
    ensures points == FivePoint.LEANING[..3] && |points| == 3 && |b| == NINE
    ensures Check(FIVE, Completed(points, b, FIVE)) == Success
  {
    points := FivePoint.LEANING[..3];
    b := [Point(0, 100), Point(25, 50)] + seq(7, _ => Point(0, 0));
    var p := Completed(points, b, FIVE);
    assert forall i :: 0 <= i < 5 ==> p[i] == FivePoint.LEANING[i];
    FivePoint.LeaningLayoutFolds();
    SameFive(FivePoint.LEANING, p);
  }

  // A stored value of three points of a five-point calibration, with the count and the flag that go
  // with five: it passes the size test, and what lies beyond it decides whether it is accepted.
  lemma ShortValueUndecided(w: Writes) returns (reg: Registry, b: seq<Point>, c: seq<Point>)
    ensures Bounded(reg) && |b| == NINE && |c| == NINE
    ensures reg.points == Some(FivePoint.LEANING[..3]) && Count(reg) == FIVE
    ensures Boot(reg, Env(true, b), w).checkPoints && !Boot(reg, Env(true, c), w).checkPoints
  {
    var points;
    points, b := Completing();
    c := BadCompletion(points, FIVE);
    reg := Registry(Some(FIVE), Some(1), Some(points), None, None, None, map[]);
    BootChecks(reg, Env(true, b), w);
    BootChecks(reg, Env(true, c), w);
  }

  lemma SendCalibrationLogged(s: State, n: nat, buffer: Option<seq<Point>>, inLength: nat, fp: bool)
    requires CalibrationLogged(s) && (n == FIVE || n == NINE)
    requires buffer.Some? ==> |buffer.value| == inLength / 4
    ensures CalibrationLogged(Send(s, n, buffer, inLength, fp, ALL_WRITTEN))
  {
    var (ok, p) := Accept(s.cpoints, n, buffer, inLength, fp);
    SentIsLog(Send(s, n, buffer, inLength, fp, ALL_WRITTEN), n, ok, p);
  }

  lemma SentIsLog(s: State, n: nat, ok: bool, p: seq<Point>)
    requires (n == FIVE || n == NINE) && |p| == NINE && (ok ==> Check(n, p) == Success) && Bounded(s.reg)
    requires s.cpoints == p && s.numberPoints == n && s.checkPoints == ok
    requires s.reg.available == Some(if ok then 1 else 0)
    requires ok ==> s.reg.points == Some(p[..n]) && s.reg.numberPoints == Some(n)
    ensures CalibrationLogged(s)
  {
    assert ok ==> s.reg.points.value[..n] == p[..n];
  }

  lemma StepCalibrationLogged(s: State, e: Event, s': State)
    requires CalibrationLogged(s) && StepsTo(s, e, s') && Orderly(s, e)
    ensures CalibrationLogged(s')
  {
    if e.step.SendPoints? {
      SendCalibrationLogged(s, if e.step.nine then NINE else FIVE, e.step.buffer, e.step.inLength, e.step.fp);
    } else {
      OnlySendCalibrates(s, e, s');
    }
  }

  // ---------- the flags and the selection, step by step ----------

  ghost predicate DevicesLogged(s: State) {
    WellFormed(s) && FlagsLogged(s) && TargetLogged(s)
  }

  lemma SendLogged(s: State, n: nat, buffer: Option<seq<Point>>, inLength: nat, fp: bool, w: Writes)
    requires FlagsLogged(s) && TargetLogged(s)
    requires |s.cpoints| == NINE && (n == FIVE || n == NINE)
    requires buffer.Some? ==> |buffer.value| == inLength / 4
    ensures FlagsLogged(Send(s, n, buffer, inLength, fp, w)) && TargetLogged(Send(s, n, buffer, inLength, fp, w))
  {
    var s' := Send(s, n, buffer, inLength, fp, w);
    assert s'.devs == s.devs && s'.targetDevice == s.targetDevice && s'.event == s.event && s'.waiting == s.waiting
        && s'.start == s.start;
    assert s'.reg.disabled == s.reg.disabled && s'.reg.large == s.reg.large && s'.reg.target == s.reg.target
        && s'.reg.start == s.reg.start;
  }

  lemma StartedLogged(s: State, on: bool)
    requires FlagsLogged(s) && TargetLogged(s)
    ensures FlagsLogged(Started(s, on, ALL_WRITTEN)) && TargetLogged(Started(s, on, ALL_WRITTEN))
  {
  }

  lemma DisabledLogged(s: State, handle: nat)
    requires DevicesLogged(s) && Present(s, handle)
    ensures FlagsLogged(Disabled(s, handle, ALL_WRITTEN)) && TargetLogged(Disabled(s, handle, ALL_WRITTEN))
  {
  }

  lemma ActivatedLogged(s: State)
    requires FlagsLogged(s) && TargetLogged(s)
    ensures FlagsLogged(Activated(s, ALL_WRITTEN)) && TargetLogged(Activated(s, ALL_WRITTEN))
  {
  }

  lemma LargeLogged(s: State, handle: nat, on: bool)
    requires DevicesLogged(s) && Present(s, handle)
    ensures FlagsLogged(LargeSet(s, handle, on, ALL_WRITTEN)) && TargetLogged(LargeSet(s, handle, on, ALL_WRITTEN))
  {
  }

  lemma IdentifyBegunLogged(s: State)
    requires DevicesLogged(s) && !s.waiting
    ensures FlagsLogged(IdentifyBegun(s, ALL_WRITTEN)) && TargetLogged(IdentifyBegun(s, ALL_WRITTEN))
  {
  }

  lemma IdentifyEndedLogged(s: State)
    requires DevicesLogged(s) && s.waiting
    ensures FlagsLogged(IdentifyEnded(s, ALL_WRITTEN)) && TargetLogged(IdentifyEnded(s, ALL_WRITTEN))
  {
  }

  lemma ReadLogged(s: State, handle: nat)
    requires DevicesLogged(s) && Present(s, handle)
    ensures FlagsLogged(ReadBy(s, handle, ALL_WRITTEN)) && TargetLogged(ReadBy(s, handle, ALL_WRITTEN))
  {
  }

  lemma PluggedLogged(s: State, handle: nat, id: UInt32)
    requires DevicesLogged(s) && !Present(s, handle) && NewId(s.devs, id)
    requires !(s.event && s.reg.target == Some(id))
    ensures FlagsLogged(Plugged(s, handle, id)) && TargetLogged(Plugged(s, handle, id))
  {
  }

  lemma UnpluggedLogged(s: State, handle: nat)
    requires DevicesLogged(s) && Present(s, handle)
    ensures FlagsLogged(Unplugged(s, handle)) && TargetLogged(Unplugged(s, handle))
  {
    var k := Find(s.devs, handle);
    var s' := Unplugged(s, handle);
    assert forall i :: 0 <= i < |s'.devs| ==> s'.devs[i] == s.devs[if i < k then i else i + 1];
  }

  lemma StepDevicesLogged(s: State, e: Event, s': State)
    requires DevicesLogged(s) && StepsTo(s, e, s') && Orderly(s, e)
    ensures FlagsLogged(s') && TargetLogged(s')
  {
    match e.step
    case SendPoints(nine, buffer, inLength, fp) =>
      SendLogged(s, if nine then NINE else FIVE, buffer, inLength, fp, ALL_WRITTEN);
    case SetStart(on) => StartedLogged(s, on);
    case Disable =>
      if s.targetDevice.Some? {
        DisabledLogged(s, s.targetDevice.value);
      }
    case Activate => ActivatedLogged(s);
    case SetLarge(on) =>
      if s.targetDevice.Some? {
        LargeLogged(s, s.targetDevice.value, on);
      }
    case IdentifyBegin => IdentifyBegunLogged(s);
    case IdentifyEnd => IdentifyEndedLogged(s);
    case Read(handle) => ReadLogged(s, handle);
    case Plug(handle, id) => PluggedLogged(s, handle, id);
    case Unplug(handle) => UnpluggedLogged(s, handle);
  }

  lemma StepFaithful(s: State, e: Event, s': State)
    requires Faithful(s) && StepsTo(s, e, s') && Orderly(s, e)
    ensures Faithful(s')
  {
    StepWellFormed(s, e, s');
    StepCalibrationLogged(s, e, s');
    StepDevicesLogged(s, e, s');
  }

  ghost predicate OrderlyRun(states: seq<State>, run: seq<Event>) {
    Run(states, run) && forall i :: 0 <= i < |run| ==> Orderly(states[i], run[i])
  }

  // Along every orderly run from a whole registry the registry stays a log of the state.
  lemma {:induction false} AlwaysFaithful(reg: Registry, env: Env, w: Writes, states: seq<State>, run: seq<Event>,
                                          k: nat)
    requires Whole(reg, env.fp) && |env.beyond| == NINE
    requires OrderlyRun(states, run) && states[0] == Boot(reg, env, w) && k <= |run|
    ensures Faithful(states[k])
  {
    if k == 0 {
      BootFaithful(reg, env, w, states[0]);
    } else {
      AlwaysFaithful(reg, env, w, states, run, k - 1);
      StepFaithful(states[k - 1], run[k - 1], states[k]);
    }
  }

  // The flags and the selection are logged from any bounded registry on.
  lemma {:induction false} AlwaysDevicesLogged(reg: Registry, env: Env, w: Writes, states: seq<State>, run: seq<Event>,
                                               k: nat)
    requires Bounded(reg) && |env.beyond| == NINE
    requires OrderlyRun(states, run) && states[0] == Boot(reg, env, w) && k <= |run|
    ensures DevicesLogged(states[k])
  {
    if k == 0 {
      BootDevicesLogged(reg, env, w, states[0]);
    } else {
      AlwaysDevicesLogged(reg, env, w, states, run, k - 1);
      StepWellFormed(states[k - 1], run[k - 1], states[k]);
      StepDevicesLogged(states[k - 1], run[k - 1], states[k]);
    }
  }

  // ---------- reloading ----------

  function PlugAll(b: State, devs: seq<Dev>): (r: State)
    ensures r == b.(devs := r.devs, targetDevice := r.targetDevice)
  {
    if devs == [] then b
    else
      var d := devs[|devs| - 1];
      Plugged(PlugAll(b, devs[..|devs| - 1]), d.handle, d.id)
  }

  // A start of the driver with the given devices added one after the other.
  function Reload(reg: Registry, env: Env, w: Writes, devs: seq<Dev>): State
    requires Bounded(reg) && |env.beyond| == NINE
  {
    PlugAll(Boot(reg, env, w), devs)
  }

  // The first k logged devices are loaded, and the selected one of them is the target device.
  ghost predicate LoadedPart(s: State, b: State, r: State, k: nat)
    requires k <= |s.devs|
  {
    && r == b.(devs := s.devs[..k], targetDevice := r.targetDevice)
    && (forall i :: 0 <= i < k && s.devs[i].target ==> r.targetDevice == Some(s.devs[i].handle))
    && (r.targetDevice.Some? ==> exists i :: 0 <= i < k && s.devs[i].target)
  }

  // Loading the logged devices gives back their flags, and the selected one as target device.
  lemma {:induction false} PlugAllDevices(s: State, b: State, k: nat)
    requires FlagsLogged(s) && TargetLogged(s) && !s.event && k <= |s.devs|
    requires b.devs == [] && b.targetDevice.None? && b.reg == s.reg.(available := b.reg.available)
    ensures LoadedPart(s, b, PlugAll(b, s.devs[..k]), k)
  {
    if k == 0 {
      assert s.devs[..k] == [];
    } else {
      PlugAllDevices(s, b, k - 1);
      assert s.devs[..k][..k - 1] == s.devs[..k - 1];
      PlugNext(s, b, PlugAll(b, s.devs[..k - 1]), k - 1);
    }
  }

  lemma PlugNext(s: State, b: State, r: State, k: nat)
    requires FlagsLogged(s) && TargetLogged(s) && !s.event && k < |s.devs|
    requires b.reg == s.reg.(available := b.reg.available) && LoadedPart(s, b, r, k)
    ensures LoadedPart(s, b, Plugged(r, s.devs[k].handle, s.devs[k].id), k + 1)
  {
    LoadedAsLogged(s, b.reg, k);
    assert s.devs[..k + 1] == s.devs[..k] + [s.devs[k]];
    var r' := Plugged(r, s.devs[k].handle, s.devs[k].id);
    assert r'.devs == s.devs[..k + 1];
    if s.devs[k].target {
      forall i | 0 <= i < k && s.devs[i].target
        ensures s.devs[i].handle == s.devs[k].handle
      {
        assert s.targetDevice == Some(s.devs[i].handle);
      }
    }
  }

  lemma LoadedAsLogged(s: State, reg: Registry, i: nat)
    requires FlagsLogged(s) && TargetLogged(s) && !s.event && i < |s.devs| && reg == s.reg.(available := reg.available)
    ensures Loaded(reg, s.devs[i].handle, s.devs[i].id) == s.devs[i]
  {
  }

  lemma BootKeepsLog(reg: Registry, env: Env, w: Writes)
    requires Bounded(reg) && |env.beyond| == NINE
    ensures var b := Boot(reg, env, w);
            && b.devs == [] && b.targetDevice.None? && b.start == Flag(reg.start)
            && b.reg == reg.(available := b.reg.available)
  {
  }

  lemma ReloadCalibration(s: State, env: Env, w: Writes)
    requires CalibrationLogged(s) && |env.beyond| == NINE
    ensures var b := Boot(s.reg, env, w);
            && (b.checkPoints == s.checkPoints <==> env.fp || !s.checkPoints || s.numberPoints == 0)
            && (b.checkPoints ==> s.checkPoints && b.numberPoints == s.numberPoints && s.numberPoints <= NINE
                                  && b.cpoints[..s.numberPoints] == s.cpoints[..s.numberPoints])
  {
    BootChecks(s.reg, env, w);
    var n := Count(s.reg);
    if Offered(s.reg) {
      if s.checkPoints {
        LongCompleted(s.reg.points.value, env.beyond, env.beyond, n);
        CheckPrefix(n, Completed(s.reg.points.value, env.beyond, n), s.cpoints);
      } else {
        Accepted(s.reg, env.beyond);
      }
    }
  }

  // The registry is a faithful log: outside an identify window, starting again from it with the
  // same devices gives back the start flag, every device's flags and the selected device, and the
  // available points with their count.  The availability itself comes back if and only if the
  // floating-point state can be saved or there are no points to check.
  lemma ReloadRestores(s: State, env: Env, w: Writes)
    requires Faithful(s) && !s.event && |env.beyond| == NINE
    ensures var r := Reload(s.reg, env, w, s.devs);
            && r.devs == s.devs && r.targetDevice == s.targetDevice && r.start == s.start
            && (r.checkPoints == s.checkPoints <==> env.fp || !s.checkPoints || s.numberPoints == 0)
            && (r.checkPoints ==> s.checkPoints && r.numberPoints == s.numberPoints && s.numberPoints <= NINE
                                  && r.cpoints[..s.numberPoints] == s.cpoints[..s.numberPoints])
  {
    var b := Boot(s.reg, env, w);
    BootKeepsLog(s.reg, env, w);
    PlugAllDevices(s, b, |s.devs|);
    ReloadCalibration(s, env, w);
    assert s.devs[..|s.devs|] == s.devs;
    SameTarget(s, PlugAll(b, s.devs).targetDevice);
  }

  lemma SameTarget(s: State, t: Option<nat>)
    requires WellFormed(s) && TargetLogged(s) && !s.event
    requires forall i :: 0 <= i < |s.devs| && s.devs[i].target ==> t == Some(s.devs[i].handle)
    requires t.Some? ==> exists i :: 0 <= i < |s.devs| && s.devs[i].target
    ensures t == s.targetDevice
  {
    if s.targetDevice.Some? {
      assert s.devs[Find(s.devs, s.targetDevice.value)].target;
    }
  }

  // ---------- reads use a checked calibration ----------

  // In every run, whenever DispatchRead installs the completion routine for an enabled device, the
  // points it will apply are a checked layout of the mode that the count selects, or no mode is.
  lemma ReadUsesCheckedPoints(reg: Registry, env: Env, w: Writes, states: seq<State>, run: seq<Event>, k: nat, i: nat)
    requires Bounded(reg) && |env.beyond| == NINE
    requires Run(states, run) && states[0] == Boot(reg, env, w) && k <= |run| && i < |states[k].devs|
    requires states[k].devs[i].target && (!states[k].devs[i].active || (states[k].start && states[k].checkPoints))
    ensures var s := states[k];
            s.devs[i].active ==>
              && |s.cpoints| == NINE && s.numberPoints in {0, FIVE, NINE}
              && (s.numberPoints == FIVE ==> FivePoint.Layout(s.cpoints))
              && (s.numberPoints == NINE ==> NinePoint.Layout(s.cpoints))
  {
    AlwaysCalibrated(reg, env, w, states, run, k);
  }
}
