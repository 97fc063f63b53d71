// What every step of the driver keeps, over all runs: the stored calibration is always a checked
// one, at most one device is selected, and the registry is a faithful log of the state.
module DriverProofs {
  import opened Wrappers
  import opened Lines
  import opened DriverSpec

  // ---------- the stored calibration ----------

  // What a read may rely on before it applies a calibration.
  ghost predicate Calibrated(s: State) {
    |s.cpoints| == NINE && (s.checkPoints && s.numberPoints != 0 ==> Check(s.numberPoints, s.cpoints) == Success)
  }

  lemma BootCalibrated(reg: Registry, env: Env, w: Writes)
    requires Bounded(reg) && |env.beyond| == NINE
    ensures Calibrated(Boot(reg, env, w)) && WellFormed(Boot(reg, env, w))
  {
  }

  lemma StepCalibrated(s: State, e: Event, s': State)
    requires Calibrated(s) && StepsTo(s, e, s')
    ensures Calibrated(s')
  {
    if e.step.SendPoints? {
      var step := e.step;
      SendCalibrated(s, if step.nine then NINE else FIVE, step.buffer, step.inLength, step.fp, e.writes);
    } else {
      OnlySendCalibrates(s, e, s');
    }
  }

  // Nothing about the calibration changes, neither in memory nor in the registry.
  ghost predicate SameCalibration(s: State, s': State) {
    && s'.cpoints == s.cpoints && s'.numberPoints == s.numberPoints && s'.checkPoints == s.checkPoints
    && s'.reg.points == s.reg.points && s'.reg.available == s.reg.available && s'.reg.numberPoints == s.reg.numberPoints
  }

  lemma ControlKeepsCalibration(s: State, handle: nat, on: bool, w: Writes)
    requires Present(s, handle)
    ensures SameCalibration(s, Disabled(s, handle, w)) && SameCalibration(s, LargeSet(s, handle, on, w))
  {
  }

  lemma SelectionKeepsCalibration(s: State, w: Writes)
    ensures SameCalibration(s, IdentifyBegun(s, w)) && SameCalibration(s, IdentifyEnded(s, w))
    ensures SameCalibration(s, Activated(s, w))
  {
  }

  lemma DeviceKeepsCalibration(s: State, handle: nat, w: Writes)
    requires Present(s, handle)
    ensures SameCalibration(s, ReadBy(s, handle, w)) && SameCalibration(s, Unplugged(s, handle))
  {
  }

  lemma OnlySendCalibrates(s: State, e: Event, s': State)
    requires StepsTo(s, e, s') && !e.step.SendPoints?
    ensures SameCalibration(s, s')
  {
    match e.step
    case SetStart(on) =>
    case Disable =>
      if s.targetDevice.Some? { ControlKeepsCalibration(s, s.targetDevice.value, true, e.writes); }
    case Activate => SelectionKeepsCalibration(s, e.writes);
    case SetLarge(on) =>
      if s.targetDevice.Some? { ControlKeepsCalibration(s, s.targetDevice.value, on, e.writes); }
    case RemoveDriver =>
    case IdentifyBegin => SelectionKeepsCalibration(s, e.writes);
    case IdentifyEnd => SelectionKeepsCalibration(s, e.writes);
    case Read(handle) => DeviceKeepsCalibration(s, handle, e.writes);
    case Plug(handle, id) =>
    case Unplug(handle) => DeviceKeepsCalibration(s, handle, e.writes);
  }

  lemma SendCalibrated(s: State, n: nat, buffer: Option<seq<Point>>, inLength: nat, fp: bool, w: Writes)
    requires |s.cpoints| == NINE && (n == FIVE || n == NINE)
    requires buffer.Some? ==> |buffer.value| == inLength / 4
    ensures Calibrated(Send(s, n, buffer, inLength, fp, w))
  {
    var (ok, p) := Accept(s.cpoints, n, buffer, inLength, fp);
    assert ok ==> Check(n, p) == Success;
  }

  // At every boundary of every run, from an arbitrary bounded registry and with any write failing,
  // available points are a checked layout of their mode, although the count and the points are
  // overwritten before they are checked.
  lemma {:induction false} AlwaysCalibrated(reg: Registry, env: Env, w: Writes, states: seq<State>, run: seq<Event>,
                                            k: nat)
    requires Bounded(reg) && |env.beyond| == NINE
    requires Run(states, run) && states[0] == Boot(reg, env, w) && k <= |run|
    ensures Calibrated(states[k])
  {
    if k == 0 {
      BootCalibrated(reg, env, w);
    } else {
      AlwaysCalibrated(reg, env, w, states, run, k - 1);
      StepCalibrated(states[k - 1], run[k - 1], states[k]);
    }
  }

  // ---------- devices and handles ----------

  lemma FindAt(devs: seq<Dev>, i: nat)
    requires i < |devs| && forall j :: 0 <= j < i ==> devs[j].handle != devs[i].handle
    ensures Find(devs, devs[i].handle) == i
  {
  }

  lemma SameHandles(devs: seq<Dev>, devs': seq<Dev>, handle: nat)
    requires |devs'| == |devs| && forall i :: 0 <= i < |devs| ==> devs'[i].handle == devs[i].handle
    ensures Find(devs', handle) == Find(devs, handle)
  {
  }

  lemma CutHandles(devs: seq<Dev>, k: nat, handle: nat)
    requires k < |devs| && devs[k].handle != handle
    ensures Find(devs[..k] + devs[k + 1..], handle) < |devs| - 1 <==> Find(devs, handle) < |devs|
  {
    var cut := devs[..k] + devs[k + 1..];
    assert forall i :: 0 <= i < |cut| ==> cut[i] == devs[if i < k then i else i + 1];
    var i := Find(devs, handle);
    if i < |devs| {
      assert cut[if i < k then i else i - 1] == devs[i];
    }
  }

  // The same devices, in the same places, with other flags.
  ghost predicate SameDevices(devs: seq<Dev>, devs': seq<Dev>) {
    |devs'| == |devs| && forall i :: 0 <= i < |devs| ==> devs'[i].handle == devs[i].handle && devs'[i].id == devs[i].id
  }

  lemma SendKeepsDevices(s: State, n: nat, buffer: Option<seq<Point>>, inLength: nat, fp: bool, w: Writes)
    requires |s.cpoints| == NINE && (n == FIVE || n == NINE)
    requires buffer.Some? ==> |buffer.value| == inLength / 4
    ensures var s' := Send(s, n, buffer, inLength, fp, w);
            s' == s.(cpoints := s'.cpoints, numberPoints := s'.numberPoints, checkPoints := s'.checkPoints,
                     reg := s'.reg)
            && |s'.cpoints| == NINE
  {
  }

  // Plugging and unplugging aside, a step keeps the devices, and selects only a present one.
  lemma StepKeepsDevices(s: State, e: Event, s': State)
    requires StepsTo(s, e, s') && !e.step.Plug? && !e.step.Unplug?
    ensures SameDevices(s.devs, s'.devs)
  {
    if e.step.SendPoints? {
      SendKeepsDevices(s, if e.step.nine then NINE else FIVE, e.step.buffer, e.step.inLength, e.step.fp, e.writes);
    }
  }

  lemma StepKeepsTarget(s: State, e: Event, s': State)
    requires StepsTo(s, e, s') && !e.step.Plug? && !e.step.Unplug?
    ensures s'.targetDevice.Some? ==> Present(s, s'.targetDevice.value)
    ensures |s'.cpoints| == NINE
  {
    if e.step.SendPoints? {
      SendKeepsDevices(s, if e.step.nine then NINE else FIVE, e.step.buffer, e.step.inLength, e.step.fp, e.writes);
    }
  }

  lemma PlugWellFormed(s: State, handle: nat, id: UInt32)
    requires WellFormed(s) && !Present(s, handle) && NewId(s.devs, id)
    ensures WellFormed(Plugged(s, handle, id))
  {
    var s' := Plugged(s, handle, id);
    if s.targetDevice.Some? {
      FindAt(s'.devs, Find(s.devs, s.targetDevice.value));
    }
    FindAt(s'.devs, |s.devs|);
  }

  lemma UnplugWellFormed(s: State, e: Event, s': State)
    requires WellFormed(s) && StepsTo(s, e, s') && e.step.Unplug?
    ensures WellFormed(s')
  {
    var k := Find(s.devs, e.step.handle);
    assert forall i :: 0 <= i < |s'.devs| ==> s'.devs[i] == s.devs[if i < k then i else i + 1];
    if s.targetDevice.Some? && s.targetDevice.value != e.step.handle {
      CutHandles(s.devs, k, s.targetDevice.value);
    }
  }

  // The target device is always present, and handles and ids stay distinct.
  lemma StepWellFormed(s: State, e: Event, s': State)
    requires WellFormed(s) && StepsTo(s, e, s')
    ensures WellFormed(s')
  {
    match e.step
    case Plug(handle, id) => PlugWellFormed(s, handle, id);
    case Unplug(handle) => UnplugWellFormed(s, e, s');
    case _ =>
      StepKeepsDevices(s, e, s');
      StepKeepsTarget(s, e, s');
      if s'.targetDevice.Some? {
        SameHandles(s.devs, s'.devs, s'.targetDevice.value);
      }
  }
}
