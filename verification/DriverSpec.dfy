// The control state of TouchscreenFilterDriver.c as a value: the device extensions, the extra
// device extension and the registry values they are mirrored in.  Each request, read, plug and
// unplug is one step; registry writes may fail.
module DriverSpec {
  import opened Wrappers
  import opened Lines
  import FivePoint
  import NinePoint

  const FIVE := 5
  const NINE := 9

  type UInt32 = n: int | 0 <= n < 0x1_0000_0000

  datatype Dev = Dev(handle: nat, id: UInt32, active: bool, target: bool, large: bool)

  datatype Registry = Registry(
    numberPoints: Option<UInt32>, available: Option<UInt32>, points: Option<seq<Point>>, start: Option<UInt32>,
    target: Option<UInt32>, disabled: Option<UInt32>, large: map<UInt32, UInt32>)

  // waiting: an identify request is polling; event: its auto-reset event is signalled; live: the
  // extra device object exists.
  datatype State = State(
    live: bool, devs: seq<Dev>, targetDevice: Option<nat>, event: bool, waiting: bool,
    cpoints: seq<Point>, numberPoints: UInt16, checkPoints: bool, start: bool, reg: Registry)

  // fp: the floating-point state could be saved.  A read of the stored points that is too short by
  // at most three runs past the value; beyond is what it finds there.
  datatype Env = Env(fp: bool, beyond: seq<Point>)

  // Which of the at most three registry writes of a step succeed.
  datatype Writes = Writes(a: bool, b: bool, c: bool)

  datatype Step =
    | SendPoints(nine: bool, buffer: Option<seq<Point>>, inLength: nat, fp: bool)
    | SetStart(on: bool)
    | Disable
    | Activate
    | SetLarge(on: bool)
    | RemoveDriver
    | IdentifyBegin
    | IdentifyEnd
    | Read(handle: nat)
    | Plug(handle: nat, id: UInt32)
    | Unplug(handle: nat)

  // ---------- start-up ----------

  // A ULONG stored into a BOOLEAN field keeps its low byte.
  predicate Flag(v: Option<UInt32>) {
    v.Some? && v.value % 0x100 != 0
  }

  predicate LargeFlag(reg: Registry, id: UInt32) {
    if id in reg.large then reg.large[id] % 0x100 != 0 else true
  }

  // A ULONG stored into the USHORT NumberPoints keeps its low half.
  function Count(reg: Registry): UInt16 {
    if reg.numberPoints.Some? then reg.numberPoints.value % 0x1_0000 else 0
  }

  datatype Status = Success | InvalidParameter

  // The layout check that a count selects.
  function Check(n: int, p: seq<Point>): Status
    requires |p| == NINE
  {
    if (n == FIVE && FivePoint.Layout(p)) || (n == NINE && NinePoint.Layout(p)) then Success else InvalidParameter
  }

  function Overwrite(was: seq<Point>, now: seq<Point>, k: nat): seq<Point>
    requires k <= |now| && k <= |was|
  {
    now[..k] + was[k..]
  }

  // The points read for a stored value: the value itself, then whatever lies beyond it.
  function ReadBack(stored: seq<Point>, beyond: seq<Point>, n: nat): (p: seq<Point>)
    requires n <= |stored| + |beyond|
    ensures |p| == n
  {
    (stored + beyond)[..n]
  }

  // The size test counts the 12-byte header of the value as three points.
  predicate LongEnough(stored: seq<Point>, n: nat) {
    |stored| + 3 >= n
  }

  // The zeroed points of a new extension.
  function Zeroed(): (p: seq<Point>)
    ensures |p| == NINE
  {
    seq(NINE, _ => Point(0, 0))
  }

  // The extension arrays hold nine points; a larger stored count is outside the model.
  predicate Bounded(reg: Registry) {
    Flag(reg.available) ==> Count(reg) <= NINE
  }

  // RetrievePointsFromRegistry: success, the overwritten points and the registry.
  function Retrieve(reg: Registry, n: nat, env: Env, w: Writes): (bool, seq<Point>, Registry)
    requires 0 < n <= NINE && |env.beyond| == NINE
  {
    if reg.points.None? || !LongEnough(reg.points.value, n) then (false, Zeroed(), reg)
    else
      var p := Overwrite(Zeroed(), ReadBack(reg.points.value, env.beyond, n), n);
      if !env.fp || (n != FIVE && n != NINE) then (false, p, reg)
      else if Check(n, p) == Success then (true, p, reg)
      else (false, p, if w.a then reg.(available := Some(0)) else reg)
  }

  // CreateEDO.
  function Boot(reg: Registry, env: Env, w: Writes): (r: State)
    requires Bounded(reg) && |env.beyond| == NINE
    ensures |r.cpoints| == NINE
  {
    var s := State(true, [], None, false, false, Zeroed(), Count(reg), Flag(reg.available), Flag(reg.start), reg);
    if s.checkPoints && s.numberPoints != 0 then
      var (ok, p, r) := Retrieve(reg, s.numberPoints, env, w);
      s.(cpoints := p, checkPoints := ok, reg := r)
    else s
  }

  // The extension AddDevice builds for a device.
  function Loaded(reg: Registry, handle: nat, id: UInt32): Dev {
    Dev(handle, id, reg.disabled != Some(id), reg.target == Some(id), LargeFlag(reg, id))
  }

  // AddDevice.
  function Plugged(s: State, handle: nat, id: UInt32): State {
    var d := Loaded(s.reg, handle, id);
    s.(devs := s.devs + [d], targetDevice := if d.target then Some(handle) else s.targetDevice)
  }

  // ---------- steps ----------

  function AllActive(devs: seq<Dev>): (r: seq<Dev>)
    ensures |r| == |devs|
  {
    seq(|devs|, i requires 0 <= i < |devs| => devs[i].(active := true))
  }

  function NoneTargeted(devs: seq<Dev>): (r: seq<Dev>)
    ensures |r| == |devs|
  {
    seq(|devs|, i requires 0 <= i < |devs| => devs[i].(target := false))
  }

  // The position of a device, or the number of devices.
  function Find(devs: seq<Dev>, handle: nat): (i: nat)
    ensures i <= |devs|
    ensures i < |devs| ==> devs[i].handle == handle
    ensures forall j :: 0 <= j < i ==> devs[j].handle != handle
  {
    if devs == [] || devs[0].handle == handle then 0 else 1 + Find(devs[1..], handle)
  }

  predicate Present(s: State, handle: nat) {
    Find(s.devs, handle) < |s.devs|
  }

  predicate NewId(devs: seq<Dev>, id: UInt32) {
    forall i :: 0 <= i < |devs| ==> devs[i].id != id
  }

  // The first point that is out of range, or the number of points.
  function FirstBad(p: seq<Point>): (i: nat)
    ensures i <= |p|
    ensures forall j :: 0 <= j < i ==> p[j].x <= 32767 && p[j].y <= 32767
    ensures i < |p| ==> p[i].x > 32767 || p[i].y > 32767
  {
    if p == [] || p[0].x > 32767 || p[0].y > 32767 then 0 else 1 + FirstBad(p[1..])
  }

  // GetAndCheckCalibrationPoints: success and the overwritten points.
  function Accept(cpoints: seq<Point>, n: nat, buffer: Option<seq<Point>>, inLength: nat,
                  fp: bool): (r: (bool, seq<Point>))
    requires |cpoints| == NINE && (n == FIVE || n == NINE)
    requires buffer.Some? ==> |buffer.value| == inLength / 4
    ensures |r.1| == NINE
  {
    if buffer.None? || 4 * n != inLength then (false, cpoints)
    else
      var k := FirstBad(buffer.value);
      if k < n then (false, Overwrite(cpoints, buffer.value, k + 1))
      else
        var p := Overwrite(cpoints, buffer.value, n);
        (fp && Check(n, p) == Success, p)
  }

  // What a request with calibration points leaves in the registry.
  function Logged(reg: Registry, ok: bool, points: seq<Point>, n: UInt16, w: Writes): Registry {
    if !ok then if w.a then reg.(available := Some(0)) else reg
    else if !w.a then reg
    else reg.(points := Some(points),
              available := if w.b then Some(1) else reg.available,
              numberPoints := if w.c then Some(n) else reg.numberPoints)
  }

  function Send(s: State, n: nat, buffer: Option<seq<Point>>, inLength: nat, fp: bool, w: Writes): State
    requires |s.cpoints| == NINE && (n == FIVE || n == NINE)
    requires buffer.Some? ==> |buffer.value| == inLength / 4
  {
    var (ok, p) := Accept(s.cpoints, n, buffer, inLength, fp);
    s.(cpoints := p, numberPoints := n, checkPoints := ok, reg := Logged(s.reg, ok, p[..n], n, w))
  }

  function Started(s: State, on: bool, w: Writes): State {
    s.(start := on, reg := if w.a then s.reg.(start := Some(if on then 1 else 0)) else s.reg)
  }

  function Disabled(s: State, handle: nat, w: Writes): State
    requires Present(s, handle)
  {
    var i := Find(s.devs, handle);
    s.(devs := AllActive(s.devs)[i := s.devs[i].(active := false)],
       reg := if w.a then s.reg.(disabled := Some(s.devs[i].id)) else s.reg)
  }

  function Activated(s: State, w: Writes): State {
    s.(devs := AllActive(s.devs), reg := if w.a then s.reg.(disabled := None) else s.reg)
  }

  function LargeSet(s: State, handle: nat, on: bool, w: Writes): State
    requires Present(s, handle)
  {
    var i := Find(s.devs, handle);
    s.(devs := s.devs[i := s.devs[i].(large := on)],
       reg := if w.a then s.reg.(large := s.reg.large[s.devs[i].id := if on then 1 else 0]) else s.reg)
  }

  // A single device is selected at once; otherwise the event is signalled for the reads.
  function IdentifyBegun(s: State, w: Writes): State {
    var devs := NoneTargeted(s.devs);
    if |devs| == 1 then
      s.(devs := [devs[0].(target := true)], targetDevice := Some(devs[0].handle),
         reg := if w.a then s.reg.(target := Some(devs[0].id)) else s.reg)
    else if |devs| > 1 then s.(devs := devs, event := true, waiting := true)
    else s.(devs := devs)
  }

  // The request takes the event back itself if no read did.
  function IdentifyEnded(s: State, w: Writes): State {
    if s.event then
      s.(event := false, waiting := false, targetDevice := None,
         reg := if w.a then s.reg.(target := None) else s.reg)
    else s.(waiting := false)
  }

  // DispatchRead: the first read to find the event signalled resets it and is selected.
  function ReadBy(s: State, handle: nat, w: Writes): State
    requires Present(s, handle)
  {
    var i := Find(s.devs, handle);
    if !s.event then s
    else
      s.(event := false, devs := s.devs[i := s.devs[i].(target := true)], targetDevice := Some(handle),
         reg := if w.a then s.reg.(target := Some(s.devs[i].id)) else s.reg)
  }

  // RemoveDevice.  The extra device goes with the last device.
  function Unplugged(s: State, handle: nat): State
    requires Present(s, handle)
  {
    var i := Find(s.devs, handle);
    s.(devs := s.devs[..i] + s.devs[i + 1..],
       targetDevice := if s.targetDevice == Some(handle) then None else s.targetDevice,
       live := |s.devs| > 1)
  }

  function Next(s: State, step: Step, w: Writes): State
    requires Enabled(s, step)
  {
    match step
    case SendPoints(nine, buffer, inLength, fp) => Send(s, if nine then NINE else FIVE, buffer, inLength, fp, w)
    case SetStart(on) => Started(s, on, w)
    case Disable => if s.targetDevice.None? then s else Disabled(s, s.targetDevice.value, w)
    case Activate => Activated(s, w)
    case SetLarge(on) => if s.targetDevice.None? then s else LargeSet(s, s.targetDevice.value, on, w)
    case RemoveDriver => s.(devs := NoneTargeted(s.devs))
    case IdentifyBegin => IdentifyBegun(s, w)
    case IdentifyEnd => IdentifyEnded(s, w)
    case Read(handle) => ReadBy(s, handle, w)
    case Plug(handle, id) => Plugged(s, handle, id)
    case Unplug(handle) => Unplugged(s, handle)
  }

  // What the environment may do next.  Control requests come one at a time; the last device is
  // not removed under a request; handles are not reused while a device is present.
  predicate Enabled(s: State, step: Step) {
    && s.live
    && |s.cpoints| == NINE
    && (s.targetDevice.Some? ==> Present(s, s.targetDevice.value))
    && match step
       case SendPoints(_, buffer, inLength, _) => !s.waiting && (buffer.Some? ==> |buffer.value| == inLength / 4)
       case IdentifyEnd => s.waiting
       case Read(handle) => Present(s, handle)
       case Plug(handle, id) =>
         !Present(s, handle) && NewId(s.devs, id)
       case Unplug(handle) => Present(s, handle) && (|s.devs| == 1 ==> !s.waiting)
       case _ => !s.waiting
  }

  // Enabled is never lost: the target device is always one that is present.
  ghost predicate WellFormed(s: State) {
    && |s.cpoints| == NINE
    && (s.targetDevice.Some? ==> Present(s, s.targetDevice.value))
    && (forall i, j :: 0 <= i < j < |s.devs| ==> s.devs[i].handle != s.devs[j].handle && s.devs[i].id != s.devs[j].id)
  }

  // A step together with the outcome of its registry writes.
  datatype Event = Event(step: Step, writes: Writes)

  predicate StepsTo(s: State, e: Event, s': State) {
    Enabled(s, e.step) && s' == Next(s, e.step, e.writes)
  }

  // The states of a run, one more than its events.
  ghost predicate Run(states: seq<State>, run: seq<Event>) {
    && |states| == |run| + 1
    && forall i :: 0 <= i < |run| ==> StepsTo(states[i], run[i], states[i + 1])
  }
}
