// The extra device extension and the device extensions of TouchscreenFilterDriver.c as objects
// whose requests update fields in place, proved against DriverSpec.
module Driver {
  import opened Wrappers
  import opened Lines
  import Spec = DriverSpec
  import Proofs = DriverProofs
  import FivePoint
  import NinePoint
  import T = TouchPacket

  class DeviceExtension {
    const handle: nat
    const id: Spec.UInt32
    var deviceActive: bool
    var deviceTarget: bool
    var activeLargeTouches: bool

    constructor (handle: nat, id: Spec.UInt32)
      ensures this.handle == handle && this.id == id
      ensures deviceActive && !deviceTarget && activeLargeTouches
    {
      this.handle, this.id := handle, id;
      deviceActive, deviceTarget, activeLargeTouches := true, false, true;
    }

    ghost function Value(): Spec.Dev
      reads this
    {
      Spec.Dev(handle, id, deviceActive, deviceTarget, activeLargeTouches)
    }
  }

  ghost function Values(devs: seq<DeviceExtension>): (r: seq<Spec.Dev>)
    reads devs
    ensures |r| == |devs| && forall i :: 0 <= i < |devs| ==> r[i] == devs[i].Value()
  {
    seq(|devs|, i requires 0 <= i < |devs| reads devs => devs[i].Value())
  }

  ghost predicate Distinct(devs: seq<DeviceExtension>) {
    forall i, j :: 0 <= i < j < |devs| ==> devs[i].handle != devs[j].handle
  }

  method Deactivate(d: DeviceExtension, ghost devs: seq<DeviceExtension>, ghost i: nat)
    requires Distinct(devs) && i < |devs| && d == devs[i]
    modifies d
    ensures Values(devs) == old(Values(devs))[i := old(Values(devs))[i].(active := false)]
  {
    d.deviceActive := false;
  }

  method Target(d: DeviceExtension, ghost devs: seq<DeviceExtension>, ghost i: nat)
    requires Distinct(devs) && i < |devs| && d == devs[i]
    modifies d
    ensures Values(devs) == old(Values(devs))[i := old(Values(devs))[i].(target := true)]
    ensures d.deviceActive == old(d.deviceActive) && d.deviceTarget
  {
    d.deviceTarget := true;
  }

  method AllowLarge(d: DeviceExtension, on: bool, ghost devs: seq<DeviceExtension>, ghost i: nat)
    requires Distinct(devs) && i < |devs| && d == devs[i]
    modifies d
    ensures Values(devs) == old(Values(devs))[i := old(Values(devs))[i].(large := on)]
  {
    d.activeLargeTouches := on;
  }

  class ExtraDeviceExtension {
    var devs: seq<DeviceExtension>
    var targetDevice: DeviceExtension?
    var syncEvent: bool
    ghost var waiting: bool
    ghost var live: bool
    const cpoints: array<Point>
    var numberPoints: UInt16
    var checkPoints: bool
    var start: bool
    var registry: Spec.Registry

    ghost function Model(): Spec.State
      reads this, devs, cpoints
    {
      Spec.State(live, Values(devs), if targetDevice == null then None else Some(targetDevice.handle), syncEvent,
                 waiting,
                 cpoints[..], numberPoints, checkPoints, start, registry)
    }

    ghost predicate Valid()
      reads this`devs, this`targetDevice, this`live
    {
      && cpoints.Length == Spec.NINE
      && live
      && (targetDevice != null ==> targetDevice in devs)
      && Distinct(devs)
    }

    // CreateEDO.  The stored points, if any are read, come with whatever lies beyond the value.
    constructor (registry: Spec.Registry, env: Spec.Env, w: Spec.Writes)
      requires Spec.Bounded(registry) && |env.beyond| == Spec.NINE
      ensures Valid() && fresh(cpoints)
      ensures Model() == Spec.Boot(registry, env, w)
    {
      devs, targetDevice, syncEvent, waiting, live := [], null, false, false, true;
      cpoints := new Point[9](_ => Point(0, 0));
      numberPoints := Spec.Count(registry);
      checkPoints := Spec.Flag(registry.available);
      start := Spec.Flag(registry.start);
      this.registry := registry;
      new;
      assert cpoints[..] == Spec.Zeroed();
      if checkPoints && numberPoints != 0 {
        var ok := RetrievePoints(env, w);
        if !ok {
          checkPoints := false;
        }
      }
    }

    method CopyStored(stored: seq<Point>, beyond: seq<Point>)
      requires cpoints.Length == Spec.NINE && cpoints[..] == Spec.Zeroed()
      requires numberPoints <= Spec.NINE && numberPoints <= |stored| + |beyond|
      modifies cpoints
      ensures cpoints[..] ==
              Spec.Overwrite(Spec.Zeroed(), Spec.ReadBack(stored, beyond, numberPoints), numberPoints)
    {
      for i := 0 to numberPoints
        invariant cpoints[..] == Spec.Overwrite(Spec.Zeroed(), Spec.ReadBack(stored, beyond, numberPoints), i)
      {
        cpoints[i] := if i < |stored| then stored[i] else beyond[i - |stored|];
      }
    }

    method RetrievePoints(env: Spec.Env, w: Spec.Writes) returns (ok: bool)
      requires cpoints.Length == Spec.NINE && cpoints[..] == Spec.Zeroed()
      requires 0 < numberPoints <= Spec.NINE && |env.beyond| == Spec.NINE
      modifies cpoints, this`registry
      ensures (ok, cpoints[..], registry) == Spec.Retrieve(old(registry), numberPoints, env, w)
    {
      if registry.points.None? {
        return false;
      }
      var stored := registry.points.value;
      if |stored| + 3 < numberPoints {
        return false;
      }
      CopyStored(stored, env.beyond);
      if !env.fp {
        return false;
      }
      if numberPoints == Spec.FIVE {
        ok := FivePoint.Layout(cpoints[..]);
      } else if numberPoints == Spec.NINE {
        ok := NinePoint.Layout(cpoints[..]);
      } else {
        return false;
      }
      if !ok && w.a {
        registry := registry.(available := Some(0));
      }
    }

    // Copies the points one by one, up to and including the first that is out of range.
    method CopyPoints(points: seq<Point>, n: nat) returns (bad: bool)
      requires cpoints.Length == Spec.NINE && n <= Spec.NINE && |points| == n
      modifies cpoints
      ensures bad == (Spec.FirstBad(points) < n)
      ensures cpoints[..] ==
              Spec.Overwrite(old(cpoints[..]), points, if bad then Spec.FirstBad(points) + 1 else n)
    {
      for i := 0 to n
        invariant i <= Spec.FirstBad(points)
        invariant forall j :: 0 <= j < i ==> cpoints[j] == points[j]
        invariant forall j :: i <= j < Spec.NINE ==> cpoints[j] == old(cpoints[j])
      {
        cpoints[i] := points[i];
        if cpoints[i].x > 32767 || cpoints[i].y > 32767 {
          return true;
        }
      }
      return false;
    }

    // GetAndCheckCalibrationPoints.
    method GetAndCheckCalibrationPoints(buffer: Option<seq<Point>>, inLength: nat, n: nat, fp: bool) returns (ok: bool)
      requires cpoints.Length == Spec.NINE && (n == Spec.FIVE || n == Spec.NINE)
      requires buffer.Some? ==> |buffer.value| == inLength / 4
      modifies cpoints
      ensures (ok, cpoints[..]) == Spec.Accept(old(cpoints[..]), n, buffer, inLength, fp)
    {
      if buffer.None? {
        return false;
      }
      if 4 * n != inLength {
        return false;
      }
      var bad := CopyPoints(buffer.value, n);
      if bad {
        return false;
      }
      if !fp {
        return false;
      }
      ok := if n == Spec.FIVE then FivePoint.Layout(cpoints[..]) else NinePoint.Layout(cpoints[..]);
    }

    // IOCTL_SEND_CALIBRATION_POINTS and its nine-point variant.
    method SendCalibrationPoints(nine: bool, buffer: Option<seq<Point>>, inLength: nat, fp: bool, w: Spec.Writes)
      requires cpoints.Length == Spec.NINE && (buffer.Some? ==> |buffer.value| == inLength / 4)
      modifies cpoints, this`numberPoints, this`checkPoints, this`registry
      ensures Model() == Spec.Send(old(Model()), if nine then Spec.NINE else Spec.FIVE, buffer, inLength, fp, w)
    {
      CheckNewPoints(if nine then 9 else 5, buffer, inLength, fp);
      Log(checkPoints, w);
    }

    // The count is set before the points are checked.
    method CheckNewPoints(n: UInt16, buffer: Option<seq<Point>>, inLength: nat, fp: bool)
      requires cpoints.Length == Spec.NINE && (n == Spec.FIVE || n == Spec.NINE)
      requires buffer.Some? ==> |buffer.value| == inLength / 4
      modifies cpoints, this`numberPoints, this`checkPoints
      ensures var (ok, p) := Spec.Accept(old(cpoints[..]), n, buffer, inLength, fp);
              Model() == old(Model()).(numberPoints := n, cpoints := p, checkPoints := ok)
    {
      numberPoints := n;
      var ok := GetAndCheckCalibrationPoints(buffer, inLength, n, fp);
      checkPoints := ok;
    }

    // RecordPointsInRegistry and the availability and count that go with it.
    method Log(ok: bool, w: Spec.Writes)
      requires numberPoints <= cpoints.Length
      modifies this`registry
      ensures registry == Spec.Logged(old(registry), ok, cpoints[..numberPoints], numberPoints, w)
      ensures Model() == old(Model()).(reg := registry)
    {
      if ok {
        if w.a {
          registry := registry.(points := Some(cpoints[..numberPoints]));
          if w.b {
            registry := registry.(available := Some(1));
          }
          if w.c {
            registry := registry.(numberPoints := Some(numberPoints));
          }
        }
      } else if w.a {
        registry := registry.(available := Some(0));
      }
    }

    // IOCTL_START_CALIBRATION and IOCTL_STOP_CALIBRATION.
    method SetStart(on: bool, w: Spec.Writes)
      requires Valid()
      modifies this`start, this`registry
      ensures Model() == Spec.Started(old(Model()), on, w)
    {
      start := on;
      if w.a {
        registry := registry.(start := Some(if on then 1 else 0));
      }
    }

    method SetAllDeviceActive()
      requires Valid()
      modifies devs
      ensures Valid() && Values(devs) == Spec.AllActive(old(Values(devs)))
    {
      for k := 0 to |devs|
        invariant forall i :: 0 <= i < |devs| ==>
                    devs[i].Value() == if i < k then old(devs[i].Value()).(active := true) else old(devs[i].Value())
      {
        devs[k].deviceActive := true;
      }
    }

    method ClearAllDeviceTargeting()
      requires Valid()
      modifies devs
      ensures Valid() && Values(devs) == Spec.NoneTargeted(old(Values(devs)))
    {
      for k := 0 to |devs|
        invariant forall i :: 0 <= i < |devs| ==>
                    devs[i].Value() == if i < k then old(devs[i].Value()).(target := false) else old(devs[i].Value())
      {
        devs[k].deviceTarget := false;
      }
    }

    ghost method Position(d: DeviceExtension) returns (i: nat)
      requires Valid() && d in devs
      ensures i < |devs| && devs[i] == d && Spec.Find(Values(devs), d.handle) == i
    {
      i :| 0 <= i < |devs| && devs[i] == d;
      Proofs.FindAt(Values(devs), i);
    }

    // IOCTL_DISABLE_DEVICE.
    method DisableDevice(w: Spec.Writes)
      requires Valid()
      modifies devs, this`registry
      ensures Valid()
      ensures Model() == if old(targetDevice) == null then old(Model())
                         else Spec.Disabled(old(Model()), old(targetDevice).handle, w)
    {
      if targetDevice != null {
        ghost var i := Position(targetDevice);
        DisableTarget(w, i);
      }
    }

    method DisableTarget(w: Spec.Writes, ghost i: nat)
      requires Valid() && targetDevice != null && i < |devs| && devs[i] == targetDevice
      requires Spec.Find(Values(devs), targetDevice.handle) == i
      modifies devs, this`registry
      ensures Valid() && Model() == Spec.Disabled(old(Model()), targetDevice.handle, w)
    {
      SetAllDeviceActive();
      Deactivate(targetDevice, devs, i);
      if w.a {
        registry := registry.(disabled := Some(targetDevice.id));
      }
      ghost var want := Spec.Disabled(old(Model()), targetDevice.handle, w);
      assert Values(devs) == want.devs;
      assert registry == want.reg;
    }

    // IOCTL_ACTIVATE_DEVICE.
    method ActivateDevice(w: Spec.Writes)
      requires Valid()
      modifies devs, this`registry
      ensures Valid() && Model() == Spec.Activated(old(Model()), w)
    {
      SetAllDeviceActive();
      if w.a {
        registry := registry.(disabled := None);
      }
    }

    // IOCTL_ACTIVATE_LARGE_TOUCHES and IOCTL_DISABLE_LARGE_TOUCHES.
    method SetLargeTouches(on: bool, w: Spec.Writes)
      requires Valid()
      modifies devs, this`registry
      ensures Valid()
      ensures Model() == if old(targetDevice) == null then old(Model())
                         else Spec.LargeSet(old(Model()), old(targetDevice).handle, on, w)
    {
      if targetDevice != null {
        ghost var i := Position(targetDevice);
        AllowLarge(targetDevice, on, devs, i);
        if w.a {
          registry := registry.(large := registry.large[targetDevice.id := if on then 1 else 0]);
        }
        ghost var want := Spec.LargeSet(old(Model()), targetDevice.handle, on, w);
        assert Values(devs) == want.devs;
        assert registry == want.reg;
      }
    }

    // SetSingleDeviceTarget: the device is selected and named in the registry.
    method Select(d: DeviceExtension, w: Spec.Writes, ghost i: nat)
      requires Valid() && i < |devs| && devs[i] == d
      modifies d, this`registry, this`targetDevice
      ensures Valid() && targetDevice == d
      ensures Values(devs) == old(Values(devs))[i := old(Values(devs))[i].(target := true)]
      ensures registry == if w.a then old(registry).(target := Some(d.id)) else old(registry)
    {
      if w.a {
        registry := registry.(target := Some(d.id));
      }
      Target(d, devs, i);
      targetDevice := d;
    }

    // IOCTL_IDENTIFY_DEVICE up to its wait.
    method IdentifyBegin(w: Spec.Writes)
      requires Valid()
      modifies devs, this`registry, this`targetDevice, this`syncEvent, this`waiting
      ensures Valid() && Model() == Spec.IdentifyBegun(old(Model()), w)
    {
      ClearAllDeviceTargeting();
      if |devs| == 1 {
        ghost var cleared := Values(devs);
        Select(devs[0], w, 0);
        assert Values(devs) == [cleared[0].(target := true)];
      } else if |devs| > 1 {
        syncEvent := true;
        waiting := true;
      }
    }

    // IOCTL_IDENTIFY_DEVICE from the end of its wait.
    method IdentifyEnd(w: Spec.Writes)
      requires Valid()
      modifies this`registry, this`targetDevice, this`syncEvent, this`waiting
      ensures Valid() && Model() == Spec.IdentifyEnded(old(Model()), w)
    {
      if syncEvent {
        syncEvent := false;
        if w.a {
          registry := registry.(target := None);
        }
        targetDevice := null;
      }
      waiting := false;
    }

    // The read that finds the event signalled resets it and selects its device.
    method TakeEvent(d: DeviceExtension, w: Spec.Writes, ghost i: nat)
      requires Valid() && i < |devs| && devs[i] == d && Spec.Find(Values(devs), d.handle) == i && syncEvent
      modifies d, this`registry, this`targetDevice, this`syncEvent
      ensures Valid() && Model() == Spec.ReadBy(old(Model()), d.handle, w)
    {
      syncEvent := false;
      Select(d, w, i);
    }

    // The state part of DispatchRead; reports whether the completion routine is installed.
    method Read(d: DeviceExtension, w: Spec.Writes) returns (complete: bool)
      requires Valid() && d in devs
      modifies d, this`registry, this`targetDevice, this`syncEvent
      ensures Valid() && Spec.Present(old(Model()), d.handle) && Model() == Spec.ReadBy(old(Model()), d.handle, w)
      ensures complete == (d.deviceTarget && (!d.deviceActive || (start && checkPoints)))
    {
      ghost var i := Position(d);
      if syncEvent {
        TakeEvent(d, w, i);
      }
      complete := d.deviceTarget && (!d.deviceActive || (start && checkPoints));
    }

    // ReadCompletionRoutine, for a read on which it was installed; fp says that the floating-point
    // state could be saved.
    method CompleteRead(d: DeviceExtension, packet: array<T.Touch>, fp: bool)
      requires Proofs.Calibrated(Model()) && d.deviceTarget && (!d.deviceActive || (start && checkPoints))
      requires packet.Length == T.SIX_POINTS_IN_PACKET
      modifies packet
      ensures !d.deviceActive ==> forall i :: 0 <= i < packet.Length ==>
                packet[i] == if T.Present(old(packet[i])) then old(packet[i]).(unknownFlag := 4) else old(packet[i])
      ensures d.deviceActive ==> numberPoints == 0 || Spec.Check(numberPoints, cpoints[..]) == Spec.Success
      ensures d.deviceActive && fp && numberPoints != 0 ==> forall i :: 0 <= i < packet.Length ==>
                T.Rewritten(T.Calibrate(cpoints[..], numberPoints == 9, old(packet[i]).x, old(packet[i]).y),
                            d.activeLargeTouches, old(packet[i]), packet[i])
      ensures d.deviceActive && (!fp || numberPoints == 0) ==> packet[..] == old(packet[..])
    {
      if d.deviceActive {
        if fp && numberPoints == Spec.FIVE {
          T.Transform(packet, cpoints[..], false, d.activeLargeTouches);
        } else if fp && numberPoints == Spec.NINE {
          T.Transform(packet, cpoints[..], true, d.activeLargeTouches);
        }
      } else {
        T.ResetInputData(packet);
      }
    }

    // AddDevice.
    method AddDevice(handle: nat, id: Spec.UInt32) returns (d: DeviceExtension)
      requires Valid() && !Spec.Present(Model(), handle)
      modifies this`devs, this`targetDevice
      ensures Valid() && fresh(d) && devs == old(devs) + [d]
      ensures Model() == Spec.Plugged(old(Model()), handle, id)
    {
      d := LoadDevice(handle, id);
      AppendValues(d);
      ghost var want := Spec.Plugged(Model(), handle, id);
      if d.deviceTarget {
        targetDevice := d;
      }
      devs := devs + [d];
      assert Values(devs) == want.devs;
    }

    // A device extension with its flags read from the registry.
    method LoadDevice(handle: nat, id: Spec.UInt32) returns (d: DeviceExtension)
      ensures fresh(d) && d.Value() == Spec.Loaded(registry, handle, id)
    {
      d := new DeviceExtension(handle, id);
      if id in registry.large {
        d.activeLargeTouches := registry.large[id] % 0x100 != 0;
      }
      if registry.disabled == Some(id) {
        d.deviceActive := false;
      }
      if registry.target == Some(id) {
        d.deviceTarget := true;
      }
    }

    lemma AppendValues(d: DeviceExtension)
      ensures Values(devs + [d]) == Values(devs) + [d.Value()]
    {
    }

    // RemoveDevice.
    method RemoveDevice(d: DeviceExtension)
      requires Valid() && d in devs
      modifies this`devs, this`targetDevice, this`live
      ensures Spec.Present(old(Model()), d.handle) && Model() == Spec.Unplugged(old(Model()), d.handle)
      ensures |old(devs)| > 1 ==> Valid()
    {
      var i := IndexOf(d);
      CutDistinct(i);
      Detach(d, i);
    }

    method Detach(d: DeviceExtension, i: nat)
      requires Valid() && i < |devs| && devs[i] == d && Spec.Find(Values(devs), d.handle) == i
      modifies this`devs, this`targetDevice, this`live
      ensures Model() == Spec.Unplugged(old(Model()), d.handle)
      ensures devs == old(devs)[..i] + old(devs)[i + 1..] && live == (|old(devs)| > 1)
      ensures targetDevice == if old(targetDevice) == d then null else old(targetDevice)
    {
      DropTarget(d);
      CutDevice(i);
    }

    method CutDevice(i: nat)
      requires i < |devs|
      modifies this`devs, this`live
      ensures devs == old(devs)[..i] + old(devs)[i + 1..] && live == (|old(devs)| > 1)
      ensures Model() == old(Model()).(devs := old(Model()).devs[..i] + old(Model()).devs[i + 1..], live := live)
    {
      CutValues(i);
      live := |devs| > 1;
      devs := devs[..i] + devs[i + 1..];
    }

    method DropTarget(d: DeviceExtension)
      requires Valid() && d in devs
      modifies this`targetDevice
      ensures Valid() && targetDevice == if old(targetDevice) == d then null else old(targetDevice)
      ensures Model() == old(Model()).(targetDevice := if old(Model()).targetDevice == Some(d.handle) then None
                                                       else old(Model()).targetDevice)
    {
      if targetDevice == d {
        targetDevice := null;
      }
    }

    method IndexOf(d: DeviceExtension) returns (i: nat)
      requires Valid() && d in devs
      ensures i < |devs| && devs[i] == d && Spec.Find(Values(devs), d.handle) == i
    {
      ghost var k := Position(d);
      i := 0;
      while devs[i] != d
        invariant 0 <= i <= k
        decreases k - i
      {
        i := i + 1;
      }
    }

    lemma CutDistinct(i: nat)
      requires i < |devs| && Distinct(devs)
      ensures Distinct(devs[..i] + devs[i + 1..])
      ensures forall d :: d in devs && d != devs[i] ==> d in devs[..i] + devs[i + 1..]
    {
      var cut := devs[..i] + devs[i + 1..];
      assert forall j :: 0 <= j < |cut| ==> cut[j] == devs[if j < i then j else j + 1];
      forall d | d in devs && d != devs[i]
        ensures d in cut
      {
        var j :| 0 <= j < |devs| && devs[j] == d;
        assert cut[if j < i then j else j - 1] == d;
      }
    }

    lemma CutValues(i: nat)
      requires i < |devs|
      ensures Values(devs[..i] + devs[i + 1..]) == Values(devs)[..i] + Values(devs)[i + 1..]
    {
    }
  }
}
