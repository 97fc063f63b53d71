// The identify protocol: at most one device is selected, and which one it is in the end.
module Identify {
  import opened Wrappers
  import opened Lines
  import opened DriverSpec
  import opened DriverProofs
  import opened DriverLog

  // ---------- one token ----------

  function Selected(devs: seq<Dev>): nat {
    if devs == [] then 0 else (if devs[0].target then 1 else 0) + Selected(devs[1..])
  }

  // The signalled event and the selected devices.
  function Tokens(s: State): nat {
    (if s.event then 1 else 0) + Selected(s.devs)
  }

  // The bound of the protocol.  The event is signalled only while a request waits.
  predicate OneToken(s: State) {
    Tokens(s) <= 1 && (s.event ==> s.waiting)
  }

  // A device is plugged in that the registry still names, while the token is taken.
  predicate Doubles(s: State, e: Event) {
    e.step.Plug? && s.reg.target == Some(e.step.id) && Tokens(s) > 0
  }

  lemma {:induction false} SelectedConcat(a: seq<Dev>, b: seq<Dev>)
    ensures Selected(a + b) == Selected(a) + Selected(b)
  {
    if a == [] {
      assert a + b == b;
    } else {
      assert (a + b)[1..] == a[1..] + b;
      SelectedConcat(a[1..], b);
    }
  }

  lemma SelectedAt(devs: seq<Dev>, k: nat)
    requires k < |devs|
    ensures Selected(devs) ==
            Selected(devs[..k]) + (if devs[k].target then 1 else 0) + Selected(devs[k + 1..])
  {
    assert devs == devs[..k] + devs[k..];
    SelectedConcat(devs[..k], devs[k..]);
    assert devs[k..][1..] == devs[k + 1..];
  }

  lemma {:induction false} SelectedSame(devs: seq<Dev>, devs': seq<Dev>)
    requires |devs| == |devs'| && forall i :: 0 <= i < |devs| ==> devs[i].target == devs'[i].target
    ensures Selected(devs) == Selected(devs')
  {
    if devs != [] {
      SelectedSame(devs[1..], devs'[1..]);
    }
  }

  lemma {:induction false} SelectedNone(devs: seq<Dev>)
    ensures Selected(devs) == 0 <==> forall i :: 0 <= i < |devs| ==> !devs[i].target
  {
    if devs != [] {
      SelectedNone(devs[1..]);
      assert forall i :: 1 <= i < |devs| ==> devs[i] == devs[1..][i - 1];
      assert forall i :: 0 <= i < |devs[1..]| ==> devs[1..][i] == devs[i + 1];
    }
  }

  lemma SelectedOne(devs: seq<Dev>, k: nat)
    requires k < |devs| && forall i :: 0 <= i < |devs| ==> (devs[i].target <==> i == k)
    ensures Selected(devs) == 1
  {
    SelectedAt(devs, k);
    SelectedNone(devs[..k]);
    SelectedNone(devs[k + 1..]);
  }

  // ---------- every step, with any writes ----------

  lemma RequestTokens(s: State, e: Event, t: State)
    requires StepsTo(s, e, t) && OneToken(s)
    requires !e.step.Plug? && !e.step.Unplug? && !e.step.Read? && !e.step.IdentifyBegin? && !e.step.IdentifyEnd?
    ensures OneToken(t)
  {
    if e.step.RemoveDriver? {
      SelectedNone(t.devs);
    } else if e.step.SendPoints? {
      SendKeepsDevices(s, if e.step.nine then NINE else FIVE, e.step.buffer, e.step.inLength, e.step.fp, e.writes);
    } else {
      SelectedSame(s.devs, t.devs);
    }
  }

  lemma BeginTokens(s: State, w: Writes)
    requires OneToken(s) && !s.waiting
    ensures OneToken(IdentifyBegun(s, w))
  {
    var t := IdentifyBegun(s, w);
    if |s.devs| == 1 {
      SelectedOne(t.devs, 0);
    } else {
      SelectedNone(t.devs);
    }
  }

  lemma ReadTokens(s: State, handle: nat, w: Writes)
    requires OneToken(s) && Present(s, handle)
    ensures OneToken(ReadBy(s, handle, w))
  {
    if s.event {
      SelectedNone(s.devs);
      SelectedOne(ReadBy(s, handle, w).devs, Find(s.devs, handle));
    }
  }

  lemma PlugTokens(s: State, handle: nat, id: UInt32)
    ensures Tokens(Plugged(s, handle, id)) == Tokens(s) + if s.reg.target == Some(id) then 1 else 0
  {
    SelectedConcat(s.devs, [Loaded(s.reg, handle, id)]);
  }

  lemma UnplugTokens(s: State, handle: nat)
    requires Present(s, handle)
    ensures Tokens(Unplugged(s, handle)) <= Tokens(s)
  {
    var k := Find(s.devs, handle);
    SelectedAt(s.devs, k);
    SelectedConcat(s.devs[..k], s.devs[k + 1..]);
  }

  // A step with any writes keeps the bound, unless it plugs in a device that the registry still
  // names while the token is taken.
  lemma StepTokensIff(s: State, e: Event, t: State)
    requires StepsTo(s, e, t) && OneToken(s)
    ensures OneToken(t) <==> !Doubles(s, e)
  {
    match e.step
    case Plug(handle, id) => PlugTokens(s, handle, id);
    case Unplug(handle) => UnplugTokens(s, handle);
    case Read(handle) => ReadTokens(s, handle, e.writes);
    case IdentifyBegin => BeginTokens(s, e.writes);
    case IdentifyEnd =>
    case _ => RequestTokens(s, e, t);
  }

  // In every run from every bounded registry, with any writes failing, the bound holds throughout if
  // and only if no such device is plugged in.
  lemma AlwaysOneTokenIff(reg: Registry, env: Env, w: Writes, states: seq<State>, run: seq<Event>)
    requires Bounded(reg) && |env.beyond| == NINE && Run(states, run) && states[0] == Boot(reg, env, w)
    ensures (forall k :: 0 <= k <= |run| ==> OneToken(states[k])) <==>
            (forall k :: 0 <= k < |run| ==> !Doubles(states[k], run[k]))
  {
    if forall k :: 0 <= k < |run| ==> !Doubles(states[k], run[k]) {
      forall k | 0 <= k <= |run|
        ensures OneToken(states[k])
      {
        OneTokenUntil(reg, env, w, states, run, k);
      }
    } else {
      var k :| 0 <= k < |run| && Doubles(states[k], run[k]);
      if OneToken(states[k]) {
        assert StepsTo(states[k], run[k], states[k + 1]);
        StepTokensIff(states[k], run[k], states[k + 1]);
      }
    }
  }

  lemma {:induction false} OneTokenUntil(reg: Registry, env: Env, w: Writes, states: seq<State>, run: seq<Event>,
                                         k: nat)
    requires Bounded(reg) && |env.beyond| == NINE && Run(states, run) && states[0] == Boot(reg, env, w) && k <= |run|
    requires forall j :: 0 <= j < k ==> !Doubles(states[j], run[j])
    ensures OneToken(states[k])
  {
    if k == 0 {
      BootKeepsLog(reg, env, w);
      assert states[0].devs == [];
    } else {
      OneTokenUntil(reg, env, w, states, run, k - 1);
      assert StepsTo(states[k - 1], run[k - 1], states[k]);
      StepTokensIff(states[k - 1], run[k - 1], states[k]);
    }
  }

  // ---------- who is selected ----------

  datatype Reader = Reader(handle: nat, w: Writes)

  function Reads(s: State, readers: seq<Reader>): State
    decreases |readers|
  {
    if readers == [] || !Present(s, readers[0].handle) then s
    else Reads(ReadBy(s, readers[0].handle, readers[0].w), readers[1..])
  }

  lemma {:induction false} NoEventNoChange(s: State, readers: seq<Reader>)
    requires !s.event
    ensures Reads(s, readers) == s
  {
    if readers != [] && Present(s, readers[0].handle) {
      NoEventNoChange(s, readers[1..]);
    }
  }

  // However many reads follow on however many devices, with any writes failing, the first one wins
  // and stays the winner; the registry names it if its own write succeeds.
  lemma FirstReadWins(s: State, readers: seq<Reader>)
    requires OneToken(s) && s.event && readers != [] && Present(s, readers[0].handle)
    ensures var r, h, w := Reads(s, readers), readers[0].handle, readers[0].w;
            var id := s.devs[Find(s.devs, h)].id;
            && r.targetDevice == Some(h) && !r.event
            && |r.devs| == |s.devs| && Selected(r.devs) == 1 && r.devs[Find(s.devs, h)].target
            && r.reg.target == if w.a then Some(id) else s.reg.target
  {
    var h := readers[0].handle;
    var r := ReadBy(s, h, readers[0].w);
    SelectedNone(s.devs);
    SelectedOne(r.devs, Find(s.devs, h));
    NoEventNoChange(r, readers[1..]);
  }

  // A device that is still named but not selected is not there.
  lemma NobodyNamed(s: State)
    requires DevicesLogged(s) && !s.event && s.targetDevice.None?
    ensures Selected(s.devs) == 0 && (s.reg.target.Some? ==> NewId(s.devs, s.reg.target.value))
  {
    SelectedNone(s.devs);
    forall i | 0 <= i < |s.devs|
      ensures !s.devs[i].target && s.reg.target != Some(s.devs[i].id)
    {
    }
  }

  lemma OneNamed(s: State)
    requires DevicesLogged(s) && !s.event && s.targetDevice.Some?
    ensures Selected(s.devs) == 1 && Present(s, s.targetDevice.value)
    ensures var d := s.devs[Find(s.devs, s.targetDevice.value)]; d.target && s.reg.target == Some(d.id)
  {
    SelectedOne(s.devs, Find(s.devs, s.targetDevice.value));
  }

  lemma BegunWellFormed(s: State)
    requires WellFormed(s)
    ensures WellFormed(IdentifyBegun(s, ALL_WRITTEN))
  {
    var s' := IdentifyBegun(s, ALL_WRITTEN);
    if s'.targetDevice.Some? {
      SameHandles(s.devs, s'.devs, s'.targetDevice.value);
    }
  }

  // An identify request clears every selection.  A single device is selected at once, and both target
  // device and registry name it; several are left to their reads, with the event signalled.
  lemma IdentifyStarts(s: State)
    requires DevicesLogged(s) && !s.waiting
    ensures var s' := IdentifyBegun(s, ALL_WRITTEN);
            && DevicesLogged(s')
            && (|s.devs| == 1 ==>
                  && !s'.event && !s'.waiting && Selected(s'.devs) == 1 && s'.devs[0].target
                  && s'.targetDevice == Some(s.devs[0].handle) && s'.reg.target == Some(s.devs[0].id))
            && (|s.devs| > 1 ==> s'.event && s'.waiting && Selected(s'.devs) == 0)
            && (s.devs == [] ==> !s'.event && !s'.waiting && s'.targetDevice.None?)
  {
    var s' := IdentifyBegun(s, ALL_WRITTEN);
    BegunWellFormed(s);
    IdentifyBegunLogged(s);
    if |s.devs| == 1 {
      SelectedOne(s'.devs, 0);
    } else {
      SelectedNone(s'.devs);
    }
  }

  // An identify request ends with nobody selected, no target device and the registry value
  // deleted, or with the one selected device named by the target device and by the registry; the
  // only other end is that the winner has been unplugged meanwhile.
  lemma IdentifyOutcome(s: State)
    requires DevicesLogged(s) && s.waiting
    ensures var s' := IdentifyEnded(s, ALL_WRITTEN);
            && DevicesLogged(s') && !s'.waiting && !s'.event
            && (s.event ==> Selected(s'.devs) == 0 && s'.targetDevice.None? && s'.reg.target.None?)
            && (!s.event && s'.targetDevice.Some? ==>
                  Selected(s'.devs) == 1 && Present(s', s'.targetDevice.value)
                  && var d := s'.devs[Find(s'.devs, s'.targetDevice.value)]; d.target && s'.reg.target == Some(d.id))
            && (!s.event && s'.targetDevice.None? ==>
                  Selected(s'.devs) == 0 && s'.reg.target.Some? && NewId(s'.devs, s'.reg.target.value))
  {
    var s' := IdentifyEnded(s, ALL_WRITTEN);
    IdentifyEndedLogged(s);
    if s'.targetDevice.Some? {
      OneNamed(s');
    } else {
      NobodyNamed(s');
    }
  }

  // ---------- two runs that break the bound ----------

  const EMPTY := Registry(None, None, None, None, None, None, map[])

  // A state some run from an empty registry comes to, if asked with all its writes succeeding.
  ghost predicate Reached(s: State, written: bool) {
    exists states, run :: FromEmpty(states, run, written) && states[|run|] == s
  }

  ghost predicate FromEmpty(states: seq<State>, run: seq<Event>, written: bool) {
    && Run(states, run) && states[0] == Boot(EMPTY, Env(true, Zeroed()), ALL_WRITTEN)
    && (written ==> forall i :: 0 <= i < |run| ==> run[i].writes == ALL_WRITTEN)
  }

  lemma ReachedBoot(written: bool)
    ensures Reached(Boot(EMPTY, Env(true, Zeroed()), ALL_WRITTEN), written)
  {
    var states, run: seq<Event> := [Boot(EMPTY, Env(true, Zeroed()), ALL_WRITTEN)], [];
    assert FromEmpty(states, run, written) && states[|run|] == states[0];
  }

  lemma Extend(states: seq<State>, run: seq<Event>, written: bool, e: Event, t: State)
    requires FromEmpty(states, run, written) && StepsTo(states[|run|], e, t) && (written ==> e.writes == ALL_WRITTEN)
    ensures FromEmpty(states + [t], run + [e], written)
  {
    var states', run' := states + [t], run + [e];
    forall i | 0 <= i < |run'|
      ensures StepsTo(states'[i], run'[i], states'[i + 1])
    {
      if i < |run| {
        assert StepsTo(states[i], run[i], states[i + 1]);
      }
    }
  }

  lemma Go(s: State, step: Step, w: Writes, written: bool) returns (t: State)
    requires Reached(s, written) && Enabled(s, step) && (written ==> w == ALL_WRITTEN)
    ensures t == Next(s, step, w) && Reached(t, written)
  {
    t := Next(s, step, w);
    var states, run :| FromEmpty(states, run, written) && states[|run|] == s;
    Extend(states, run, written, Event(step, w), t);
    assert (states + [t])[|run + [Event(step, w)]|] == t;
  }

  // A device is selected.
  lemma FirstSelected(written: bool) returns (s: State)
    ensures Reached(s, written) && s.live && !s.event && !s.waiting && |s.cpoints| == NINE
    ensures s.devs == [Dev(1, 101, true, true, true)] && s.targetDevice == Some(1)
    ensures s.reg == EMPTY.(target := Some(101))
  {
    ReachedBoot(written);
    s := Boot(EMPTY, Env(true, Zeroed()), ALL_WRITTEN);
    s := Go(s, Plug(1, 101), ALL_WRITTEN, written);
    assert s.devs == [Dev(1, 101, true, false, true)];
    s := Go(s, IdentifyBegin, ALL_WRITTEN, written);
  }

  // It is unplugged, and another one is there.
  lemma FirstGone(written: bool) returns (s: State)
    ensures Reached(s, written) && s.live && !s.event && !s.waiting && |s.cpoints| == NINE
    ensures s.devs == [Dev(2, 102, true, false, true)] && s.targetDevice == None
    ensures s.reg == EMPTY.(target := Some(101))
  {
    s := FirstSelected(written);
    var a, b := Dev(1, 101, true, true, true), Dev(2, 102, true, false, true);
    s := Go(s, Plug(2, 102), ALL_WRITTEN, written);
    assert s.devs == [a, b];
    s := Go(s, Unplug(1), ALL_WRITTEN, written);
    assert s.devs == [b];
  }

  // All writes succeed.  An identify request signals the event for two others, and the device comes
  // back: the registry still names it, so it is selected while the event is signalled.
  lemma PlugInWindowReached() returns (s: State)
    ensures Reached(s, true) && s.event && Enabled(s, Plug(1, 101))
    ensures OneToken(s) && Tokens(Next(s, Plug(1, 101), ALL_WRITTEN)) == 2
  {
    s := FirstGone(true);
    var b, c := Dev(2, 102, true, false, true), Dev(3, 103, true, false, true);
    s := Go(s, Plug(3, 103), ALL_WRITTEN, true);
    assert s.devs == [b, c];
    s := Go(s, IdentifyBegin, ALL_WRITTEN, true);
    assert s.devs == [b, c];
    SelectedNone(s.devs);
    PlugTokens(s, 1, 101);
  }

  // No request waits, but the write that names the other device has failed: the first one comes back
  // and two devices are selected.
  lemma PlugAfterFailedWrite() returns (s: State)
    ensures Reached(s, false) && !s.event && !s.waiting && Enabled(s, Plug(1, 101))
    ensures OneToken(s) && Selected(Next(s, Plug(1, 101), ALL_WRITTEN).devs) == 2
  {
    s := FirstGone(false);
    s := Go(s, IdentifyBegin, Writes(false, true, true), false);
    assert s.devs == [Dev(2, 102, true, true, true)];
    SelectedOne(s.devs, 0);
    PlugTokens(s, 1, 101);
  }
}
