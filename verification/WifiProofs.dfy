// What every step of the Wi-Fi module keeps, on every run.
module WifiProofs {
  import opened Wrappers
  import opened WifiSpec
  import opened WifiRun

  // ---------- the driver ----------

  ghost predicate RadioOk(bits: set<Bit>, radio: Radio) {
    && (!radio.on ==> radio == OFF)
    && !(radio.starting && radio.connecting)
    && (radio.joined.Some? ==> radio.connecting)
    && StartForScan !in bits
    && (PreInit in bits ==> !radio.on)
    && (radio.stopping ==> Deinitializing in bits)
    && (Deinitializing in bits ==>
          bits !! {SeveralTries, Ceaseless, InternalQueue} && (radio.on ==> radio.stopping))
  }

  // ---------- the bits ----------

  function Stage(place: Place): set<Bit>
    requires place.Starting? || place.Configured? || place.Armed?
  {
    if place.Starting? then {Sta}
    else if place.Configured? then {Sta} + Wanted(place.cmd)
    else {Sta} + Wanted(place.cmd) + Requested(place.cmd)
  }

  predicate Marked(bits: set<Bit>, mark: set<Bit>) {
    (GotIp in bits <==> GotIp in mark) && (LostIp in bits <==> LostIp in mark)
  }

  // From the command to the wait: mark is what the events meanwhile have left of the address bits.
  ghost predicate SetupBits(place: Place, m: Module, radio: Radio, mark: set<Bit>)
    requires !place.Idle? && !place.Waiting?
  {
    if place.Stopping? then
      && (radio.on ==> radio.stopping && Stopped !in m.bits)
      && Sta in m.bits && m.bits <= {Sta, Deinitializing, Stopped, GotIp, LostIp}
      && (Stopped in m.bits ==> Deinitializing !in m.bits)
      && Marked(m.bits, mark)
    else
      && !radio.on && m.bits == Stage(place) + mark
      && (!place.Starting? && place.cmd.attempts > 0 ==> m.attempts == place.cmd.attempts)
  }

  // The bits of the wait: what ended the retries, if anything did.
  ghost predicate WaitBits(m: Module, es: seq<Entry>, mark: set<Bit>, cmd: Command) {
    var k := Retries(es);
    && (Ceaseless in m.bits <==> cmd.ceaseless)
    && k <= cmd.attempts
    && if k == |es| then
         && Marked(m.bits, mark)
         && (SeveralTries in m.bits <==> cmd.attempts > 0)
         && (cmd.attempts > 0 ==> m.attempts == cmd.attempts - k)
       else
         && (GotIp in m.bits <==> LostIp !in m.bits)
         && (GotIp in m.bits ==> FirstAddress(es).Some?)
         && (|es| == k + 1 ==> (GotIp in m.bits <==> es[k].Got?))
         && (SeveralTries in m.bits ==> es[k].Expired? && GotIp !in m.bits)
         && (es[k].Got? || es[k].Expired? || (k == cmd.attempts && es[k] == Gone(Verdict(cmd.ceaseless, true))))
  }

  // The history of the last attempt: before it started the driver, and since.
  function Before(s: State): seq<Entry>
    requires s.begun <= |s.log| && (s.started.Some? ==> s.begun <= s.started.value <= |s.log|)
  {
    if s.started.Some? then s.log[s.begun..s.started.value] else s.log[s.begun..]
  }

  function Since(s: State): seq<Entry>
    requires s.started.Some? ==> s.started.value <= |s.log|
  {
    if s.started.Some? then s.log[s.started.value..] else []
  }

  ghost predicate Bounds(s: State) {
    && s.begun <= |s.log| && s.ended <= |s.log|
    && (s.started.Some? ==> s.begun <= s.started.value <= |s.log| && (s.place.Idle? || s.place.Waiting?))
    && (s.place.Idle? ==> s.begun <= s.ended && (s.started.Some? ==> s.started.value <= s.ended))
    && (s.place.Waiting? ==> s.started.Some?)
  }

  ghost predicate BitsOk(s: State) {
    && Bounds(s) && RadioOk(s.m.bits, s.radio)
    && (s.started.Some? ==> s.radio.on && !s.radio.stopping && Deinitializing !in s.m.bits)
    && (s.place.Waiting? ==> WaitBits(s.m, Since(s), Mark(Before(s)), s.place.cmd))
    && (!s.place.Waiting? && !s.place.Idle? ==>
          PreInit !in s.m.bits && SetupBits(s.place, s.m, s.radio, Mark(Before(s))))
  }

  lemma WaitBitsNext(m: Module, m': Module, es: seq<Entry>, mark: set<Bit>, cmd: Command, e: Entry)
    requires WaitBits(m, es, mark, cmd) && Deinitializing !in m.bits
    requires match e
             case Got(a, _) => m' == AddressGot(m, a)
             case Gone(v) => m' == Disconnected(m) && v == DisconnectVerdict(m)
             case Expired => m' == AddressLost(m)
    ensures WaitBits(m', es + [e], mark, cmd)
  {
    RetriesNext(es, e);
    FirstAddressNext(es, e);
    assert forall i :: 0 <= i < |es| ==> (es + [e])[i] == es[i];
  }

  lemma ReceiveBits(s: State, cmd: Command)
    requires BitsOk(s) && Enabled(s, Receive(cmd))
    ensures BitsOk(Next(s, Receive(cmd)))
  {
    assert s.log[|s.log|..] == [];
  }

  lemma SetupStepBits(s: State, step: Step)
    requires BitsOk(s) && Enabled(s, step)
    requires step.SeeStopped? || step.StopTimesOut? || step.Configure? || step.ConfigureFails? || step.Arm? ||
             step.StartFails?
    ensures BitsOk(Next(s, step))
  {
    MarkEmpty(Before(s));
  }

  lemma WaitStepBits(s: State, step: Step)
    requires BitsOk(s) && Enabled(s, step) && (step.Start? || step.Observe?)
    ensures BitsOk(Next(s, step))
  {
    if step.Start? {
      assert s.log[|s.log|..] == [] && s.log[s.begun..|s.log|] == s.log[s.begun..];
      MarkEmpty(Before(s));
    }
  }

  lemma RadioStepBits(s: State, step: Step)
    requires BitsOk(s) && Enabled(s, step) && (step.StaStart? || step.Connect? || step.Stop?)
    ensures BitsOk(Next(s, step))
  {
  }

  // The history after an event that the log records.
  lemma HistoryNext(s: State, t: State, e: Entry)
    requires Bounds(s) && t.log == s.log + [e] && t.begun == s.begun && t.started == s.started && t.ended == s.ended
    requires t.place == s.place
    ensures Bounds(t)
    ensures s.started.Some? ==> Before(t) == Before(s) && Since(t) == Since(s) + [e]
    ensures s.started.None? ==> Before(t) == Before(s) + [e]
  {
    SliceNext(s.log, e, s.begun);
    if s.started.Some? {
      SliceNext(s.log, e, s.started.value);
    }
  }

  // Before the wait a disconnect changes no bit: the driver is being stopped.
  lemma SetupGone(place: Place, m: Module, radio: Radio, mark: set<Bit>)
    requires !place.Idle? && !place.Waiting?
    requires RadioOk(m.bits, radio) && SetupBits(place, m, radio, mark) && radio.connecting
    ensures DisconnectVerdict(m) == Verdict(false, false) && Disconnected(m) == m.(ssid := [])
    ensures var radio' := radio.(connecting := false, joined := None);
            RadioOk(m.bits, radio') && SetupBits(place, Disconnected(m), radio', mark)
  {
  }

  // An address can still be got then, and may expire at any time.
  lemma SetupGot(place: Place, m: Module, radio: Radio, mark: set<Bit>, a: Addresses)
    requires !place.Idle? && !place.Waiting?
    requires RadioOk(m.bits, radio) && SetupBits(place, m, radio, mark) && radio.joined.Some? && PreInit !in m.bits
    ensures var m' := AddressGot(m, a);
            RadioOk(m'.bits, radio) && SetupBits(place, m', radio, {GotIp}) && PreInit !in m'.bits
  {
  }

  lemma SetupLost(place: Place, m: Module, radio: Radio, mark: set<Bit>)
    requires !place.Idle? && !place.Waiting? && (mark == {} || mark == {GotIp} || mark == {LostIp})
    requires RadioOk(m.bits, radio) && SetupBits(place, m, radio, mark) && PreInit !in m.bits
    ensures var m' := AddressLost(m);
            RadioOk(m'.bits, radio) && SetupBits(place, m', radio, {LostIp}) && PreInit !in m'.bits
  {
  }

  lemma SetupBitsNext(s: State, step: Step)
    requires BitsOk(s) && Enabled(s, step) && !s.place.Idle? && !s.place.Waiting?
    requires step.GetIp? || step.Disconnect? || step.LoseIp?
    ensures BitsOk(Next(s, step))
  {
    var t := Next(s, step);
    var e, mark := t.log[|s.log|], Mark(Before(s));
    HistoryNext(s, t, e);
    MarkNext(Before(s), e);
    match step
    case GetIp(a) => SetupGot(s.place, s.m, s.radio, mark, a);
    case Disconnect => SetupGone(s.place, s.m, s.radio, mark);
    case LoseIp =>
      MarkEmpty(Before(s));
      SetupLost(s.place, s.m, s.radio, mark);
  }

  lemma IdleBitsNext(s: State, step: Step)
    requires BitsOk(s) && Enabled(s, step) && s.place.Idle?
    requires step.GetIp? || step.Disconnect? || step.LoseIp?
    ensures BitsOk(Next(s, step))
  {
  }

  lemma WaitingRadio(s: State, step: Step)
    requires BitsOk(s) && Enabled(s, step) && s.place.Waiting? && (step.GetIp? || step.Disconnect? || step.LoseIp?)
    ensures var t := Next(s, step);
            RadioOk(t.m.bits, t.radio) && t.radio.on && !t.radio.stopping && Deinitializing !in t.m.bits
  {
  }

  lemma WaitingBitsNext(s: State, step: Step)
    requires BitsOk(s) && Enabled(s, step) && s.place.Waiting?
    requires step.GetIp? || step.Disconnect? || step.LoseIp?
    ensures BitsOk(Next(s, step))
  {
    var t := Next(s, step);
    var e := t.log[|s.log|];
    HistoryNext(s, t, e);
    WaitingRadio(s, step);
    WaitBitsNext(s.m, t.m, Since(s), Mark(Before(s)), s.place.cmd, e);
  }

  lemma BitsStep(s: State, step: Step)
    requires BitsOk(s) && Enabled(s, step)
    ensures BitsOk(Next(s, step))
  {
    if step.GetIp? || step.Disconnect? || step.LoseIp? {
      if s.place.Idle? {
        IdleBitsNext(s, step);
      } else if s.place.Waiting? {
        WaitingBitsNext(s, step);
      } else {
        SetupBitsNext(s, step);
      }
    } else if step.StaStart? || step.Connect? || step.Stop? {
      RadioStepBits(s, step);
    } else if step.Start? || step.Observe? {
      WaitStepBits(s, step);
    } else if step.Receive? {
      ReceiveBits(s, step.cmd);
    } else {
      SetupStepBits(s, step);
    }
  }

  // ---------- the addresses ----------

  // An address was got since the last attempt started the driver.
  predicate HasAddress(s: State)
    requires s.started.Some? ==> s.started.value <= |s.log|
  {
    FirstAddress(Since(s)).Some?
  }

  // The cached address is the latest one.  It is current, got on the connection that is up and not
  // expired, when the bit is set and it was got since the driver was started.
  ghost predicate AddressOk(s: State)
    requires Bounds(s)
  {
    && s.m.received == LatestAddress(s.log)
    && (s.radio.joined.Some? ==> s.m.ssid == s.radio.joined.value)
    && (HasAddress(s) ==> SeveralTries !in s.m.bits)
    && (GotIp in s.m.bits ==> HasAddress(s) || GotIp in Mark(Before(s)))
    && (AddressCurrent(s) <==> GotIp in s.m.bits && HasAddress(s))
    && (AddressCurrent(s) ==> s.radio.joined.Some? && s.log[|s.log| - 1] == Got(s.m.received, s.m.ssid))
  }

  // The part of the invariant that is about one state of the module and its history.
  lemma AddressNext(s: State, t: State, e: Entry)
    requires Bounds(s) && AddressOk(s) && t.log == s.log + [e] && t.started == s.started && t.begun == s.begun
    requires t.ended == s.ended && t.place == s.place
    requires s.started.Some? ==> Deinitializing !in s.m.bits
    requires match e
             case Got(a, n) =>
               t.m == AddressGot(s.m, a) && t.radio == s.radio && s.radio.joined == Some(n)
             case Gone(v) =>
               t.m == Disconnected(s.m) && v == DisconnectVerdict(s.m) && t.radio.joined == None
             case Expired => t.m == AddressLost(s.m) && t.radio == s.radio
    ensures Bounds(t) && AddressOk(t)
  {
    LatestNext(s.log, e);
    HistoryNext(s, t, e);
    FirstAddressNext(Since(s), e);
    MarkNext(Before(s), e);
    assert t.log[|t.log| - 1] == e;
  }

  lemma AddressEvent(s: State, step: Step)
    requires BitsOk(s) && AddressOk(s) && Enabled(s, step) && (step.GetIp? || step.Disconnect? || step.LoseIp?)
    ensures Bounds(Next(s, step)) && AddressOk(Next(s, step))
  {
    AddressNext(s, Next(s, step), Next(s, step).log[|s.log|]);
  }

  lemma AddressReceive(s: State, cmd: Command)
    requires BitsOk(s) && AddressOk(s) && Enabled(s, Receive(cmd))
    ensures Bounds(Next(s, Receive(cmd))) && AddressOk(Next(s, Receive(cmd)))
  {
    assert s.log[|s.log|..] == [];
  }

  lemma AddressKept(s: State, step: Step)
    requires BitsOk(s) && AddressOk(s) && Enabled(s, step) && !step.GetIp? && !step.Disconnect? && !step.LoseIp?
    requires !step.Start? && !step.Receive?
    ensures Bounds(Next(s, step)) && AddressOk(Next(s, step))
  {
    assert s.log[|s.log|..] == [];
  }

  lemma AddressStart(s: State)
    requires BitsOk(s) && AddressOk(s) && Enabled(s, Start)
    ensures Bounds(Next(s, Start)) && AddressOk(Next(s, Start))
  {
    assert s.log[|s.log|..] == [] && s.log[s.begun..|s.log|] == s.log[s.begun..];
    MarkEmpty(Before(s));
  }

  // ---------- the internal queue ----------

  // A request for an address, and what has come of it.
  ghost predicate Outbox(m: Module, on: bool, es: seq<Entry>, found: Option<Addresses>) {
    && (InternalQueue in m.bits <==> on && Pending(es))
    && m.queue == if found.Some? then found else if on then Fetched(es) else None
  }

  lemma OutboxNext(m: Module, m': Module, on: bool, es: seq<Entry>, found: Option<Addresses>, e: Entry)
    requires Outbox(m, on, es, found)
    requires match e
             case Got(a, _) => m' == AddressGot(m, a)
             case Gone(v) => m' == Disconnected(m) && v == DisconnectVerdict(m)
             case Expired => m' == AddressLost(m)
    ensures Outbox(m', on, es + [e], found)
  {
    FetchedNext(es, e);
  }

  ghost predicate QueueOk(s: State)
    requires Bounds(s)
  {
    match s.place
    case Idle =>
      Outbox(s.m, s.standing, s.log[s.ended..], None) && s.sent <= 1 && (InternalQueue in s.m.bits ==> s.sent == 0)
    case Waiting(cmd) =>
      && Outbox(s.m, cmd.needResponse, Since(s), s.found)
      && s.sent == if cmd.needResponse && Fetched(Since(s)).Some? then 1 else 0
    case _ => s.m.queue == s.found && s.sent == 0
  }

  lemma QueueEvent(s: State, step: Step)
    requires BitsOk(s) && QueueOk(s) && Enabled(s, step) && (step.GetIp? || step.Disconnect? || step.LoseIp?)
    requires s.place.Idle? || s.place.Waiting?
    ensures Bounds(Next(s, step)) && QueueOk(Next(s, step))
  {
    var t := Next(s, step);
    var e := t.log[|s.log|];
    HistoryNext(s, t, e);
    if s.place.Waiting? {
      OutboxNext(s.m, t.m, s.place.cmd.needResponse, Since(s), s.found, e);
      FetchedNext(Since(s), e);
    } else {
      SliceNext(s.log, e, s.ended);
      OutboxNext(s.m, t.m, s.standing, s.log[s.ended..], None, e);
    }
  }

  // Before the wait nothing is sent to the queue.
  lemma NothingSent(s: State)
    requires BitsOk(s) && !s.place.Idle? && !s.place.Waiting? && s.radio.joined.Some?
    ensures InternalQueue !in s.m.bits
  {
  }

  lemma QueueSetupEvent(s: State, step: Step)
    requires BitsOk(s) && QueueOk(s) && Enabled(s, step) && (step.GetIp? || step.Disconnect? || step.LoseIp?)
    requires !s.place.Idle? && !s.place.Waiting?
    ensures Bounds(Next(s, step)) && QueueOk(Next(s, step))
  {
    var t := Next(s, step);
    HistoryNext(s, t, t.log[|s.log|]);
    if step.GetIp? {
      NothingSent(s);
    }
  }

  lemma QueueReceive(s: State, cmd: Command)
    requires BitsOk(s) && QueueOk(s) && Enabled(s, Receive(cmd))
    ensures Bounds(Next(s, Receive(cmd))) && QueueOk(Next(s, Receive(cmd)))
  {
    assert s.log[|s.log|..] == [];
  }

  lemma QueueWait(s: State, step: Step)
    requires BitsOk(s) && QueueOk(s) && Enabled(s, step) && (step.Start? || step.Observe?)
    ensures Bounds(Next(s, step)) && QueueOk(Next(s, step))
  {
    assert s.log[|s.log|..] == [];
    if step.Start? {
      MarkEmpty(Before(s));
    } else if Pending(Since(s)) {
      PendingIsNone(Since(s));
    }
  }

  lemma QueueSetup(s: State, step: Step)
    requires BitsOk(s) && QueueOk(s) && Enabled(s, step) && !step.GetIp? && !step.Disconnect? && !step.LoseIp?
    requires !step.Receive? && !step.Start? && !step.Observe?
    ensures Bounds(Next(s, step)) && QueueOk(Next(s, step))
  {
    assert s.log[|s.log|..] == [];
  }

  // ---------- requests left standing ----------

  // The driver can still report an address.
  predicate Live(r: Radio) {
    r.on && !r.stopping && (r.starting || r.connecting)
  }

  // The address bits were touched before an attempt started the driver, or an address expired since
  // before one was got.
  predicate Disturbed(before: seq<Entry>, since: seq<Entry>) {
    !Untouched(before) || ExpiresFirst(since)
  }

  // Once its wait is decided, an attempt's request is still live only if the attempt was disturbed.
  ghost predicate StandingOk(s: State)
    requires Bounds(s)
  {
    match s.place
    case Idle =>
      (InternalQueue in s.m.bits && Live(s.radio)) || s.m.queue.Some? ==>
        s.started.Some? && Disturbed(Before(s), s.log[s.started.value..s.ended])
    case Waiting(_) =>
      InternalQueue in s.m.bits && Live(s.radio) && Retries(Since(s)) < |Since(s)| ==> ExpiresFirst(Since(s))
    case _ => true
  }

  lemma StandingGone(s: State)
    requires BitsOk(s) && StandingOk(s) && Enabled(s, Disconnect) && s.place.Waiting?
    ensures Bounds(Next(s, Disconnect)) && StandingOk(Next(s, Disconnect))
  {
    var t := Next(s, Disconnect);
    var e := Gone(DisconnectVerdict(s.m));
    HistoryNext(s, t, e);
    ExpiresFirstNext(Since(s), e);
    RetriesNext(Since(s), e);
  }

  lemma StandingGot(s: State, a: Addresses)
    requires BitsOk(s) && StandingOk(s) && Enabled(s, GetIp(a)) && s.place.Waiting?
    ensures Bounds(Next(s, GetIp(a))) && StandingOk(Next(s, GetIp(a)))
  {
    HistoryNext(s, Next(s, GetIp(a)), Got(a, s.radio.joined.value));
  }

  lemma StandingExpired(s: State)
    requires BitsOk(s) && StandingOk(s) && s.place.Waiting?
    ensures Bounds(Next(s, LoseIp)) && StandingOk(Next(s, LoseIp))
  {
    HistoryNext(s, Next(s, LoseIp), Expired);
    ExpiresFirstNext(Since(s), Expired);
    if Retries(Since(s)) == |Since(s)| {
      FetchedIsFirst(Since(s));
      PendingIsNone(Since(s));
    }
  }

  lemma StandingIdle(s: State, step: Step)
    requires BitsOk(s) && StandingOk(s) && Enabled(s, step) && s.place.Idle?
    requires step.GetIp? || step.Disconnect? || step.LoseIp?
    ensures Bounds(Next(s, step)) && StandingOk(Next(s, step))
  {
    var t := Next(s, step);
    HistoryNext(s, t, t.log[|s.log|]);
    if s.started.Some? {
      SliceNext(s.log, t.log[|s.log|], s.started.value);
    }
  }

  // An attempt that ends leaves a live request only if it was disturbed.
  lemma StandingObserve(s: State)
    requires BitsOk(s) && StandingOk(s) && Enabled(s, Observe)
    ensures Bounds(Next(s, Observe)) && StandingOk(Next(s, Observe))
  {
    assert s.log[s.started.value..|s.log|] == Since(s);
    MarkEmpty(Before(s));
  }

  // A command answered from the cache belongs to no attempt, and lengthens the history of the last.
  lemma StandingReceive(s: State, cmd: Command)
    requires BitsOk(s) && StandingOk(s) && Enabled(s, Receive(cmd))
    ensures Bounds(Next(s, Receive(cmd))) && StandingOk(Next(s, Receive(cmd)))
  {
    if s.started.Some? && cmd.ssid == s.m.ssid {
      var since := s.log[s.started.value..s.ended];
      assert s.log[s.started.value..|s.log|] == since + s.log[s.ended..];
      if ExpiresFirst(since) {
        ExpiresFirstLonger(since, s.log[s.ended..]);
      }
    }
  }

  lemma StandingKept(s: State, step: Step)
    requires BitsOk(s) && StandingOk(s) && Enabled(s, step) && !step.Receive? && !step.Observe?
    requires !step.GetIp? && !step.Disconnect? && !step.LoseIp?
    ensures Bounds(Next(s, step)) && StandingOk(Next(s, step))
  {
    assert s.log[|s.log|..] == [];
  }

  // ---------- all together ----------

  ghost predicate Inv(s: State) {
    BitsOk(s) && AddressOk(s) && QueueOk(s) && StandingOk(s)
  }

  lemma EventStep(s: State, step: Step)
    requires Inv(s) && Enabled(s, step) && (step.GetIp? || step.Disconnect? || step.LoseIp?)
    ensures Inv(Next(s, step))
  {
    BitsStep(s, step);
    AddressEvent(s, step);
    if s.place.Idle? {
      QueueEvent(s, step);
      StandingIdle(s, step);
    } else if s.place.Waiting? {
      QueueEvent(s, step);
      match step
      case GetIp(a) => StandingGot(s, a);
      case Disconnect => StandingGone(s);
      case LoseIp => StandingExpired(s);
    } else {
      QueueSetupEvent(s, step);
    }
  }

  lemma WaitStep(s: State, step: Step)
    requires Inv(s) && Enabled(s, step) && (step.Start? || step.Observe?)
    ensures Inv(Next(s, step))
  {
    BitsStep(s, step);
    QueueWait(s, step);
    if step.Start? {
      AddressStart(s);
      StandingKept(s, step);
    } else {
      AddressKept(s, step);
      StandingObserve(s);
    }
  }

  lemma OtherStep(s: State, step: Step)
    requires Inv(s) && Enabled(s, step) && !step.GetIp? && !step.Disconnect? && !step.LoseIp?
    requires !step.Start? && !step.Observe?
    ensures Inv(Next(s, step))
  {
    BitsStep(s, step);
    if step.Receive? {
      AddressReceive(s, step.cmd);
      QueueReceive(s, step.cmd);
      StandingReceive(s, step.cmd);
    } else {
      AddressKept(s, step);
      QueueSetup(s, step);
      StandingKept(s, step);
    }
  }

  lemma {:induction false} AlwaysInv(ss: seq<State>, steps: seq<Step>, i: nat)
    requires Run(ss, steps) && i < |ss|
    ensures Inv(ss[i])
  {
    if i > 0 {
      AlwaysInv(ss, steps, i - 1);
      var s, step := ss[i - 1], steps[i - 1];
      assert StepsTo(s, step, ss[i]);
      if step.GetIp? || step.Disconnect? || step.LoseIp? {
        EventStep(s, step);
      } else if step.Start? || step.Observe? {
        WaitStep(s, step);
      } else {
        OtherStep(s, step);
      }
    }
  }
}
