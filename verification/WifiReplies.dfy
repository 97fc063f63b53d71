// What the worker of wifi.c can be relied on for, on every run: how often it retries, when its wait
// ends, whose addresses it replies with, and when it can no longer serve anybody.
module WifiReplies {
  import opened Wrappers
  import opened WifiSpec
  import opened WifiRun
  import opened WifiProofs

  // ---------- the attempt ----------

  // Where the present attempt began: the command it carries out, the history until then, and what
  // the internal queue held.
  lemma {:induction false} AttemptBegan(ss: seq<State>, steps: seq<Step>, i: nat) returns (j: nat)
    requires Run(ss, steps) && i < |ss| && ss[i].place != Idle
    ensures j < i && steps[j].Receive? && steps[j].cmd == ss[i].place.cmd
    ensures ss[i].begun == |ss[j].log| && ss[i].found == ss[j].m.queue && ss[j].place == Idle
    ensures |ss[j].log| <= |ss[i].log| && ss[i].log[..|ss[j].log|] == ss[j].log
  {
    assert StepsTo(ss[i - 1], steps[i - 1], ss[i]);
    if steps[i - 1].Receive? {
      j := i - 1;
    } else {
      j := AttemptBegan(ss, steps, i - 1);
    }
  }

  // The tries: at most as many disconnects as the command asked for are answered by another one, in
  // every run.  The wait is over exactly when something else has happened since the driver was
  // started, or when an address had been got or had expired before; what ends the tries is an
  // address, an expiry, or the disconnect after the last try, with exactly the tries asked for made.
  lemma RetriesBounded(ss: seq<State>, steps: seq<Step>, i: nat)
    requires Run(ss, steps) && i < |ss| && ss[i].place.Waiting?
    ensures var s := ss[i]; var cmd := s.place.cmd;
            Bounds(s) &&
            var es := Since(s); var k := Retries(es);
            && k <= cmd.attempts
            && (Enabled(s, Observe) <==> k < |es| || !Untouched(Before(s)))
            && (k == |es| && cmd.attempts > 0 ==> s.m.attempts == cmd.attempts - k)
            && (k < |es| ==>
                  es[k].Got? || es[k].Expired? || (k == cmd.attempts && es[k] == Gone(Verdict(cmd.ceaseless, true))))
  {
    AlwaysInv(ss, steps, i);
    MarkEmpty(Before(ss[i]));
  }

  // An attempt that is not disturbed waits exactly as long as it retries.
  lemma RetriesInOrder(ss: seq<State>, steps: seq<Step>, i: nat)
    requires Run(ss, steps) && i < |ss| && ss[i].place.Waiting?
    requires Bounds(ss[i]) && !Disturbed(Before(ss[i]), Since(ss[i]))
    ensures var s := ss[i]; var cmd := s.place.cmd; var es := Since(s); var k := Retries(es);
            && (Enabled(s, Observe) <==> k < |es|)
            && (k < |es| ==> es[k].Got? || (k == cmd.attempts && es[k] == Gone(Verdict(cmd.ceaseless, true))))
  {
    RetriesBounded(ss, steps, i);
    FetchedIsFirst(Since(ss[i]));
  }

  // ---------- the reply ----------

  // In every run: an attempt succeeds if and only if the address bit is set and, where a reply is
  // wanted, the internal queue held an address at the command or the attempt's request has fetched
  // one.  The reply is what the queue held at the command, or else the first address got since the
  // driver was started for it; so it is the attempt's own exactly when the queue was empty at the
  // command or happened to hold the same.
  lemma ReplyIsFreshIff(ss: seq<State>, steps: seq<Step>, i: nat)
    requires Run(ss, steps) && i < |steps| && steps[i].Observe?
    ensures ss[i].place.Waiting? && Bounds(ss[i]) &&
            var s := ss[i]; var cmd := s.place.cmd; var answer := ss[i + 1].answer; var first := FirstAddress(Since(s));
            && (answer.Success? <==>
                  GotIp in s.m.bits && (cmd.needResponse ==> s.found.Some? || Fetched(Since(s)).Some?))
            && (answer.Success? && cmd.needResponse ==>
                  && answer.reply == (if s.found.Some? then s.found else first)
                  && (answer.reply == first <==> s.found == None || s.found == first))
  {
    AlwaysInv(ss, steps, i);
    var s := ss[i];
    assert StepsTo(s, steps[i], ss[i + 1]);
    FetchedIsFirst(Since(s));
  }

  // A success stands for an address of the connection that was commanded if and only if something
  // but retries has happened since the driver was started; otherwise an address got while it was
  // being stopped has set the bit.
  lemma SuccessIsOwnIff(ss: seq<State>, steps: seq<Step>, i: nat)
    requires Run(ss, steps) && i < |steps| && steps[i].Observe? && ss[i + 1].answer.Success?
    ensures Bounds(ss[i]) &&
            var s := ss[i];
            && (FirstAddress(Since(s)).Some? <==> Retries(Since(s)) < |Since(s)|)
            && (FirstAddress(Since(s)).None? ==> Mark(Before(s)) == {GotIp})
  {
    AlwaysInv(ss, steps, i);
    var s := ss[i];
    assert StepsTo(s, steps[i], ss[i + 1]);
    FetchedIsFirst(Since(s));
    MarkEmpty(Before(s));
    if Pending(Since(s)) {
      PendingIsNone(Since(s));
    }
  }

  // A worker that looks as soon as something has ended the tries succeeds exactly when it was an
  // address.
  lemma PromptAnswer(ss: seq<State>, steps: seq<Step>, i: nat)
    requires Run(ss, steps) && i < |steps| && steps[i].Observe?
    requires Bounds(ss[i]) && |Since(ss[i])| == Retries(Since(ss[i])) + 1
    ensures ss[i + 1].answer.Success? <==> ss[i].log[|ss[i].log| - 1].Got?
  {
    AlwaysInv(ss, steps, i);
    ReplyIsFreshIff(ss, steps, i);
    FetchedIsFirst(Since(ss[i]));
  }

  // What the queue holds at a command: nothing, unless the worker came to rest with a request left
  // standing that an address has answered since.  That takes an attempt that was disturbed.
  lemma QueueAtCommand(ss: seq<State>, steps: seq<Step>, i: nat)
    requires Run(ss, steps) && i < |ss| && ss[i].place == Idle
    ensures var s := ss[i];
            && Bounds(s)
            && s.m.queue == (if s.standing then Fetched(s.log[s.ended..]) else None)
            && (s.m.queue.Some? ==> s.started.Some? && Disturbed(Before(s), s.log[s.started.value..s.ended]))
  {
    AlwaysInv(ss, steps, i);
  }

  // The internal queue is sent to at most once in an attempt, and a send finds it full exactly when
  // it was already holding an address at the attempt's command.
  lemma QueueDiscipline(ss: seq<State>, steps: seq<Step>, i: nat)
    requires Run(ss, steps) && i < |ss|
    ensures ss[i].sent <= 1
    ensures i < |steps| && steps[i].GetIp? && InternalQueue in ss[i].m.bits ==>
              && ss[i].sent == 0
              && (ss[i].m.queue.Some? <==> ss[i].place.Waiting? && ss[i].found.Some?)
              && (ss[i].m.queue.None? ==> ss[i + 1].m.queue == Some(steps[i].addresses))
  {
    AlwaysInv(ss, steps, i);
    var s := ss[i];
    if i < |steps| && steps[i].GetIp? && InternalQueue in s.m.bits {
      assert StepsTo(s, steps[i], ss[i + 1]);
      if s.place.Waiting? {
        PendingIsNone(Since(s));
      } else if s.place.Idle? {
        PendingIsNone(s.log[s.ended..]);
      } else {
        NothingSent(s);
      }
    }
  }

  // ---------- the cached reply ----------

  // The address was got for the network on the connection that is up, and has not expired.
  predicate OfPresentConnection(s: State, a: Addresses, network: string) {
    && AddressCurrent(s) && s.log[|s.log| - 1] == Got(a, network)
    && s.radio.joined == Some(network) && !s.radio.stopping
  }

  // A command for the network the station is on is answered at once, with the latest address got if
  // it has not expired.  It is an address of the present connection to that network if and only if
  // STATE_GOT_IP is set, which the code does not test, and an address was got since the driver was
  // last started.  The bit alone decides, unless an address was got while the driver was being stopped.
  lemma CachedReplyIff(ss: seq<State>, steps: seq<Step>, i: nat)
    requires Run(ss, steps) && i < |steps| && steps[i].Receive? && steps[i].cmd.ssid == ss[i].m.ssid
    ensures var s := ss[i]; var cmd := steps[i].cmd; var a := LatestAddress(s.log);
            && ss[i + 1].place == Idle && ss[i + 1].m.bits == s.m.bits && ss[i + 1].radio == s.radio
            && ss[i + 1].answer == Success(if cmd.needResponse then Some(a) else None)
            && Bounds(s)
            && (OfPresentConnection(s, a, cmd.ssid) <==> GotIp in s.m.bits && HasAddress(s))
            && (GotIp !in Mark(Before(s)) ==> (OfPresentConnection(s, a, cmd.ssid) <==> GotIp in s.m.bits))
  {
    AlwaysInv(ss, steps, i);
    assert StepsTo(ss[i], steps[i], ss[i + 1]);
  }

  // ---------- starting and not starting again ----------

  // The driver is started only when it is off: its stop has been handled, and of the bits of an
  // earlier connection only what the events since the command have left of the address bits remains.
  lemma StartedOnlyWhenOff(ss: seq<State>, steps: seq<Step>, i: nat)
    requires Run(ss, steps) && i < |steps| && steps[i].Start?
    ensures ss[i].radio == OFF && ss[i].m.bits !! {Deinitializing, Stopped, PreInit}
    ensures Bounds(ss[i]) && ss[i].m.bits * {GotIp, LostIp} == Mark(Before(ss[i]))
  {
    AlwaysInv(ss, steps, i);
    assert StepsTo(ss[i], steps[i], ss[i + 1]);
    MarkEmpty(Before(ss[i]));
  }

  // The driver could not be stopped, configured or started.
  predicate Fails(step: Step) {
    step.StopTimesOut? || step.ConfigureFails? || step.StartFails?
  }

  // An attempt ends at exactly these failures, where its command is answered with a failure at once,
  // or when the worker sees an address bit.  No other step touches the answer, but for the reply to a
  // command for the network last named.
  lemma FailureIsAnswered(ss: seq<State>, steps: seq<Step>, i: nat)
    requires Run(ss, steps) && i < |steps|
    ensures var (s, t) := (ss[i], ss[i + 1]);
            && (!s.place.Idle? && t.place.Idle? <==> Fails(steps[i]) || steps[i].Observe?)
            && (Fails(steps[i]) ==> t.answer == Failed && t.m.queue == None && t.radio == s.radio)
            && (Fails(steps[i]) && !steps[i].StopTimesOut? ==> t.radio == OFF)
            && (steps[i].StartFails? ==> InternalQueue !in t.m.bits)
            && (!Fails(steps[i]) && !steps[i].Observe? && !(steps[i].Receive? && t.place.Idle?) ==>
                  t.answer == s.answer)
  {
    AlwaysInv(ss, steps, i);
    assert StepsTo(ss[i], steps[i], ss[i + 1]);
  }

  // The driver is off, nothing says that it may be started, and no event can.
  predicate Stuck(s: State) {
    s.radio == OFF && PreInit !in s.m.bits && Stopped !in s.m.bits && (s.place.Idle? || s.place.Stopping?)
  }

  lemma StuckStep(s: State, step: Step)
    requires Stuck(s) && Enabled(s, step)
    ensures var t := Next(s, step);
            && Stuck(t) && t.m.ssid == s.m.ssid
            && t.answer == if step.StopTimesOut? then Failed
                           else if step.Receive? && step.cmd.ssid == s.m.ssid then
                             Success(if step.cmd.needResponse then Some(s.m.received) else None)
                           else s.answer
  {
  }

  lemma FailedIsStuck(ss: seq<State>, steps: seq<Step>, i: nat)
    requires Run(ss, steps) && i < |steps| && (steps[i].ConfigureFails? || steps[i].StartFails?)
    ensures Stuck(ss[i + 1]) && ss[i + 1].m.ssid == ss[i].m.ssid
  {
    AlwaysInv(ss, steps, i);
    assert StepsTo(ss[i], steps[i], ss[i + 1]);
    MarkEmpty(Before(ss[i]));
  }

  // After one attempt that fails before the driver has started, no later CONNECT_TO_AP on its own
  // starts it again: the only answers are time-outs, and cached replies for the network last named.
  lemma {:induction false} FailureBeforeStartIsFinal(ss: seq<State>, steps: seq<Step>, i: nat, j: nat)
    requires Run(ss, steps) && i < j < |ss| && (steps[i].ConfigureFails? || steps[i].StartFails?)
    ensures Stuck(ss[j]) && ss[j].m.ssid == ss[i].m.ssid
    ensures j < |steps| ==> !steps[j].Start?
    ensures j < |steps| && ss[j + 1].answer.Success? && ss[j + 1].answer != ss[j].answer ==>
              steps[j].Receive? && steps[j].cmd.ssid == ss[i].m.ssid
  {
    if j == i + 1 {
      FailedIsStuck(ss, steps, i);
    } else {
      FailureBeforeStartIsFinal(ss, steps, i, j - 1);
      assert StepsTo(ss[j - 1], steps[j - 1], ss[j]);
      StuckStep(ss[j - 1], steps[j - 1]);
    }
    if j < |steps| {
      assert StepsTo(ss[j], steps[j], ss[j + 1]);
      StuckStep(ss[j], steps[j]);
    }
  }

  // ---------- runs the code allows ----------

  ghost predicate Reached(s: State) {
    exists ss, steps :: Run(ss, steps) && ss[|ss| - 1] == s
  }

  lemma ReachedBoot()
    ensures Reached(Boot())
  {
    assert Run([Boot()], []) && [Boot()][|[Boot()]| - 1] == Boot();
  }

  lemma ReachedBounds(s: State)
    requires Reached(s)
    ensures Bounds(s)
  {
    var ss, steps :| Run(ss, steps) && ss[|ss| - 1] == s;
    AlwaysInv(ss, steps, |ss| - 1);
  }

  lemma Go(s: State, step: Step) returns (t: State)
    requires Reached(s) && Enabled(s, step)
    ensures t == Next(s, step) && Reached(t)
  {
    t := Next(s, step);
    var ss, steps :| Run(ss, steps) && ss[|ss| - 1] == s;
    Extend(ss, steps, step);
    var tt := ss + [t];
    assert tt[|tt| - 1] == t;
  }

  lemma Extend(ss: seq<State>, steps: seq<Step>, step: Step)
    requires Run(ss, steps) && Enabled(ss[|ss| - 1], step)
    ensures Run(ss + [Next(ss[|ss| - 1], step)], steps + [step])
  {
    var tt, all := ss + [Next(ss[|ss| - 1], step)], steps + [step];
    forall i | 0 <= i < |all|
      ensures StepsTo(tt[i], all[i], tt[i + 1])
    {
      if i < |steps| {
        assert StepsTo(ss[i], steps[i], ss[i + 1]);
      }
    }
  }

  // An attempt to leave the present network for another, up to the radio's asking for a connection.
  lemma Dial(s: State, cmd: Command) returns (t: State)
    requires Reached(s) && s.place == Idle && s.m.ssid != cmd.ssid && cmd.attempts == 0
    requires if s.radio.on then PreInit !in s.m.bits else PreInit in s.m.bits
    ensures Reached(t) && t.place == Waiting(cmd) && t.radio == Radio(true, false, true, None, false)
    ensures t.m == s.m.(bits := {Sta} + Wanted(cmd) + Requested(cmd))
    ensures t.log == s.log && t.begun == |t.log| && t.started == Some(|t.log|)
    ensures t.found == s.m.queue && t.answer == s.answer
  {
    t := Go(s, Receive(cmd));
    if s.radio.on {
      t := Go(t, Stop);
      t := Go(t, SeeStopped);
      assert t.m.bits == {Sta};
    }
    t := StartUp(t, cmd);
    t := Go(t, StaStart);
  }

  // From the driver's stop to its start.
  lemma StartUp(s: State, cmd: Command) returns (t: State)
    requires Reached(s) && s.place == Starting(cmd)
    ensures Reached(t) && t.place == Waiting(cmd) && t.radio == Radio(true, true, false, None, false)
    ensures t.m == s.m.(bits := s.m.bits + Wanted(cmd) + Requested(cmd),
                        attempts := if cmd.attempts > 0 then cmd.attempts else s.m.attempts)
    ensures t.log == s.log && t.begun == s.begun && t.started == Some(|t.log|)
    ensures t.found == s.found && t.answer == s.answer
  {
    t := Go(s, Configure);
    t := Go(t, Arm);
    t := Go(t, Start);
  }

  // An address expires before the first one of an attempt is got: the attempt ends with its request
  // left standing, and the address that request fetches stays in the queue.
  lemma LeftOver(a: Addresses) returns (s: State)
    ensures Reached(s) && s.place == Idle && s.m.ssid == "a" && s.m.queue == Some(a)
    ensures s.radio.on && PreInit !in s.m.bits
  {
    ReachedBoot();
    s := Dial(Boot(), Command("a", false, true, 0));
    s := Go(s, LoseIp);
    s := Go(s, Observe);
    s := Go(s, Connect("a"));
    s := Go(s, GetIp(a));
  }

  // So a stale reply does happen: the next attempt replies with that address instead of its own.
  lemma StaleReply(a: Addresses, b: Addresses) returns (s: State)
    ensures Reached(s) && Enabled(s, Observe)
    ensures Next(s, Observe).answer == Success(Some(a)) && s.found == Some(a)
    ensures Bounds(s) && FirstAddress(Since(s)) == Some(b)
  {
    s := LeftOver(a);
    s := Dial(s, Command("b", false, true, 0));
    assert s.log[|s.log|..] == [];
    s := Go(s, Connect("b"));
    s := Go(s, GetIp(b));
    ReachedBounds(s);
    assert Since(s) == [Got(b, "b")];
  }

  // The station has an address of network "a".
  lemma OnNetwork(a: Addresses) returns (s: State)
    ensures Reached(s) && s.place == Idle && s.m.ssid == "a" && s.radio == Radio(true, false, true, Some("a"), false)
    ensures s.log == [Got(a, "a")] && PreInit !in s.m.bits && s.m.queue == None
  {
    ReachedBoot();
    s := Dial(Boot(), Command("a", true, false, 0));
    s := Go(s, Connect("a"));
    s := Go(s, GetIp(a));
    s := Go(s, Observe);
  }

  // Its lease is renewed while the driver is being stopped for another network.
  lemma RenewedWhileStopping(a: Addresses, cmd: Command) returns (s: State)
    requires cmd.ssid != "a"
    ensures Reached(s) && s.place == Starting(cmd) && s.m.bits == {Sta, GotIp} && s.m.ssid == "a" && s.m.received == a
  {
    s := OnNetwork(a);
    s := Go(s, Receive(cmd));
    s := Go(s, GetIp(a));
    s := Go(s, Stop);
    s := Go(s, SeeStopped);
    assert s.m.bits == {Sta, GotIp};
  }

  // Then the attempt for network "b" has succeeded as soon as the driver is started, before it has
  // asked for a connection, and a command for "a" is answered with the address of the connection
  // that was taken down.
  lemma SuccessBeforeConnecting(a: Addresses) returns (s: State, t: State)
    ensures Reached(s) && s.place == Waiting(Command("b", true, false, 0)) && Enabled(s, Observe)
    ensures s.radio == Radio(true, true, false, None, false) && Bounds(s) && Since(s) == []
    ensures t == Next(s, Observe) && t.answer == Success(None) && GotIp in t.m.bits
    ensures t.m.ssid == "a" && Enabled(t, Receive(Command("a", true, true, 0)))
    ensures Next(t, Receive(Command("a", true, true, 0))).answer == Success(Some(a))
  {
    var cmd := Command("b", true, false, 0);
    s := RenewedWhileStopping(a, cmd);
    s := StartUp(s, cmd);
    ReachedBounds(s);
    t := Next(s, Observe);
  }

  // A disconnect that is not flagged as a loss: a try is left.
  lemma DisconnectNotFlagged() returns (s: State)
    ensures Reached(s) && Enabled(s, Disconnect)
    ensures LostIp !in Next(s, Disconnect).m.bits && Next(s, Disconnect).log == [Gone(Verdict(true, false))]
  {
    var cmd := Command("a", false, false, 1);
    ReachedBoot();
    s := Go(Boot(), Receive(cmd));
    s := StartUp(s, cmd);
    assert s.m.bits == {Sta, SeveralTries};
    s := Go(s, StaStart);
  }

  // Nothing expires, and yet a cached reply is the address of the network before: the handler of a
  // connection changes the network's name but leaves the addresses.
  lemma CachedReplyOfTheOtherNetwork(a: Addresses) returns (s: State)
    ensures Reached(s)
    ensures s.place == Idle && s.m.ssid == "b" && Enabled(s, Receive(Command("b", true, true, 0)))
    ensures Next(s, Receive(Command("b", true, true, 0))).answer == Success(Some(a))
    ensures s.answer == Failed && |s.log| == 2 && s.log[0] == Got(a, "a") && s.log[1].Gone?
  {
    ReachedBoot();
    s := Dial(Boot(), Command("a", true, true, 0));
    s := Go(s, Connect("a"));
    s := Go(s, GetIp(a));
    s := Go(s, Observe);
    s := Dial(s, Command("b", true, true, 0));
    s := Go(s, Disconnect);
    s := Go(s, Observe);
    s := Go(s, Connect("b"));
  }
}
