// What a client's program brings about: the calls it makes over a run, in order, what an aborted
// request costs and what it does not, and the outcome every call is answered with.
module PipeRequests {
  import opened Wrappers
  import opened Pipe

  // ---------- the calls of a client ----------

  function CallsOf(acts: seq<Act>): seq<Call> {
    if acts == [] then []
    else if acts[0].Do? then [acts[0].call] + CallsOf(acts[1..])
    else CallsOf(acts[1..])
  }

  // The command of the current call is set.
  predicate Committed(k: Client) {
    k.acts != [] && k.acts[0].Do? && !Uncommitted(k.stage)
  }

  // The calls a client has not commanded yet.
  function CallsLeft(k: Client): seq<Call> {
    CallsOf(if Committed(k) then k.acts[1..] else k.acts)
  }

  // The call that a step commands for client c, if it does.
  function MadeBy(s: State, step: Step, c: nat): seq<Call> {
    if step == SetCommand(c) && InCall(s, c, Filled) then [s.clients[c].acts[0].call] else []
  }

  // The calls client c commands in a part of a run, in order.
  function Made(ss: seq<State>, steps: seq<Step>, c: nat, i: nat, j: nat): seq<Call>
    requires i <= j <= |steps| < |ss|
  {
    if i == j then [] else Made(ss, steps, c, i, j - 1) + MadeBy(ss[j - 1], steps[j - 1], c)
  }

  // The step makes client c drop the rest of its request.
  predicate Aborts(step: Step, c: nat) {
    step == TakeTimesOut(c) || step == GiveUp(c) || (step.EndCall? && step.client == c && step.abort)
  }

  // Nobody but the client itself changes what it has to do.
  predicate Of(step: Step, c: nat) {
    match step
    case Wake(_) => false
    case Receive(_) => false
    case Carry(_, _) => false
    case SetReply(_) => false
    case TakeMutex(d) => d == c
    case TakeTimesOut(d) => d == c
    case ResetQueue(d) => d == c
    case FillQueue(d) => d == c
    case SetCommand(d) => d == c
    case AwaitReply(d) => d == c
    case EndCall(d, _, _) => d == c
    case GiveMutex(d) => d == c
    case GiveUp(d) => d == c
  }

  lemma OtherStep(s: State, step: Step, c: nat)
    requires Enabled(s, step) && c < |s.clients| && !Of(step, c)
    ensures |Next(s, step).clients| == |s.clients| && Next(s, step).clients[c] == s.clients[c]
    ensures MadeBy(s, step, c) == [] && !Aborts(step, c)
  {
  }

  // A step of the client's own moves it one stage or one act on.
  lemma OwnStep(s: State, step: Step, c: nat)
    requires Enabled(s, step) && c < |s.clients| && Of(step, c) && !Aborts(step, c)
    ensures |Next(s, step).clients| == |s.clients|
    ensures CallsLeft(s.clients[c]) == MadeBy(s, step, c) + CallsLeft(Next(s, step).clients[c])
  {
  }

  lemma StepMakes(s: State, step: Step, t: State, c: nat)
    requires StepsTo(s, step, t) && c < |s.clients| && !Aborts(step, c)
    ensures |t.clients| == |s.clients|
    ensures CallsLeft(s.clients[c]) == MadeBy(s, step, c) + CallsLeft(t.clients[c])
  {
    if Of(step, c) {
      OwnStep(s, step, c);
    } else {
      OtherStep(s, step, c);
    }
  }

  lemma Ran(ss: seq<State>, steps: seq<Step>, i: nat)
    requires Run(ss, steps) && i < |steps|
    ensures |ss| == |steps| + 1 && StepsTo(ss[i], steps[i], ss[i + 1])
  {
  }

  lemma SameClients(s: State, step: Step, t: State)
    requires StepsTo(s, step, t)
    ensures |t.clients| == |s.clients|
  {
  }

  lemma {:induction false} RunClients(ss: seq<State>, steps: seq<Step>, i: nat)
    requires Run(ss, steps) && i < |ss|
    ensures |ss[i].clients| == |ss[0].clients|
  {
    if i > 0 {
      RunClients(ss, steps, i - 1);
      Ran(ss, steps, i - 1);
      SameClients(ss[i - 1], steps[i - 1], ss[i]);
    }
  }

  lemma Chained(all: seq<Call>, a: seq<Call>, left: seq<Call>, b: seq<Call>, left': seq<Call>)
    requires all == a + left && left == b + left'
    ensures all == (a + b) + left'
  {
  }

  // In a part of a run in which the client aborts nothing, what it had to call at the start is what
  // it calls there, in that order, and then what it still has to call.
  lemma {:induction false} MadeThenLeft(ss: seq<State>, steps: seq<Step>, c: nat, i: nat, j: nat)
    requires Run(ss, steps) && i <= j <= |steps| && c < |ss[0].clients|
    requires forall m :: i <= m < j ==> !Aborts(steps[m], c)
    ensures c < |ss[i].clients| && c < |ss[j].clients|
    ensures CallsLeft(ss[i].clients[c]) == Made(ss, steps, c, i, j) + CallsLeft(ss[j].clients[c])
  {
    RunClients(ss, steps, i);
    RunClients(ss, steps, j);
    if i < j {
      MadeThenLeft(ss, steps, c, i, j - 1);
      RunClients(ss, steps, j - 1);
      Ran(ss, steps, j - 1);
      StepMakes(ss[j - 1], steps[j - 1], ss[j], c);
      Chained(CallsLeft(ss[i].clients[c]), Made(ss, steps, c, i, j - 1), CallsLeft(ss[j - 1].clients[c]),
              MadeBy(ss[j - 1], steps[j - 1], c), CallsLeft(ss[j].clients[c]));
    }
  }

  // ---------- requests of the air-conditioner client ----------

  // The two calls a request is for: connect, then send a message and await the answer.
  function Connect(r: AcRequestKind): Call {
    Call(Wifi, if r.scan then ScanAndConnect else ConnectToAp, r.reply)
  }

  const SEND := Call(Udp, SendMessage, true)

  lemma CallsOfSum(a: seq<Act>, b: seq<Act>)
    ensures CallsOf(a + b) == CallsOf(a) + CallsOf(b)
  {
    if a == [] {
      assert a + b == b;
    } else {
      assert (a + b)[0] == a[0] && (a + b)[1..] == a[1..] + b;
      CallsOfSum(a[1..], b);
    }
  }

  lemma CallsOfRequest(r: AcRequestKind)
    ensures CallsOf(AcRequest(r)) == [Connect(r), SEND]
  {
    var acts := AcRequest(r);
    assert acts[1..][1..] == acts[2..] && acts[2..][1..] == acts[3..] && acts[3..][1..] == acts[4..];
    assert acts[4..] == [Give(Udp), Give(Wifi)] && acts[4..][1..] == [Give(Wifi)] && [Give(Wifi)][1..] == [];
    assert CallsOf(acts[4..]) == [];
    assert CallsOf(acts[2..]) == [SEND];
  }

  lemma {:induction false} ProgramCalls(requests: seq<AcRequestKind>)
    ensures var calls := CallsOf(AcProgram(requests));
            && |calls| == 2 * |requests|
            && forall k :: 0 <= k < |requests| ==> calls[2 * k] == Connect(requests[k]) && calls[2 * k + 1] == SEND
  {
    if requests != [] {
      ProgramCalls(requests[1..]);
      CallsOfRequest(requests[0]);
      CallsOfSum(AcRequest(requests[0]), AcProgram(requests[1..]));
      var calls, more := CallsOf(AcProgram(requests)), CallsOf(AcProgram(requests[1..]));
      assert calls == [Connect(requests[0]), SEND] + more;
      forall k | 1 <= k < |requests|
        ensures calls[2 * k] == Connect(requests[k]) && calls[2 * k + 1] == SEND
      {
        assert more[2 * (k - 1)] == Connect(requests[1..][k - 1]) && more[2 * (k - 1) + 1] == SEND;
      }
    }
  }

  // When a client that aborted nothing is through with its requests, it has made exactly two calls
  // for each of them, in the order of the requests: the connection it asks for, then a message.
  lemma RequestsMade(ss: seq<State>, steps: seq<Step>, c: nat, requests: seq<AcRequestKind>)
    requires Run(ss, steps) && c < |ss[0].clients| && ss[0].clients[c].acts == AcProgram(requests)
    requires forall m :: 0 <= m < |steps| ==> !Aborts(steps[m], c)
    requires c < |ss[|steps|].clients| ==> ss[|steps|].clients[c].acts == []
    ensures var made := Made(ss, steps, c, 0, |steps|);
            && |made| == 2 * |requests|
            && forall k :: 0 <= k < |requests| ==> made[2 * k] == Connect(requests[k]) && made[2 * k + 1] == SEND
  {
    MadeThenLeft(ss, steps, c, 0, |steps|);
    ProgramCalls(requests);
    assert CallsLeft(ss[|steps|].clients[c]) == [];
  }

  // ---------- aborted requests ----------

  // What is left of a request, and the requests behind it.
  ghost predicate PartOf(acts: seq<Act>, r: AcRequestKind, k: nat, rest: seq<AcRequestKind>) {
    k <= 6 && acts == AcRequest(r)[k..] + AcProgram(rest)
  }

  ghost predicate Shaped(acts: seq<Act>) {
    acts == [] || exists r, k: nat, rest :: k < 6 && PartOf(acts, r, k, rest)
  }

  lemma ProgramShaped(requests: seq<AcRequestKind>)
    ensures Shaped(AcProgram(requests))
  {
    if requests != [] {
      assert AcRequest(requests[0])[0..] == AcRequest(requests[0]);
      assert PartOf(AcProgram(requests), requests[0], 0, requests[1..]);
    }
  }

  lemma NextAct(acts: seq<Act>, r: AcRequestKind, k: nat, rest: seq<AcRequestKind>)
    requires k < 6 && PartOf(acts, r, k, rest)
    ensures acts != [] && acts[0] == AcRequest(r)[k] && PartOf(acts[1..], r, k + 1, rest)
  {
    assert AcRequest(r)[k..] == [AcRequest(r)[k]] + AcRequest(r)[k + 1..];
  }

  lemma PartShaped(acts: seq<Act>, r: AcRequestKind, k: nat, rest: seq<AcRequestKind>)
    requires PartOf(acts, r, k, rest)
    ensures Shaped(acts)
  {
    if k == 6 {
      assert acts == AcProgram(rest);
      ProgramShaped(rest);
    }
  }

  lemma {:induction false} AfterGivePart(acts: seq<Act>, r: AcRequestKind, k: nat, rest: seq<AcRequestKind>)
    requires k < 6 && PartOf(acts, r, k, rest)
    ensures AfterGive(acts) == AcProgram(rest)
    decreases 6 - k
  {
    NextAct(acts, r, k, rest);
    if k < 5 {
      AfterGivePart(acts[1..], r, k + 1, rest);
    } else {
      assert acts[1..] == AcProgram(rest);
    }
  }

  // What is held at each place of a request.
  lemma {:induction false} HeldInPart(acts: seq<Act>, r: AcRequestKind, k: nat, rest: seq<AcRequestKind>, wifi: bool,
                                      udp: bool)
    requires k < 6 && PartOf(acts, r, k, rest) && Ordered(acts, wifi, udp)
    ensures wifi == (1 <= k <= 5) && udp == (3 <= k <= 4)
    decreases 6 - k
  {
    NextAct(acts, r, k, rest);
    if k == 1 {
      HeldInPart(acts[1..], r, k + 1, rest, wifi, udp);
    }
  }

  // An aborted request leaves only its mutexes to be given back; the requests behind it are left as
  // they were.
  lemma AbortKeepsTheRest(acts: seq<Act>, r: AcRequestKind, k: nat, rest: seq<AcRequestKind>, wifi: bool, udp: bool)
    requires k < 6 && PartOf(acts, r, k, rest) && Ordered(acts, wifi, udp)
    ensures PartOf(Abort(acts, wifi, udp), r, if udp then 4 else if wifi then 5 else 6, rest)
    ensures Abort(acts, wifi, udp) ==
            (if udp then [Give(Udp)] else []) + (if wifi then [Give(Wifi)] else []) + AcProgram(rest)
  {
    AfterGivePart(acts, r, k, rest);
    HeldInPart(acts, r, k, rest, wifi, udp);
  }

  // ---------- counting ----------

  function CallsOn(acts: seq<Act>, p: Id): nat {
    if acts == [] then 0 else (if acts[0].Do? && acts[0].call.pipe == p then 1 else 0) + CallsOn(acts[1..], p)
  }

  function LeftOn(k: Client, p: Id): nat {
    CallsOn(if Committed(k) then k.acts[1..] else k.acts, p)
  }

  // How many commands of client c a pipe has seen.
  function Commands(log: seq<Event>, c: nat): nat {
    if log == [] then 0 else Commands(log[..|log| - 1], c) + if log[|log| - 1] == Commanded(c) then 1 else 0
  }

  lemma CommandsNext(log: seq<Event>, e: Event, c: nat)
    ensures Commands(log + [e], c) == Commands(log, c) + if e == Commanded(c) then 1 else 0
  {
    assert (log + [e])[..|log|] == log;
  }

  // Whatever happens, a request costs each pipe at most one call.
  lemma {:induction false} CallsOnPart(acts: seq<Act>, r: AcRequestKind, k: nat, rest: seq<AcRequestKind>, p: Id)
    requires PartOf(acts, r, k, rest)
    ensures CallsOn(acts, p) ==
            CallsOn(AcProgram(rest), p) + if k <= (if p.Wifi? then 1 else 3) then 1 else 0
    decreases 6 - k
  {
    if k < 6 {
      NextAct(acts, r, k, rest);
      CallsOnPart(acts[1..], r, k + 1, rest, p);
    } else {
      assert acts == AcProgram(rest);
    }
  }

  lemma {:induction false} CallsOnProgram(requests: seq<AcRequestKind>, p: Id)
    ensures CallsOn(AcProgram(requests), p) == |requests|
  {
    if requests != [] {
      CallsOnProgram(requests[1..], p);
      assert AcRequest(requests[0])[0..] == AcRequest(requests[0]);
      CallsOnPart(AcProgram(requests), requests[0], 0, requests[1..], p);
    }
  }

  // Commands given and still to give, as far as client c and pipe p are concerned.
  function Account(s: State, c: nat, p: Id): nat
    requires c < |s.clients|
  {
    Commands(At(s, p).log, c) + LeftOn(s.clients[c], p)
  }

  lemma LogGrows(s: State, step: Step, p: Id, c: nat)
    requires Enabled(s, step)
    ensures Commands(At(Next(s, step), p).log, c) == Commands(At(s, p).log, c) +
            if step == SetCommand(c) && s.clients[c].acts[0].call.pipe == p then 1 else 0
  {
    var log, log' := At(s, p).log, At(Next(s, step), p).log;
    if |log'| > |log| {
      assert log' == log + [log'[|log|]];
      CommandsNext(log, log'[|log|], c);
    } else {
      assert log' == log;
    }
  }

  lemma OwnStepLeft(s: State, step: Step, c: nat, p: Id)
    requires Enabled(s, step) && c < |s.clients| && Of(step, c) && !Aborts(step, c)
    ensures c < |Next(s, step).clients|
    ensures LeftOn(s.clients[c], p) == LeftOn(Next(s, step).clients[c], p) +
            if step == SetCommand(c) && s.clients[c].acts[0].call.pipe == p then 1 else 0
  {
  }

  lemma AccountKept(s: State, step: Step, t: State, c: nat, p: Id)
    requires StepsTo(s, step, t) && c < |s.clients| && !Aborts(step, c)
    ensures c < |t.clients| && Account(t, c, p) == Account(s, c, p)
  {
    LogGrows(s, step, p, c);
    if Of(step, c) {
      OwnStepLeft(s, step, c, p);
    } else {
      OtherStep(s, step, c);
    }
  }

  lemma ShapedKept(s: State, step: Step, t: State, c: nat)
    requires StepsTo(s, step, t) && c < |s.clients| && !Aborts(step, c) && Shaped(s.clients[c].acts)
    ensures c < |t.clients| && Shaped(t.clients[c].acts)
  {
    if !Of(step, c) {
      OtherStep(s, step, c);
    } else if t.clients[c].acts != s.clients[c].acts {
      var r, k: nat, rest :| k < 6 && PartOf(s.clients[c].acts, r, k, rest);
      NextAct(s.clients[c].acts, r, k, rest);
      PartShaped(t.clients[c].acts, r, k + 1, rest);
    }
  }

  lemma AbortStep(s: State, step: Step, t: State, c: nat, p: Id)
    requires StepsTo(s, step, t) && c < |s.clients| && Aborts(step, c)
    ensures c < |t.clients| && t.clients[c] == Client(Fallback(s, c), Ready) && At(t, p).log == At(s, p).log
    ensures s.clients[c].acts != []
  {
  }

  // Of one request, a pipe sees at most one call.
  lemma DroppedCalls(k: Client, wifi: bool, udp: bool, p: Id)
    requires Ordered(k.acts, wifi, udp) && Shaped(k.acts) && k.acts != []
    ensures var acts := Abort(k.acts, wifi, udp);
            Shaped(acts) && CallsOn(acts, p) <= LeftOn(k, p) <= CallsOn(acts, p) + 1
  {
    var r, n: nat, rest :| n < 6 && PartOf(k.acts, r, n, rest);
    AbortKeepsTheRest(k.acts, r, n, rest, wifi, udp);
    HeldInPart(k.acts, r, n, rest, wifi, udp);
    NextAct(k.acts, r, n, rest);
    var acts, m := Abort(k.acts, wifi, udp), if udp then 4 else if wifi then 5 else 6;
    PartShaped(acts, r, m, rest);
    CallsOnPart(k.acts, r, n, rest, p);
    CallsOnPart(k.acts[1..], r, n + 1, rest, p);
    CallsOnPart(acts, r, m, rest, p);
  }

  // An aborted request takes back at most the one call of it that pipe p has not seen.
  lemma AbortCosts(s: State, step: Step, t: State, c: nat, p: Id)
    requires Inv(s) && StepsTo(s, step, t) && c < |s.clients| && Aborts(step, c) && Shaped(s.clients[c].acts)
    ensures c < |t.clients| && Shaped(t.clients[c].acts)
    ensures Account(t, c, p) <= Account(s, c, p) <= Account(t, c, p) + 1
  {
    assert ClientOk(s, c);
    AbortStep(s, step, t, c, p);
    DroppedCalls(s.clients[c], Holds(s.wifi, c), Holds(s.udp, c), p);
  }

  lemma AccountStep(s: State, step: Step, t: State, c: nat, p: Id)
    requires Inv(s) && StepsTo(s, step, t) && c < |s.clients| && Shaped(s.clients[c].acts)
    ensures c < |t.clients| && Shaped(t.clients[c].acts)
    ensures Account(t, c, p) <= Account(s, c, p) <= Account(t, c, p) + if Aborts(step, c) then 1 else 0
  {
    if Aborts(step, c) {
      AbortCosts(s, step, t, c, p);
    } else {
      AccountKept(s, step, t, c, p);
      ShapedKept(s, step, t, c);
    }
  }

  lemma AccountInRun(ss: seq<State>, steps: seq<Step>, c: nat, i: nat, p: Id)
    requires Run(ss, steps) && i < |steps| && c < |ss[i].clients| && Shaped(ss[i].clients[c].acts)
    ensures c < |ss[i + 1].clients| && Shaped(ss[i + 1].clients[c].acts)
    ensures Account(ss[i + 1], c, p) <= Account(ss[i], c, p)
                                     <= Account(ss[i + 1], c, p) + if Aborts(steps[i], c) then 1 else 0
  {
    AlwaysInv(ss, steps, i);
    Ran(ss, steps, i);
    AccountStep(ss[i], steps[i], ss[i + 1], c, p);
  }

  function AbortsOf(steps: seq<Step>, c: nat, i: nat): nat
    requires i <= |steps|
  {
    if i == 0 then 0 else AbortsOf(steps, c, i - 1) + if Aborts(steps[i - 1], c) then 1 else 0
  }

  lemma {:induction false} AccountOverRun(ss: seq<State>, steps: seq<Step>, c: nat, i: nat, p: Id)
    requires Run(ss, steps) && i <= |steps| && c < |ss[0].clients| && Shaped(ss[0].clients[c].acts)
    ensures c < |ss[i].clients| && Shaped(ss[i].clients[c].acts)
    ensures Account(ss[i], c, p) <= Account(ss[0], c, p) <= Account(ss[i], c, p) + AbortsOf(steps, c, i)
  {
    if i > 0 {
      AccountOverRun(ss, steps, c, i - 1, p);
      AccountInRun(ss, steps, c, i - 1, p);
    }
  }

  // When a client is through with its requests, each pipe has seen one command for each of them,
  // but for at most one per aborted request: time-outs, failures of the client's own and failed
  // calls never cost a request behind the one they hit.
  lemma RequestsCarriedOut(ss: seq<State>, steps: seq<Step>, c: nat, requests: seq<AcRequestKind>, p: Id)
    requires Run(ss, steps) && c < |ss[0].clients| && ss[0].clients[c].acts == AcProgram(requests)
    requires c < |ss[|steps|].clients| ==> ss[|steps|].clients[c].acts == []
    ensures var commands := Commands(At(ss[|steps|], p).log, c);
            commands <= |requests| <= commands + AbortsOf(steps, c, |steps|)
  {
    ProgramShaped(requests);
    AccountOverRun(ss, steps, c, |steps|, p);
    CallsOnProgram(requests, p);
    assert ss[0].clients[c].stage == Ready;
    assert Account(ss[0], c, p) == |requests|;
  }

  // ---------- outcomes ----------

  // The outcomes a pipe's worker has served, in order.
  function Outcomes(log: seq<Event>): seq<bool> {
    if log == [] then []
    else Outcomes(log[..|log| - 1]) + if log[|log| - 1].Served? then [log[|log| - 1].ok] else []
  }

  // The outcomes the worker's operations had, in order.
  function Operations(steps: seq<Step>, p: Id, i: nat): seq<bool>
    requires i <= |steps|
  {
    if i == 0 then []
    else Operations(steps, p, i - 1) +
         if steps[i - 1].Carry? && steps[i - 1].pipe == p then [steps[i - 1].ok] else []
  }

  function Pending(worker: Worker): seq<bool> {
    if worker.Replying? then [worker.ok] else []
  }

  lemma OutcomesNext(log: seq<Event>, e: Event)
    ensures Outcomes(log + [e]) == Outcomes(log) + if e.Served? then [e.ok] else []
  {
    assert (log + [e])[..|log|] == log;
  }

  // The worker's reply is the outcome of its operation: the UDP worker finds room for it.
  lemma CarryDecides(s: State, p: Id, ok: bool)
    requires Inv(s) && Enabled(s, Carry(p, ok))
    ensures var t := Next(s, Carry(p, ok));
            && At(t, p).log == At(s, p).log && At(s, p).worker.Handling? && At(s, p).owner.Some?
            && At(t, p).worker == Replying(At(s, p).owner.value, |At(s, p).log| - 1, ok)
  {
    var c := AwakeInService(s, p);
  }

  // What a step does to a pipe's log and worker, other than carrying out an operation: it replies, or
  // it serves nothing.
  ghost predicate Serves(pipe: Pipe, pipe': Pipe) {
    && pipe.worker.Replying? && !pipe'.worker.Replying?
    && exists e: Event :: e.Served? && e.ok == pipe.worker.ok && pipe'.log == pipe.log + [e]
  }

  ghost predicate ServesNothing(pipe: Pipe, pipe': Pipe) {
    && Pending(pipe'.worker) == Pending(pipe.worker)
    && (pipe'.log == pipe.log || exists e: Event :: !e.Served? && pipe'.log == pipe.log + [e])
  }

  lemma StepServes(s: State, step: Step, p: Id)
    requires Enabled(s, step) && !(step.Carry? && step.pipe == p)
    ensures if step == SetReply(p) then Serves(At(s, p), At(Next(s, step), p))
            else ServesNothing(At(s, p), At(Next(s, step), p))
  {
  }

  lemma ServesOutcomes(pipe: Pipe, pipe': Pipe)
    requires Serves(pipe, pipe') || ServesNothing(pipe, pipe')
    ensures Outcomes(pipe'.log) + Pending(pipe'.worker) == Outcomes(pipe.log) + Pending(pipe.worker)
  {
    if pipe'.log != pipe.log {
      var e: Event :|
        pipe'.log == pipe.log + [e] && (!e.Served? || (Serves(pipe, pipe') && e.ok == pipe.worker.ok));
      OutcomesNext(pipe.log, e);
    }
  }

  lemma StepOutcomes(s: State, step: Step, t: State, p: Id)
    requires Inv(s) && StepsTo(s, step, t)
    ensures Outcomes(At(t, p).log) + Pending(At(t, p).worker) ==
            Outcomes(At(s, p).log) + Pending(At(s, p).worker) +
            if step.Carry? && step.pipe == p then [step.ok] else []
  {
    if step.Carry? && step.pipe == p {
      CarryDecides(s, p, step.ok);
    } else {
      StepServes(s, step, p);
      ServesOutcomes(At(s, p), At(t, p));
    }
  }

  // Every call is served with the outcome its operation had, in order; by OneReplyEach this is the
  // outcome its client is told.
  lemma {:induction false} ServedAsCarried(ss: seq<State>, steps: seq<Step>, p: Id, i: nat)
    requires Run(ss, steps) && i <= |steps|
    ensures Operations(steps, p, i) == Outcomes(At(ss[i], p).log) + Pending(At(ss[i], p).worker)
  {
    if i > 0 {
      ServedAsCarried(ss, steps, p, i - 1);
      AlwaysInv(ss, steps, i - 1);
      Ran(ss, steps, i - 1);
      StepOutcomes(ss[i - 1], steps[i - 1], ss[i], p);
    }
  }

  // The clients of ac_gree.c and its like abort a request when one of its calls fails.
  predicate FailureAborts(s: State, step: Step, c: nat) {
    step.EndCall? && step.client == c && c < |s.clients| && s.clients[c].stage == Answered(false) ==> step.abort
  }

  lemma FailureLogged(s: State, step: Step, c: nat, p: Id)
    requires Enabled(s, step) && c < |s.clients| && Consumed(c, false) in At(Next(s, step), p).log
    ensures Consumed(c, false) in At(s, p).log ||
            (step == AwaitReply(c) && Next(s, step).clients[c].stage == Answered(false))
  {
  }

  lemma FailureShows(s: State, step: Step, t: State, c: nat, p: Id)
    requires StepsTo(s, step, t) && c < |s.clients| && FailureAborts(s, step, c) && !Aborts(step, c)
    requires Consumed(c, false) in At(s, p).log ==> s.clients[c].stage == Answered(false)
    ensures c < |t.clients|
    ensures Consumed(c, false) in At(t, p).log ==> t.clients[c].stage == Answered(false)
  {
    SameClients(s, step, t);
    if Consumed(c, false) in At(t, p).log {
      FailureLogged(s, step, c, p);
      if !Of(step, c) {
        OtherStep(s, step, c);
      }
    }
  }

  // A client that aborts on every failure and has aborted nothing was told of no failure, unless it
  // is the answer to its present call: when it is through, all its calls have succeeded.
  lemma {:induction false} NoFailureSeen(ss: seq<State>, steps: seq<Step>, c: nat, p: Id, i: nat)
    requires Run(ss, steps) && i <= |steps| && c < |ss[0].clients|
    requires forall m :: 0 <= m < i ==> FailureAborts(ss[m], steps[m], c) && !Aborts(steps[m], c)
    ensures c < |ss[i].clients|
    ensures Consumed(c, false) in At(ss[i], p).log ==> ss[i].clients[c].stage == Answered(false)
  {
    if i > 0 {
      NoFailureSeen(ss, steps, c, p, i - 1);
      Ran(ss, steps, i - 1);
      FailureShows(ss[i - 1], steps[i - 1], ss[i], c, p);
    }
  }
}
