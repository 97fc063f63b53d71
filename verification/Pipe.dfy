// The pipes between a client task and the Wi-Fi and UDP workers: a mutex, a one-slot queue, a command
// bit and two reply bits each.  Any number of clients, one atomic operation at a time.
module Pipe {
  import opened Wrappers

  datatype Id = Wifi | Udp

  datatype Command = ConnectToAp | ModeAp | ScanAndConnect | SendMessage

  // A call: a request left in the queue, the command bit, the awaited reply.  reply says that the
  // request asks for data back through the queue.
  datatype Call = Call(pipe: Id, command: Command, reply: bool)

  datatype Act = Take(pipe: Id) | Do(call: Call) | Give(pipe: Id)

  // How far a client is in its current call.
  datatype Stage = Ready | Cleared | Filled | Sent | Answered(ok: bool)

  // What a client has still to do, its current act first.
  datatype Client = Client(acts: seq<Act>, stage: Stage)

  // tag numbers a pipe's calls: the length of the pipe's history when the request was left.
  datatype Item = Request(client: nat, tag: nat, reply: bool) | Reply(client: nat, tag: nat)

  datatype Worker =
    | Resting                                         // waiting for a command bit
    | Woken(command: Command)                         // the bits are read and cleared
    | Handling(command: Command, item: Item)          // the request is received
    | Replying(client: nat, tag: nat, ok: bool)       // about to set the reply bit

  datatype Event =
    | Commanded(client: nat)
    | Served(client: nat, tag: nat, ok: bool)
    | Consumed(client: nat, ok: bool)
    | Missed                                          // a receive that found the queue empty

  datatype Pipe = Pipe(owner: Option<nat>, queue: Option<Item>, commands: set<Command>, success: bool, failed: bool,
                       worker: Worker, log: seq<Event>)

  datatype State = State(clients: seq<Client>, wifi: Pipe, udp: Pipe)

  datatype Step =
    | TakeMutex(client: nat)
    | TakeTimesOut(client: nat)
    | ResetQueue(client: nat)
    | FillQueue(client: nat)
    | SetCommand(client: nat)
    | AwaitReply(client: nat)
    | EndCall(client: nat, receive: bool, abort: bool) // receive: the reply item is taken
    | GiveMutex(client: nat)
    | GiveUp(client: nat)                // a failure of the client's own before a command is set
    | Wake(pipe: Id)
    | Receive(pipe: Id)
    | Carry(pipe: Id, ok: bool)
    | SetReply(pipe: Id)

  function At(s: State, p: Id): Pipe {
    if p.Wifi? then s.wifi else s.udp
  }

  function With(s: State, p: Id, pipe: Pipe): State {
    if p.Wifi? then s.(wifi := pipe) else s.(udp := pipe)
  }

  function Become(s: State, c: nat, client: Client): State
    requires c < |s.clients|
  {
    s.(clients := s.clients[c := client])
  }

  // ---------- programs ----------

  // Mutexes are taken Wi-Fi first and given back UDP first; calls use pipes that are held.
  predicate Ordered(acts: seq<Act>, wifi: bool, udp: bool)
    decreases |acts|
  {
    if acts == [] then !wifi && !udp
    else
      match acts[0]
      case Take(p) => if p.Wifi? then !wifi && !udp && Ordered(acts[1..], true, false)
                      else wifi && !udp && Ordered(acts[1..], true, true)
      case Do(call) => wifi && (call.pipe.Udp? ==> udp) && (call.command == SendMessage <==> call.pipe.Udp?) &&
                       Ordered(acts[1..], wifi, udp)
      case Give(p) => if p.Udp? then wifi && udp && Ordered(acts[1..], true, false)
                      else wifi && !udp && Ordered(acts[1..], false, false)
  }

  // One request of ac_client: connect, by name or by a scan, then send and await the answer.  The
  // connection's reply is asked for by all requests but SEND_CONTROL_TO_AC.
  datatype AcRequestKind = Connection(scan: bool, reply: bool)

  function AcRequest(r: AcRequestKind): seq<Act> {
    var connect := if r.scan then ScanAndConnect else ConnectToAp;
    [Take(Wifi), Do(Call(Wifi, connect, r.reply)), Take(Udp), Do(Call(Udp, SendMessage, true)), Give(Udp), Give(Wifi)]
  }

  function AcProgram(requests: seq<AcRequestKind>): seq<Act> {
    if requests == [] then [] else AcRequest(requests[0]) + AcProgram(requests[1..])
  }

  lemma RequestOrdered(r: AcRequestKind, more: seq<Act>)
    requires Ordered(more, false, false)
    ensures Ordered(AcRequest(r) + more, false, false)
  {
    var acts := AcRequest(r) + more;
    assert acts[6..] == more;
    assert acts[5..][1..] == acts[6..] && Ordered(acts[5..], true, false);
    assert acts[4..][1..] == acts[5..] && Ordered(acts[4..], true, true);
    assert acts[3..][1..] == acts[4..] && Ordered(acts[3..], true, true);
    assert acts[2..][1..] == acts[3..] && Ordered(acts[2..], true, false);
    assert acts[1..][1..] == acts[2..] && Ordered(acts[1..], true, false);
  }

  // Any number of requests one after the other: Wi-Fi before UDP, and given back in reverse.
  lemma {:induction false} AcProgramOrdered(requests: seq<AcRequestKind>)
    ensures Ordered(AcProgram(requests), false, false)
  {
    if requests != [] {
      AcProgramOrdered(requests[1..]);
      RequestOrdered(requests[0], AcProgram(requests[1..]));
    }
  }

  // What is left of a program after the Wi-Fi mutex is next given back.
  function AfterGive(acts: seq<Act>): seq<Act>
    decreases |acts|
  {
    if acts == [] then [] else if acts[0] == Give(Wifi) then acts[1..] else AfterGive(acts[1..])
  }

  // The error path of a request: give back what is held and go on with the next request.
  function Abort(acts: seq<Act>, wifi: bool, udp: bool): seq<Act> {
    (if udp then [Give(Udp)] else []) + (if wifi then [Give(Wifi)] else []) + AfterGive(acts)
  }

  predicate Holds(pipe: Pipe, c: nat) {
    pipe.owner == Some(c)
  }

  // ---------- steps ----------

  predicate Current(s: State, c: nat, stage: Stage) {
    c < |s.clients| && s.clients[c].acts != [] && s.clients[c].stage == stage
  }

  predicate InCall(s: State, c: nat, stage: Stage) {
    Current(s, c, stage) && s.clients[c].acts[0].Do?
  }

  predicate Uncommitted(stage: Stage) {
    stage.Ready? || stage.Cleared? || stage.Filled?
  }

  function Fallback(s: State, c: nat): seq<Act>
    requires c < |s.clients|
  {
    Abort(s.clients[c].acts, Holds(s.wifi, c), Holds(s.udp, c))
  }

  predicate Enabled(s: State, step: Step) {
    match step
    case TakeMutex(c) =>
      Current(s, c, Ready) && s.clients[c].acts[0].Take? && At(s, s.clients[c].acts[0].pipe).owner == None
    case TakeTimesOut(c) =>
      Current(s, c, Ready) && s.clients[c].acts[0].Take? && At(s, s.clients[c].acts[0].pipe).owner != None
    case ResetQueue(c) => InCall(s, c, Ready)
    case FillQueue(c) => InCall(s, c, Cleared)
    case SetCommand(c) => InCall(s, c, Filled)
    case AwaitReply(c) =>
      InCall(s, c, Sent) &&
      var pipe := At(s, s.clients[c].acts[0].call.pipe);
      pipe.success || pipe.failed
    case EndCall(c, _, _) =>
      c < |s.clients| && s.clients[c].acts != [] && s.clients[c].acts[0].Do? && s.clients[c].stage.Answered?
    case GiveMutex(c) =>
      Current(s, c, Ready) && s.clients[c].acts[0].Give? && Holds(At(s, s.clients[c].acts[0].pipe), c)
    case GiveUp(c) =>
      c < |s.clients| && s.clients[c].acts != [] && Uncommitted(s.clients[c].stage) && Holds(s.wifi, c) &&
          |Fallback(s, c)| < |s.clients[c].acts|
    case Wake(p) => At(s, p).worker.Resting? && At(s, p).commands != {}
    case Receive(p) => At(s, p).worker.Woken?
    case Carry(p, _) => At(s, p).worker.Handling?
    case SetReply(p) => At(s, p).worker.Replying?
  }

  // The worker looks at the command bits it read in this order.
  function Pick(commands: set<Command>): Command {
    if ConnectToAp in commands then ConnectToAp
    else if ModeAp in commands then ModeAp
    else if ScanAndConnect in commands then ScanAndConnect
    else SendMessage
  }

  // The worker takes a request out of the queue.  When there is none it replies with a failure,
  // except in the scan branch, which replies nothing.
  function Received(pipe: Pipe): Pipe
    requires pipe.worker.Woken?
  {
    match pipe.queue
    case Some(item) => pipe.(queue := None, worker := Handling(pipe.worker.command, item))
    case None => pipe.(worker := Resting, log := pipe.log + [Missed],
                       failed := pipe.failed || pipe.worker.command != ScanAndConnect)
  }

  // The request is carried out.  The Wi-Fi worker resets the queue before it leaves its reply there;
  // the UDP worker does not, and fails when the queue is full.
  function Carried(pipe: Pipe, p: Id, ok: bool): Pipe
    requires pipe.worker.Handling?
  {
    var item := pipe.worker.item;
    var answers := ok && item.Request? && item.reply && pipe.worker.command != ModeAp;
    var full := answers && p.Udp? && pipe.queue.Some?;
    pipe.(queue := if answers && !full then Some(Reply(item.client, item.tag)) else pipe.queue,
          worker := Replying(item.client, item.tag, ok && !full))
  }

  function Replied(pipe: Pipe): Pipe
    requires pipe.worker.Replying?
  {
    var w := pipe.worker;
    pipe.(success := pipe.success || w.ok, failed := pipe.failed || !w.ok, worker := Resting,
          log := pipe.log + [Served(w.client, w.tag, w.ok)])
  }

  function CallStep(s: State, c: nat, stage: Stage, pipe: Pipe): State
    requires c < |s.clients| && s.clients[c].acts != [] && s.clients[c].acts[0].Do?
  {
    With(Become(s, c, s.clients[c].(stage := stage)), s.clients[c].acts[0].call.pipe, pipe)
  }

  function Next(s: State, step: Step): State
    requires Enabled(s, step)
  {
    match step
    case TakeMutex(c) =>
      var k := s.clients[c];
      var p := k.acts[0].pipe;
      With(Become(s, c, Client(k.acts[1..], Ready)), p, At(s, p).(owner := Some(c)))
    case TakeTimesOut(c) => Become(s, c, Client(Fallback(s, c), Ready))
    case ResetQueue(c) =>
      var call := s.clients[c].acts[0].call;
      CallStep(s, c, Cleared, At(s, call.pipe).(queue := None))
    case FillQueue(c) =>
      var call := s.clients[c].acts[0].call;
      var pipe := At(s, call.pipe);
      CallStep(s, c, Filled,
               pipe.(queue := if pipe.queue.None? then Some(Request(c, |pipe.log|, call.reply)) else pipe.queue))
    case SetCommand(c) =>
      var call := s.clients[c].acts[0].call;
      var pipe := At(s, call.pipe);
      CallStep(s, c, Sent, pipe.(commands := pipe.commands + {call.command}, log := pipe.log + [Commanded(c)]))
    case AwaitReply(c) =>
      var pipe := At(s, s.clients[c].acts[0].call.pipe);
      CallStep(s, c, Answered(!pipe.failed),
               pipe.(success := false, failed := false, log := pipe.log + [Consumed(c, !pipe.failed)]))
    case EndCall(c, receive, abort) =>
      var k := s.clients[c];
      var p := k.acts[0].call.pipe;
      With(Become(s, c, Client(if abort then Fallback(s, c) else k.acts[1..], Ready)), p,
           if receive then At(s, p).(queue := None) else At(s, p))
    case GiveMutex(c) =>
      var k := s.clients[c];
      var p := k.acts[0].pipe;
      With(Become(s, c, Client(k.acts[1..], Ready)), p, At(s, p).(owner := None))
    case GiveUp(c) => Become(s, c, Client(Fallback(s, c), Ready))
    case Wake(p) => With(s, p, At(s, p).(commands := {}, worker := Woken(Pick(At(s, p).commands))))
    case Receive(p) => With(s, p, Received(At(s, p)))
    case Carry(p, ok) => With(s, p, Carried(At(s, p), p, ok))
    case SetReply(p) => With(s, p, Replied(At(s, p)))
  }

  // ---------- runs ----------

  const FRESH := Pipe(None, None, {}, false, false, Resting, [])

  ghost predicate Initial(s: State) {
    && s.wifi == FRESH && s.udp == FRESH
    && forall c :: 0 <= c < |s.clients| ==> s.clients[c].stage == Ready && Ordered(s.clients[c].acts, false, false)
  }

  ghost predicate Run(ss: seq<State>, steps: seq<Step>) {
    |ss| == |steps| + 1 && Initial(ss[0]) && forall i :: 0 <= i < |steps| ==> StepsTo(ss[i], steps[i], ss[i + 1])
  }

  ghost predicate StepsTo(s: State, step: Step, t: State) {
    Enabled(s, step) && t == Next(s, step)
  }

  // ---------- what every step keeps ----------

  // The history of a pipe: command, service, reply consumed, over and over, each three of them for
  // one client and with one outcome.
  ghost predicate InTriples(log: seq<Event>, i: nat)
    requires i < |log|
  {
    if i % 3 == 0 then log[i].Commanded?
    else if i % 3 == 1 then log[i - 1].Commanded? && log[i].Served? && log[i].client == log[i - 1].client &&
        log[i].tag == i - 1
    else log[i - 1].Served? && log[i] == Consumed(log[i - 1].client, log[i - 1].ok)
  }

  ghost predicate Triples(log: seq<Event>) {
    forall i :: 0 <= i < |log| ==> InTriples(log, i)
  }

  ghost predicate Silent(pipe: Pipe) {
    pipe.commands == {} && !pipe.success && !pipe.failed && pipe.worker == Resting
  }

  ghost predicate Quiet(pipe: Pipe) {
    Silent(pipe) && Triples(pipe.log) && |pipe.log| % 3 == 0
  }

  predicate Answers(call: Call) {
    call.reply && call.command != ModeAp
  }

  ghost predicate ReplyLeft(pipe: Pipe, call: Call, c: nat, tag: nat, ok: bool) {
    ok && Answers(call) ==> pipe.queue == Some(Reply(c, tag))
  }

  // A call of client c between its command and its reply.
  ghost predicate InService(pipe: Pipe, call: Call, c: nat) {
    && Triples(pipe.log) && |pipe.log| > 0
    && if pipe.success || pipe.failed then
         && |pipe.log| % 3 == 2 && pipe.commands == {} && pipe.worker == Resting && pipe.success != pipe.failed
         && pipe.log[|pipe.log| - 1] == Served(c, |pipe.log| - 2, pipe.success)
         && ReplyLeft(pipe, call, c, |pipe.log| - 2, pipe.success)
       else
         && |pipe.log| % 3 == 1 && pipe.log[|pipe.log| - 1] == Commanded(c)
         && var request := Request(c, |pipe.log| - 1, call.reply);
            match pipe.worker
            case Resting => pipe.commands == {call.command} && pipe.queue == Some(request)
            case Woken(command) => pipe.commands == {} && command == call.command && pipe.queue == Some(request)
            case Handling(command, item) =>
              pipe.commands == {} && command == call.command && item == request && pipe.queue == None
            case Replying(d, tag, ok) =>
              pipe.commands == {} && d == c && tag == |pipe.log| - 1 && ReplyLeft(pipe, call, c, tag, ok)
  }

  ghost predicate Uses(k: Client, p: Id) {
    k.acts != [] && k.acts[0].Do? && k.acts[0].call.pipe == p
  }

  // A pipe as its owner sees it.
  ghost predicate UseOk(pipe: Pipe, k: Client, c: nat, p: Id) {
    if !Uses(k, p) then Quiet(pipe)
    else
      match k.stage
      case Ready => Quiet(pipe)
      case Cleared => Quiet(pipe) && pipe.queue == None
      case Filled => Quiet(pipe) && pipe.queue == Some(Request(c, |pipe.log|, k.acts[0].call.reply))
      case Sent => InService(pipe, k.acts[0].call, c)
      case Answered(ok) =>
        Quiet(pipe) && |pipe.log| > 0 && pipe.log[|pipe.log| - 1] == Consumed(c, ok) &&
        ReplyLeft(pipe, k.acts[0].call, c, |pipe.log| - 3, ok)
  }

  ghost predicate PipeOk(pipe: Pipe, clients: seq<Client>, p: Id) {
    match pipe.owner
    case None => Quiet(pipe)
    case Some(c) => c < |clients| && UseOk(pipe, clients[c], c, p)
  }

  ghost predicate ClientOk(s: State, c: nat)
    requires c < |s.clients|
  {
    Ordered(s.clients[c].acts, Holds(s.wifi, c), Holds(s.udp, c)) &&
    (s.clients[c].stage != Ready ==> s.clients[c].acts != [] && s.clients[c].acts[0].Do?)
  }

  ghost predicate Inv(s: State) {
    && (forall c :: 0 <= c < |s.clients| ==> ClientOk(s, c))
    && PipeOk(s.wifi, s.clients, Wifi) && PipeOk(s.udp, s.clients, Udp)
    && (s.udp.owner.Some? ==> s.wifi.owner == s.udp.owner)
  }

  // ---------- programs ----------

  lemma {:induction false} AbortOrdered(acts: seq<Act>, wifi: bool, udp: bool)
    requires Ordered(acts, wifi, udp) && (udp ==> wifi)
    ensures Ordered(AfterGive(acts), false, false)
    ensures Ordered(Abort(acts, wifi, udp), wifi, udp)
    ensures |Abort(acts, wifi, udp)| <= |acts|
    ensures acts != [] && !acts[0].Give? ==> |Abort(acts, wifi, udp)| < |acts|
    decreases |acts|
  {
    if acts != [] {
      match acts[0]
      case Take(p) => AbortOrdered(acts[1..], true, p.Udp?);
      case Do(_) => AbortOrdered(acts[1..], wifi, udp);
      case Give(p) => AbortOrdered(acts[1..], p.Udp?, false);
    }
    GivesOrdered(AfterGive(acts), wifi, udp);
  }

  lemma GivesOrdered(rest: seq<Act>, wifi: bool, udp: bool)
    requires Ordered(rest, false, false) && (udp ==> wifi)
    ensures Ordered((if udp then [Give(Udp)] else []) + (if wifi then [Give(Wifi)] else []) + rest, wifi, udp)
  {
    if udp {
      GiveOrdered(rest, Wifi);
      GiveOrdered([Give(Wifi)] + rest, Udp);
      assert [Give(Udp)] + [Give(Wifi)] + rest == [Give(Udp)] + ([Give(Wifi)] + rest);
    } else if wifi {
      GiveOrdered(rest, Wifi);
      assert [] + [Give(Wifi)] + rest == [Give(Wifi)] + rest;
    } else {
      assert [] + [] + rest == rest;
    }
  }

  lemma GiveOrdered(rest: seq<Act>, p: Id)
    requires Ordered(rest, p.Udp?, false)
    ensures Ordered([Give(p)] + rest, true, p.Udp?)
  {
    assert ([Give(p)] + rest)[1..] == rest;
  }

  // ---------- every step keeps the invariant ----------

  function Other(p: Id): Id {
    if p.Wifi? then Udp else Wifi
  }

  // A step of client c that changes pipe p.
  lemma ClientStep(s: State, c: nat, k: Client, p: Id, pipe: Pipe)
    requires Inv(s) && c < |s.clients|
    requires pipe.owner == At(s, p).owner || (At(s, p).owner == None && pipe.owner == Some(c)) ||
             (Holds(At(s, p), c) && pipe.owner == None)
    requires var s' := With(Become(s, c, k), p, pipe);
             ClientOk(s', c) && (s'.udp.owner.Some? ==> s'.wifi.owner == s'.udp.owner)
    requires match pipe.owner
             case None => Quiet(pipe)
             case Some(d) => d == c && UseOk(pipe, k, c, p)
    requires Holds(At(s, Other(p)), c) ==> UseOk(At(s, Other(p)), k, c, Other(p))
    ensures Inv(With(Become(s, c, k), p, pipe))
  {
    var s' := With(Become(s, c, k), p, pipe);
    forall d | 0 <= d < |s'.clients| ensures ClientOk(s', d) {
      if d != c {
        assert ClientOk(s, d);
      }
    }
  }

  // A step of client c that changes only its program.
  lemma ProgramStep(s: State, c: nat, k: Client)
    requires Inv(s) && c < |s.clients| && k.stage == Ready
    requires Ordered(k.acts, Holds(s.wifi, c), Holds(s.udp, c))
    requires Holds(s.wifi, c) ==> Quiet(s.wifi)
    requires Holds(s.udp, c) ==> Quiet(s.udp)
    ensures Inv(Become(s, c, k))
  {
    var s' := Become(s, c, k);
    forall d | 0 <= d < |s'.clients| ensures ClientOk(s', d) {
      if d != c {
        assert ClientOk(s, d);
      }
    }
  }

  // A step of the worker of pipe p.
  lemma WorkerStep(s: State, p: Id, pipe: Pipe)
    requires Inv(s) && pipe.owner == At(s, p).owner && PipeOk(pipe, s.clients, p)
    ensures Inv(With(s, p, pipe))
  {
    var s' := With(s, p, pipe);
    forall d | 0 <= d < |s'.clients| ensures ClientOk(s', d) {
      assert ClientOk(s, d);
    }
  }

  // Until a command is set the pipes a client holds are quiet.
  lemma ReadyIsQuiet(s: State, c: nat)
    requires Inv(s) && c < |s.clients| && Uncommitted(s.clients[c].stage)
    ensures Holds(s.wifi, c) ==> Quiet(s.wifi)
    ensures Holds(s.udp, c) ==> Quiet(s.udp)
  {
    assert ClientOk(s, c);
  }

  // In a call the client holds its pipe, and the other pipe is quiet if held.
  lemma InCallHolds(s: State, c: nat)
    requires Inv(s) && c < |s.clients| && s.clients[c].acts != [] && s.clients[c].acts[0].Do?
    ensures var k := s.clients[c]; var p := k.acts[0].call.pipe;
            && Holds(At(s, p), c) && UseOk(At(s, p), k, c, p)
            && (Holds(At(s, Other(p)), c) ==> Quiet(At(s, Other(p))))
            && Ordered(k.acts, Holds(s.wifi, c), Holds(s.udp, c)) && Holds(s.wifi, c)
  {
    assert ClientOk(s, c);
  }

  lemma TriplesNext(log: seq<Event>, e: Event)
    requires Triples(log) && InTriples(log + [e], |log|)
    ensures Triples(log + [e])
  {
    forall i | 0 <= i < |log + [e]| ensures InTriples(log + [e], i) {
      if i < |log| {
        assert InTriples(log, i);
      }
    }
  }

  lemma TakeStep(s: State, c: nat)
    requires Inv(s) && Enabled(s, TakeMutex(c))
    ensures Inv(Next(s, TakeMutex(c)))
  {
    ReadyIsQuiet(s, c);
    assert ClientOk(s, c);
    var k := s.clients[c];
    var p := k.acts[0].pipe;
    ClientStep(s, c, Client(k.acts[1..], Ready), p, At(s, p).(owner := Some(c)));
  }

  lemma GiveStep(s: State, c: nat)
    requires Inv(s) && Enabled(s, GiveMutex(c))
    ensures Inv(Next(s, GiveMutex(c)))
  {
    ReadyIsQuiet(s, c);
    assert ClientOk(s, c);
    var k := s.clients[c];
    var p := k.acts[0].pipe;
    ClientStep(s, c, Client(k.acts[1..], Ready), p, At(s, p).(owner := None));
  }

  lemma FallbackStep(s: State, c: nat)
    requires Inv(s) && c < |s.clients| && Uncommitted(s.clients[c].stage)
    ensures Inv(Become(s, c, Client(Fallback(s, c), Ready)))
  {
    ReadyIsQuiet(s, c);
    assert ClientOk(s, c);
    AbortOrdered(s.clients[c].acts, Holds(s.wifi, c), Holds(s.udp, c));
    ProgramStep(s, c, Client(Fallback(s, c), Ready));
  }

  lemma ResetStep(s: State, c: nat)
    requires Inv(s) && Enabled(s, ResetQueue(c))
    ensures Inv(Next(s, ResetQueue(c)))
  {
    InCallHolds(s, c);
    var k := s.clients[c];
    var p := k.acts[0].call.pipe;
    ClientStep(s, c, k.(stage := Cleared), p, At(s, p).(queue := None));
  }

  lemma FillStep(s: State, c: nat)
    requires Inv(s) && Enabled(s, FillQueue(c))
    ensures Inv(Next(s, FillQueue(c)))
  {
    InCallHolds(s, c);
    var k := s.clients[c];
    var call := k.acts[0].call;
    var pipe := At(s, call.pipe);
    ClientStep(s, c, k.(stage := Filled), call.pipe, pipe.(queue := Some(Request(c, |pipe.log|, call.reply))));
  }

  lemma CommandStep(s: State, c: nat)
    requires Inv(s) && Enabled(s, SetCommand(c))
    ensures Inv(Next(s, SetCommand(c)))
  {
    InCallHolds(s, c);
    var k := s.clients[c];
    var call := k.acts[0].call;
    var pipe := At(s, call.pipe);
    TriplesNext(pipe.log, Commanded(c));
    assert pipe.commands + {call.command} == {call.command};
    ClientStep(s, c, k.(stage := Sent), call.pipe, pipe.(commands := pipe.commands + {call.command},
                                                         log := pipe.log + [Commanded(c)]));
  }

  lemma AwaitStep(s: State, c: nat)
    requires Inv(s) && Enabled(s, AwaitReply(c))
    ensures Inv(Next(s, AwaitReply(c)))
  {
    InCallHolds(s, c);
    var k := s.clients[c];
    var call := k.acts[0].call;
    var pipe := At(s, call.pipe);
    TriplesNext(pipe.log, Consumed(c, !pipe.failed));
    ClientStep(s, c, k.(stage := Answered(!pipe.failed)), call.pipe,
               pipe.(success := false, failed := false, log := pipe.log + [Consumed(c, !pipe.failed)]));
  }

  lemma EndStep(s: State, c: nat, receive: bool, abort: bool)
    requires Inv(s) && Enabled(s, EndCall(c, receive, abort))
    ensures Inv(Next(s, EndCall(c, receive, abort)))
  {
    InCallHolds(s, c);
    var k := s.clients[c];
    var p := k.acts[0].call.pipe;
    AbortOrdered(k.acts, Holds(s.wifi, c), Holds(s.udp, c));
    ClientStep(s, c, Client(if abort then Fallback(s, c) else k.acts[1..], Ready), p,
               if receive then At(s, p).(queue := None) else At(s, p));
  }

  // A worker is awake only for the call in service.
  lemma AwakeInService(s: State, p: Id) returns (c: nat)
    requires Inv(s) && (At(s, p).worker != Resting || At(s, p).commands != {})
    ensures At(s, p).owner == Some(c) && c < |s.clients|
    ensures Uses(s.clients[c], p) && s.clients[c].stage == Sent && InService(At(s, p), s.clients[c].acts[0].call, c)
  {
    c := At(s, p).owner.value;
  }

  lemma WakeStep(s: State, p: Id)
    requires Inv(s) && Enabled(s, Wake(p))
    ensures Inv(Next(s, Wake(p)))
  {
    var c := AwakeInService(s, p);
    var pipe := At(s, p);
    WorkerStep(s, p, pipe.(commands := {}, worker := Woken(Pick(pipe.commands))));
  }

  lemma ReceiveStep(s: State, p: Id)
    requires Inv(s) && Enabled(s, Receive(p))
    ensures Inv(Next(s, Receive(p)))
  {
    var c := AwakeInService(s, p);
    WorkerStep(s, p, Received(At(s, p)));
  }

  lemma CarryStep(s: State, p: Id, ok: bool)
    requires Inv(s) && Enabled(s, Carry(p, ok))
    ensures Inv(Next(s, Carry(p, ok)))
  {
    var c := AwakeInService(s, p);
    WorkerStep(s, p, Carried(At(s, p), p, ok));
  }

  lemma ReplyStep(s: State, p: Id)
    requires Inv(s) && Enabled(s, SetReply(p))
    ensures Inv(Next(s, SetReply(p)))
  {
    var c := AwakeInService(s, p);
    var pipe := At(s, p);
    TriplesNext(pipe.log, Served(pipe.worker.client, pipe.worker.tag, pipe.worker.ok));
    WorkerStep(s, p, Replied(pipe));
  }

  lemma InvStep(s: State, step: Step)
    requires Inv(s) && Enabled(s, step)
    ensures Inv(Next(s, step))
  {
    match step
    case TakeMutex(c) => TakeStep(s, c);
    case TakeTimesOut(c) => FallbackStep(s, c);
    case ResetQueue(c) => ResetStep(s, c);
    case FillQueue(c) => FillStep(s, c);
    case SetCommand(c) => CommandStep(s, c);
    case AwaitReply(c) => AwaitStep(s, c);
    case EndCall(c, receive, abort) => EndStep(s, c, receive, abort);
    case GiveMutex(c) => GiveStep(s, c);
    case GiveUp(c) => FallbackStep(s, c);
    case Wake(p) => WakeStep(s, p);
    case Receive(p) => ReceiveStep(s, p);
    case Carry(p, ok) => CarryStep(s, p, ok);
    case SetReply(p) => ReplyStep(s, p);
  }

  lemma InitialInv(s: State)
    requires Initial(s)
    ensures Inv(s)
  {
    forall c | 0 <= c < |s.clients| ensures ClientOk(s, c) {
    }
  }

  lemma {:induction false} AlwaysInv(ss: seq<State>, steps: seq<Step>, i: nat)
    requires Run(ss, steps) && i < |ss|
    ensures Inv(ss[i])
  {
    if i == 0 {
      InitialInv(ss[0]);
    } else {
      AlwaysInv(ss, steps, i - 1);
      assert StepsTo(ss[i - 1], steps[i - 1], ss[i]);
      InvStep(ss[i - 1], steps[i - 1]);
    }
  }

  // ---------- what a run shows ----------

  // A worker that was woken always finds a request, and it is the holder's own; so the branches for
  // an empty queue, the one that replies nothing among them, are never taken.  The UDP worker finds
  // room for its reply.
  lemma ReceiveNeverFails(ss: seq<State>, steps: seq<Step>, i: nat, p: Id)
    requires Run(ss, steps) && i < |ss|
    ensures Missed !in At(ss[i], p).log
    ensures At(ss[i], p).worker.Woken? ==>
              && At(ss[i], p).queue.Some? && At(ss[i], p).queue.value.Request?
              && At(ss[i], p).owner == Some(At(ss[i], p).queue.value.client)
    ensures At(ss[i], p).worker.Handling? ==> At(ss[i], p).queue == None
  {
    AlwaysInv(ss, steps, i);
    var log := At(ss[i], p).log;
    assert Triples(log);
    forall j | 0 <= j < |log| ensures log[j] != Missed {
      assert InTriples(log, j);
    }
    if At(ss[i], p).worker != Resting {
      var c := AwakeInService(ss[i], p);
    }
  }

  // Every command is served once and its reply consumed once, by the client that gave it and with
  // the outcome it was served with, before the next command; a pipe nobody holds has no call open.
  lemma OneReplyEach(ss: seq<State>, steps: seq<Step>, i: nat, p: Id, j: nat)
    requires Run(ss, steps) && i < |ss| && j < |At(ss[i], p).log|
    ensures var log := At(ss[i], p).log;
            && (log[j].Commanded? <==> j % 3 == 0) && (log[j].Served? <==> j % 3 == 1) &&
               (log[j].Consumed? <==> j % 3 == 2)
            && (log[j].Served? ==> log[j - 1] == Commanded(log[j].client) && log[j].tag == j - 1)
            && (log[j].Consumed? ==> log[j - 1].Served? && log[j] == Consumed(log[j - 1].client, log[j - 1].ok))
            && (At(ss[i], p).owner == None ==> |log| % 3 == 0)
  {
    AlwaysInv(ss, steps, i);
    var log := At(ss[i], p).log;
    assert Triples(log) && InTriples(log, j);
  }

  // A client waits only while its own call is in service, and a client told of success finds the
  // reply to that very call in the queue.
  lemma ReplyIsOwn(ss: seq<State>, steps: seq<Step>, i: nat, c: nat)
    requires Run(ss, steps) && i < |ss| && c < |ss[i].clients|
    requires ss[i].clients[c].acts != [] && ss[i].clients[c].acts[0].Do?
    ensures var call := ss[i].clients[c].acts[0].call; var pipe := At(ss[i], call.pipe);
            && Holds(pipe, c)
            && (ss[i].clients[c].stage == Sent ==> (pipe.success || pipe.failed || pipe.commands != {} ||
                                                    pipe.worker != Resting))
            && (ss[i].clients[c].stage == Answered(true) && Answers(call) ==>
                  |pipe.log| >= 3 && pipe.log[|pipe.log| - 3] == Commanded(c) &&
                      pipe.queue == Some(Reply(c, |pipe.log| - 3)))
            && (ss[i].clients[c].stage != Sent ==> Silent(pipe))
  {
    AlwaysInv(ss, steps, i);
    InCallHolds(ss[i], c);
    var log := At(ss[i], ss[i].clients[c].acts[0].call.pipe).log;
    if ss[i].clients[c].stage.Answered? {
      assert InTriples(log, |log| - 1) && InTriples(log, |log| - 2) && InTriples(log, |log| - 3);
    }
  }

  // A finished client holds no mutex.
  lemma FreeAtEnd(ss: seq<State>, steps: seq<Step>, i: nat, c: nat)
    requires Run(ss, steps) && i < |ss| && c < |ss[i].clients|
    ensures Holds(ss[i].udp, c) ==> Holds(ss[i].wifi, c)
    ensures ss[i].clients[c].acts == [] || ss[i].clients[c].acts[0] == Take(Wifi) ==>
              !Holds(ss[i].wifi, c) && !Holds(ss[i].udp, c)
  {
    AlwaysInv(ss, steps, i);
    assert ClientOk(ss[i], c);
  }

  // ---------- progress ----------

  predicate Patient(step: Step) {
    !step.TakeTimesOut? && !step.GiveUp?
  }

  // While a client has something left to do, some task can go on without a time-out: whoever holds
  // the Wi-Fi mutex, the worker it waits for, or, when it is free, that client.
  lemma NeverStuck(ss: seq<State>, steps: seq<Step>, i: nat, c: nat) returns (step: Step)
    requires Run(ss, steps) && i < |ss| && c < |ss[i].clients| && ss[i].clients[c].acts != []
    ensures Enabled(ss[i], step) && Patient(step)
  {
    AlwaysInv(ss, steps, i);
    var d := if ss[i].wifi.owner.Some? then ss[i].wifi.owner.value else c;
    assert ClientOk(ss[i], d);
    step := Onward(ss[i], d);
  }

  lemma Onward(s: State, d: nat) returns (step: Step)
    requires Inv(s) && d < |s.clients| && s.clients[d].acts != [] && (s.wifi.owner.Some? ==> Holds(s.wifi, d))
    ensures Enabled(s, step) && Patient(step)
  {
    assert ClientOk(s, d);
    var k := s.clients[d];
    match k.acts[0]
    case Take(p) => step := TakeMutex(d);
    case Give(p) => step := GiveMutex(d);
    case Do(call) =>
      match k.stage
      case Ready => step := ResetQueue(d);
      case Cleared => step := FillQueue(d);
      case Filled => step := SetCommand(d);
      case Answered(_) => step := EndCall(d, false, false);
      case Sent => step := Service(s, d);
  }

  lemma Service(s: State, d: nat) returns (step: Step)
    requires Inv(s) && InCall(s, d, Sent)
    ensures Enabled(s, step) && Patient(step)
  {
    InCallHolds(s, d);
    var p := s.clients[d].acts[0].call.pipe;
    if At(s, p).success || At(s, p).failed {
      step := AwaitReply(d);
    } else {
      match At(s, p).worker
      case Resting => step := Wake(p);
      case Woken(_) => step := Receive(p);
      case Handling(_, _) => step := Carry(p, true);
      case Replying(_, _, _) => step := SetReply(p);
    }
  }

  // How much is left: acts, then stages, then the workers' part of a call.
  function ClientRank(k: Client): int {
    20 * |k.acts| -
    (match k.stage case Ready => 0 case Cleared => 1 case Filled => 2 case Sent => 8 case Answered(_) => 9)
  }

  function PipeRank(pipe: Pipe): nat {
    (if pipe.commands != {} then 4 else 0) +
    match pipe.worker case Resting => 0 case Woken(_) => 3 case Handling(_, _) => 2 case Replying(_, _, _) => 1
  }

  function Total(clients: seq<Client>): int {
    if clients == [] then 0 else Total(clients[..|clients| - 1]) + ClientRank(clients[|clients| - 1])
  }

  function Rank(s: State): int {
    Total(s.clients) + PipeRank(s.wifi) + PipeRank(s.udp)
  }

  lemma {:induction false} TotalUpdate(clients: seq<Client>, c: nat, k: Client)
    requires c < |clients|
    ensures Total(clients[c := k]) == Total(clients) - ClientRank(clients[c]) + ClientRank(k)
  {
    var n := |clients| - 1;
    if c == n {
      assert clients[c := k][..n] == clients[..n];
    } else {
      assert clients[c := k][..n] == clients[..n][c := k];
      TotalUpdate(clients[..n], c, k);
    }
  }

  lemma {:induction false} TotalBounded(clients: seq<Client>)
    requires forall c :: 0 <= c < |clients| ==> clients[c].stage == Ready || clients[c].acts != []
    ensures Total(clients) >= 0
  {
    if clients != [] {
      TotalBounded(clients[..|clients| - 1]);
    }
  }

  lemma CallStepRank(s: State, c: nat, stage: Stage, pipe: Pipe)
    requires c < |s.clients| && s.clients[c].acts != [] && s.clients[c].acts[0].Do?
    ensures var p := s.clients[c].acts[0].call.pipe;
            Rank(CallStep(s, c, stage, pipe)) ==
            Rank(s) - ClientRank(s.clients[c]) + ClientRank(s.clients[c].(stage := stage)) - PipeRank(At(s, p)) +
                PipeRank(pipe)
  {
    TotalUpdate(s.clients, c, s.clients[c].(stage := stage));
  }

  lemma ActStepRank(s: State, c: nat, acts: seq<Act>, p: Id, pipe: Pipe)
    requires c < |s.clients| && |acts| < |s.clients[c].acts| && PipeRank(pipe) == PipeRank(At(s, p))
    ensures Rank(With(Become(s, c, Client(acts, Ready)), p, pipe)) < Rank(s)
  {
    TotalUpdate(s.clients, c, Client(acts, Ready));
  }

  lemma AbortShorter(s: State, c: nat)
    requires Inv(s) && c < |s.clients| && s.clients[c].acts != [] && !s.clients[c].acts[0].Give?
    ensures |Fallback(s, c)| < |s.clients[c].acts|
  {
    assert ClientOk(s, c);
    AbortOrdered(s.clients[c].acts, Holds(s.wifi, c), Holds(s.udp, c));
  }

  // Every step, time-outs and failures included, leaves less to do.
  lemma RankFalls(s: State, step: Step)
    requires Inv(s) && Enabled(s, step)
    ensures Rank(Next(s, step)) < Rank(s)
  {
    match step
    case TakeMutex(c) =>
      var p := s.clients[c].acts[0].pipe;
      ActStepRank(s, c, s.clients[c].acts[1..], p, At(s, p).(owner := Some(c)));
    case GiveMutex(c) =>
      var p := s.clients[c].acts[0].pipe;
      ActStepRank(s, c, s.clients[c].acts[1..], p, At(s, p).(owner := None));
    case TakeTimesOut(c) =>
      AbortShorter(s, c);
      ActStepRank(s, c, Fallback(s, c), Wifi, s.wifi);
    case GiveUp(c) =>
      ActStepRank(s, c, Fallback(s, c), Wifi, s.wifi);
    case EndCall(c, receive, abort) =>
      AbortShorter(s, c);
      var p := s.clients[c].acts[0].call.pipe;
      ActStepRank(s, c, if abort then Fallback(s, c) else s.clients[c].acts[1..], p,
                  if receive then At(s, p).(queue := None) else At(s, p));
    case ResetQueue(c) => CallRankFalls(s, step, c);
    case FillQueue(c) => CallRankFalls(s, step, c);
    case SetCommand(c) => CallRankFalls(s, step, c);
    case AwaitReply(c) => CallRankFalls(s, step, c);
    case Wake(p) => WorkerRankFalls(s, step, p);
    case Receive(p) => WorkerRankFalls(s, step, p);
    case Carry(p, ok) => WorkerRankFalls(s, step, p);
    case SetReply(p) => WorkerRankFalls(s, step, p);
  }

  lemma CallRankFalls(s: State, step: Step, c: nat)
    requires Enabled(s, step) && (step == ResetQueue(c) || step == FillQueue(c) || step == SetCommand(c) ||
                                  step == AwaitReply(c))
    ensures Rank(Next(s, step)) < Rank(s)
  {
    var k, t := s.clients[c], Next(s, step);
    var p := k.acts[0].call.pipe;
    CallStepRank(s, c, t.clients[c].stage, At(t, p));
    assert t == CallStep(s, c, t.clients[c].stage, At(t, p));
    CallRank(k, t.clients[c].stage, PipeRank(At(s, p)), PipeRank(At(t, p)));
  }

  // A stage further outweighs the work a command gives the worker.
  lemma CallRank(k: Client, stage: Stage, was: nat, now: nat)
    requires (k.stage == Ready && stage == Cleared && now == was)
          || (k.stage == Cleared && stage == Filled && now == was)
          || (k.stage == Filled && stage == Sent && now <= was + 4)
          || (k.stage == Sent && stage.Answered? && now == was)
    ensures ClientRank(k.(stage := stage)) + now < ClientRank(k) + was
  {
  }

  lemma WorkerRankFalls(s: State, step: Step, p: Id)
    requires Enabled(s, step) && (step == Wake(p) || step == Receive(p) || (step.Carry? && step.pipe == p) ||
                                  step == SetReply(p))
    ensures Rank(Next(s, step)) < Rank(s)
  {
  }

  lemma RankNotNegative(s: State)
    requires Inv(s)
    ensures Rank(s) >= 0
  {
    forall c | 0 <= c < |s.clients| ensures s.clients[c].stage == Ready || s.clients[c].acts != [] {
      assert ClientOk(s, c);
    }
    TotalBounded(s.clients);
  }

  // No run is longer than its first state's rank: every finite workload ends, whatever the order of
  // the steps.
  lemma {:induction false} RunsEnd(ss: seq<State>, steps: seq<Step>, i: nat)
    requires Run(ss, steps) && i < |ss|
    ensures i + Rank(ss[i]) <= Rank(ss[0]) && Rank(ss[i]) >= 0
  {
    AlwaysInv(ss, steps, i);
    RankNotNegative(ss[i]);
    if i > 0 {
      RunsEnd(ss, steps, i - 1);
      AlwaysInv(ss, steps, i - 1);
      assert StepsTo(ss[i - 1], steps[i - 1], ss[i]);
      RankFalls(ss[i - 1], steps[i - 1]);
    }
  }

  // When a run can go no further but by time-outs, every client is through, both mutexes are free
  // and every command on either pipe has had its reply.
  lemma AllDone(ss: seq<State>, steps: seq<Step>)
    requires Run(ss, steps)
    requires forall step :: Enabled(ss[|ss| - 1], step) ==> !Patient(step)
    ensures var s := ss[|ss| - 1];
            && (forall c :: 0 <= c < |s.clients| ==> s.clients[c].acts == [])
            && s.wifi.owner == None && s.udp.owner == None
            && |s.wifi.log| % 3 == 0 && |s.udp.log| % 3 == 0
  {
    var n := |ss| - 1;
    var s := ss[n];
    AlwaysInv(ss, steps, n);
    forall c | 0 <= c < |s.clients| ensures s.clients[c].acts == [] {
      if s.clients[c].acts != [] {
        var step := NeverStuck(ss, steps, n, c);
      }
    }
    DoneIsFree(s);
  }

  lemma DoneIsFree(s: State)
    requires Inv(s) && forall c :: 0 <= c < |s.clients| ==> s.clients[c].acts == []
    ensures s.wifi.owner == None && s.udp.owner == None && Quiet(s.wifi) && Quiet(s.udp)
  {
    if s.wifi.owner.Some? {
      DoneHoldsNothing(s, s.wifi.owner.value);
    }
  }

  lemma DoneHoldsNothing(s: State, c: nat)
    requires Inv(s) && c < |s.clients| && s.clients[c].acts == []
    ensures !Holds(s.wifi, c) && !Holds(s.udp, c)
  {
    assert ClientOk(s, c);
  }
}
