// The event handlers of firmware_esp32/main/wifi.c: what each one does to the module's flags, retry
// counter, internal queue and cached addresses, and the bit operations it is made of.
module WifiSpec {
  import opened Wrappers

  datatype Bit =
    | Sta | GotIp | LostIp | Ceaseless | SeveralTries | StartForScan | SoftAp | PreInit
    | Deinitializing | Stopped | InternalQueue

  datatype Addresses = Addresses(ip: string, network: string, broadcast: string)

  const BLANK := Addresses([], [], [])

  // internalWiFiQueueHandle has one slot; received holds received_ip, network_ip and broadcast_ip.
  datatype Module = Module(bits: set<Bit>, attempts: nat, queue: Option<Addresses>, received: Addresses, ssid: string)

  // ---------- the handlers, each as one step ----------

  // What a disconnect does: reconnect says esp_wifi_connect is called again, loss that the station
  // is declared disconnected.
  datatype Verdict = Verdict(reconnect: bool, loss: bool)

  function DisconnectVerdict(m: Module): Verdict {
    if SeveralTries in m.bits && m.attempts > 0 then Verdict(true, false)
    else if SeveralTries in m.bits || Ceaseless in m.bits then Verdict(Ceaseless in m.bits, true)
    else Verdict(false, Deinitializing !in m.bits)
  }

  function Disconnected(m: Module): Module {
    var v, m' := DisconnectVerdict(m), m.(ssid := []);
    if v.loss then m'.(bits := m.bits - {SeveralTries, GotIp} - (if v.reconnect then {InternalQueue} else {}) +
                       {LostIp})
    else if v.reconnect then m'.(attempts := m.attempts - 1)
    else m'
  }

  // A disconnect is flagged as a loss unless tries are left or the driver is being taken down: the
  // flag does not follow every disconnect.
  lemma LossFlaggedIff(m: Module)
    ensures LostIp in Disconnected(m).bits <==> LostIp in m.bits || DisconnectVerdict(m).loss
    ensures DisconnectVerdict(m).loss <==>
            if SeveralTries in m.bits then m.attempts == 0 else Ceaseless in m.bits || Deinitializing !in m.bits
    ensures GotIp in Disconnected(m).bits <==> GotIp in m.bits && !DisconnectVerdict(m).loss
  {
  }

  function AddressGot(m: Module, a: Addresses): Module {
    m.(bits := m.bits - {InternalQueue, SeveralTries, LostIp} + {GotIp}, attempts := 0, received := a,
       queue := if InternalQueue in m.bits && m.queue.None? then Some(a) else m.queue)
  }

  function AddressLost(m: Module): Module {
    m.(bits := m.bits - {GotIp} + {LostIp}, received := BLANK)
  }

  function StopHandled(m: Module): Module {
    m.(bits := m.bits - {Deinitializing} + {Stopped})
  }

  // ---------- the handlers as single bit operations ----------

  datatype Op = Set(bit: Bit) | Clear(bit: Bit)

  datatype Event = OnStart | OnGotIp | OnDisconnect | OnConnect | OnStop | OnLostIp

  function Apply(bits: set<Bit>, op: Op): set<Bit> {
    match op
    case Set(b) => bits + {b}
    case Clear(b) => bits - {b}
  }

  function ApplyAll(bits: set<Bit>, ops: seq<Op>): set<Bit>
    decreases |ops|
  {
    if ops == [] then bits else ApplyAll(Apply(bits, ops[0]), ops[1..])
  }

  // The operations a handler will do once it has taken its snapshot of the bits; attempts is the
  // counter as the handler finds it.
  function Program(e: Event, snapshot: set<Bit>, attempts: nat): seq<Op> {
    match e
    case OnStart => []
    case OnConnect => []
    case OnGotIp => [Clear(InternalQueue), Clear(SeveralTries), Clear(LostIp), Set(GotIp)]
    case OnDisconnect =>
      if SeveralTries in snapshot then
        if attempts > 0 then []
        else
          [Clear(SeveralTries), Clear(GotIp), Set(LostIp)]
          + if Ceaseless in snapshot then [Clear(InternalQueue)] else []
      else if Ceaseless in snapshot then [Clear(GotIp), Set(LostIp), Clear(InternalQueue)]
      else if Deinitializing !in snapshot then [Clear(GotIp), Set(LostIp)]
      else []
    case OnStop => [Clear(Deinitializing), Set(Stopped)]
    case OnLostIp => [Clear(GotIp), Set(LostIp)]
  }

  // Done without interruption, the operations have the effect of the handler as one step.
  lemma ProgramIsHandler(e: Event, m: Module, a: Addresses)
    ensures ApplyAll(m.bits, Program(e, m.bits, m.attempts)) ==
            match e
            case OnStart => m.bits
            case OnConnect => m.bits
            case OnGotIp => AddressGot(m, a).bits
            case OnDisconnect => Disconnected(m).bits
            case OnStop => StopHandled(m).bits
            case OnLostIp => AddressLost(m).bits
  {
    match e
    case OnStart =>
    case OnConnect =>
    case OnGotIp =>
      ApplyFour(m.bits, Clear(InternalQueue), Clear(SeveralTries), Clear(LostIp), Set(GotIp));
    case OnDisconnect =>
      DisconnectProgram(m);
    case OnStop =>
      ApplyTwo(m.bits, Clear(Deinitializing), Set(Stopped));
    case OnLostIp =>
      ApplyTwo(m.bits, Clear(GotIp), Set(LostIp));
  }

  lemma DisconnectProgram(m: Module)
    ensures ApplyAll(m.bits, Program(OnDisconnect, m.bits, m.attempts)) == Disconnected(m).bits
  {
    var b := m.bits;
    if SeveralTries in b && m.attempts == 0 {
      if Ceaseless in b {
        assert Program(OnDisconnect, b, m.attempts) == [Clear(SeveralTries), Clear(GotIp), Set(LostIp),
                                                        Clear(InternalQueue)];
        ApplyFour(b, Clear(SeveralTries), Clear(GotIp), Set(LostIp), Clear(InternalQueue));
      } else {
        assert Program(OnDisconnect, b, m.attempts) == [Clear(SeveralTries), Clear(GotIp), Set(LostIp)];
        ApplyThree(b, Clear(SeveralTries), Clear(GotIp), Set(LostIp));
      }
    } else if SeveralTries !in b && Ceaseless in b {
      ApplyThree(b, Clear(GotIp), Set(LostIp), Clear(InternalQueue));
    } else if SeveralTries !in b && Deinitializing !in b {
      ApplyTwo(b, Clear(GotIp), Set(LostIp));
    }
  }

  lemma ApplyTwo(b: set<Bit>, x: Op, y: Op)
    ensures ApplyAll(b, [x, y]) == Apply(Apply(b, x), y)
  {
    assert [x, y][1..] == [y] && [y][1..] == [];
    assert ApplyAll(Apply(Apply(b, x), y), []) == Apply(Apply(b, x), y);
  }

  lemma ApplyThree(b: set<Bit>, x: Op, y: Op, z: Op)
    ensures ApplyAll(b, [x, y, z]) == Apply(Apply(Apply(b, x), y), z)
  {
    assert [x, y, z][1..] == [y, z];
    ApplyTwo(Apply(b, x), y, z);
  }

  lemma ApplyFour(b: set<Bit>, x: Op, y: Op, z: Op, w: Op)
    ensures ApplyAll(b, [x, y, z, w]) == Apply(Apply(Apply(Apply(b, x), y), z), w)
  {
    assert [x, y, z, w][1..] == [y, z, w];
    ApplyThree(Apply(b, x), y, z, w);
  }

  // ---------- every interleaving of bit operations ----------

  // The event task runs one handler at a time; pending is the rest of it.  The worker's operations
  // come between any two of the handler's.
  datatype Flags = Flags(bits: set<Bit>, pending: seq<Op>)

  datatype Move =
    | Handle(event: Event, attempts: nat) // the event task takes its snapshot
    | Continue                            // the next operation of the handler
    | Worker(op: Op)

  // The bits wifi_init and the worker set, one at a time; they clear anything.
  const WORKER_SETS := {Sta, SoftAp, PreInit, Deinitializing, SeveralTries, Ceaseless, StartForScan, InternalQueue}

  ghost predicate CanMove(f: Flags, move: Move) {
    match move
    case Handle(_, _) => f.pending == []
    case Continue => f.pending != []
    case Worker(op) => op.Set? ==> op.bit in WORKER_SETS
  }

  function Moved(f: Flags, move: Move): Flags
    requires CanMove(f, move)
  {
    match move
    case Handle(e, attempts) => f.(pending := Program(e, f.bits, attempts))
    case Continue => Flags(Apply(f.bits, f.pending[0]), f.pending[1..])
    case Worker(op) => f.(bits := Apply(f.bits, op))
  }

  ghost predicate Moves(fs: seq<Flags>, moves: seq<Move>) {
    |fs| == |moves| + 1 && fs[0] == Flags({}, []) &&
    forall i :: 0 <= i < |moves| ==> CanMove(fs[i], moves[i]) && fs[i + 1] == Moved(fs[i], moves[i])
  }

  ghost predicate Apart(bits: set<Bit>) {
    !(GotIp in bits && LostIp in bits)
  }

  // Whatever is cleared meanwhile, the operations still to come never bring both bits together.
  ghost predicate StaysApart(bits: set<Bit>, ops: seq<Op>)
    decreases |ops|
  {
    Apart(bits) && (ops != [] ==> StaysApart(Apply(bits, ops[0]), ops[1..]))
  }

  lemma {:induction false} FewerBits(bits: set<Bit>, fewer: set<Bit>, ops: seq<Op>)
    requires StaysApart(bits, ops)
    requires GotIp in fewer ==> GotIp in bits
    requires LostIp in fewer ==> LostIp in bits
    ensures StaysApart(fewer, ops)
    decreases |ops|
  {
    if ops != [] {
      FewerBits(Apply(bits, ops[0]), Apply(fewer, ops[0]), ops[1..]);
    }
  }

  lemma ProgramStaysApart(e: Event, snapshot: set<Bit>, attempts: nat)
    requires Apart(snapshot)
    ensures StaysApart(snapshot, Program(e, snapshot, attempts))
  {
    PairsStayApart(snapshot, Program(e, snapshot, attempts));
  }

  // An operation that sets one of the two bits has cleared the other just before, or finds it clear.
  ghost predicate Guarded(b: set<Bit>, p: seq<Op>, i: nat)
    requires i < |p|
  {
    && (p[i] == Set(GotIp) ==> if i == 0 then LostIp !in b else p[i - 1] == Clear(LostIp))
    && (p[i] == Set(LostIp) ==> if i == 0 then GotIp !in b else p[i - 1] == Clear(GotIp))
  }

  lemma {:induction false} PairsStayApart(b: set<Bit>, p: seq<Op>)
    requires Apart(b)
    requires forall i :: 0 <= i < |p| ==> Guarded(b, p, i)
    ensures StaysApart(b, p)
    decreases |p|
  {
    if p != [] {
      var b', q := Apply(b, p[0]), p[1..];
      assert Guarded(b, p, 0);
      forall i | 0 <= i < |q| ensures Guarded(b', q, i) {
        assert Guarded(b, p, i + 1);
      }
      PairsStayApart(b', q);
    }
  }

  lemma MoveStaysApart(f: Flags, move: Move)
    requires CanMove(f, move) && StaysApart(f.bits, f.pending)
    ensures StaysApart(Moved(f, move).bits, Moved(f, move).pending)
  {
    match move
    case Handle(e, attempts) =>
      ProgramStaysApart(e, f.bits, attempts);
    case Continue =>
    case Worker(op) =>
      FewerBits(f.bits, Apply(f.bits, op), f.pending);
  }

  // In every interleaving of single bit operations "has an address" and "has lost it" are never
  // both set.
  lemma {:induction false} NeverBoth(fs: seq<Flags>, moves: seq<Move>, k: nat)
    requires Moves(fs, moves) && k < |fs|
    ensures StaysApart(fs[k].bits, fs[k].pending)
    ensures !(GotIp in fs[k].bits && LostIp in fs[k].bits)
  {
    if k > 0 {
      NeverBoth(fs, moves, k - 1);
      MoveStaysApart(fs[k - 1], moves[k - 1]);
    }
  }
}
