// The worker of wifi.c carrying out CONNECT_TO_AP, interleaved with the radio's events, and the
// history by which its answers are judged.
module WifiRun {
  import opened Wrappers
  import opened WifiSpec

  datatype Command = Command(ssid: string, ceaseless: bool, needResponse: bool, attempts: nat)

  // Where the worker is between two of its steps.
  datatype Place =
    | Idle
    | Stopping(cmd: Command)   // waiting for STATE_STOPPED
    | Starting(cmd: Command)
    | Configured(cmd: Command)
    | Armed(cmd: Command)      // about to call esp_wifi_start
    | Waiting(cmd: Command)    // waiting for STATE_GOT_IP or STATE_LOST_IP

  // The driver: started or not, its start event not yet handled, a connection asked for, the network
  // it has reported to be connected to, and esp_wifi_stop called but its event not yet handled.
  datatype Radio = Radio(on: bool, starting: bool, connecting: bool, joined: Option<string>, stopping: bool)

  const OFF := Radio(false, false, false, None, false)

  datatype Answer = NoAnswer | Failed | Success(reply: Option<Addresses>)

  datatype Entry = Got(addresses: Addresses, network: string) | Gone(verdict: Verdict) | Expired

  // log is the history of address events.  Of the last attempt: begun is the length of the log when
  // its command was received, started that when it started the driver, if it came to that, found is
  // what the internal queue held when the command was received, and sent counts its sends to that
  // queue.  ended is the length of the log when the worker last came to rest, and standing says that
  // a request for an address was left then.
  datatype State = State(m: Module, place: Place, radio: Radio, log: seq<Entry>, begun: nat, started: Option<nat>,
                         found: Option<Addresses>, sent: nat, ended: nat, standing: bool, answer: Answer)

  datatype Step =
    | Receive(cmd: Command) | SeeStopped | StopTimesOut | Configure | ConfigureFails | Arm | Start | StartFails
    | Observe
    | StaStart | Connect(ssid: string) | GetIp(addresses: Addresses) | Disconnect | Stop | LoseIp

  function Boot(): State {
    State(Module({PreInit}, 0, None, BLANK, []), Idle, OFF, [], 0, None, None, 0, 0, false, NoAnswer)
  }

  // A connection the driver was asked for reports its network once, then addresses, until it reports
  // that it is gone or the driver's stop is handled.
  predicate Enabled(s: State, step: Step) {
    match step
    case Receive(_) => s.place.Idle?
    case SeeStopped => s.place.Stopping? && Stopped in s.m.bits
    case StopTimesOut => s.place.Stopping? && Stopped !in s.m.bits
    case Configure => s.place.Starting?
    case ConfigureFails => s.place.Configured?
    case Arm => s.place.Configured?
    case Start => s.place.Armed?
    case StartFails => s.place.Armed?
    case Observe => s.place.Waiting? && (GotIp in s.m.bits || LostIp in s.m.bits)
    case StaStart => s.radio.starting
    case Connect(_) => s.radio.connecting && s.radio.joined.None?
    case GetIp(_) => s.radio.joined.Some?
    case Disconnect => s.radio.connecting
    case Stop => s.radio.stopping
    case LoseIp => true
  }

  function Finish(s: State, answer: Answer): State {
    s.(place := Idle, answer := answer, m := s.m.(queue := None), ended := |s.log|,
       standing := InternalQueue in s.m.bits)
  }

  function Received(s: State, cmd: Command): State {
    if cmd.ssid == s.m.ssid then
      Finish(s, Success(if cmd.needResponse then Some(s.m.received) else None))
    else
      var t := s.(begun := |s.log|, started := None, found := s.m.queue, sent := 0);
      if PreInit !in s.m.bits then
        t.(m := s.m.(bits := {Sta, Deinitializing}), place := Stopping(cmd), radio := s.radio.(stopping := s.radio.on))
      else
        t.(m := s.m.(bits := {Sta}), place := Starting(cmd))
  }

  function Wanted(cmd: Command): set<Bit> {
    (if cmd.attempts > 0 then {SeveralTries} else {}) + if cmd.ceaseless then {Ceaseless} else {}
  }

  function Requested(cmd: Command): set<Bit> {
    if cmd.needResponse then {InternalQueue} else {}
  }

  function Observed(s: State, cmd: Command): State {
    Finish(s, if GotIp !in s.m.bits then Failed
              else if !cmd.needResponse then Success(None)
              else if s.m.queue.Some? then Success(s.m.queue)
              else Failed)
  }

  function Next(s: State, step: Step): State
    requires Enabled(s, step)
  {
    match step
    case Receive(cmd) => Received(s, cmd)
    case SeeStopped => s.(m := s.m.(bits := s.m.bits - {Stopped}), place := Starting(s.place.cmd))
    case StopTimesOut => Finish(s, Failed)
    case Configure =>
      var cmd := s.place.cmd;
      s.(m := s.m.(bits := s.m.bits + Wanted(cmd), attempts := if cmd.attempts > 0 then cmd.attempts else s.m.attempts),
         place := Configured(cmd))
    case ConfigureFails => Finish(s, Failed)
    case Arm => s.(m := s.m.(bits := s.m.bits + Requested(s.place.cmd)), place := Armed(s.place.cmd))
    case Start => s.(place := Waiting(s.place.cmd), started := Some(|s.log|),
                     radio := Radio(true, true, false, None, false))
    case StartFails => Finish(s.(m := s.m.(bits := s.m.bits - {InternalQueue})), Failed)
    case Observe => Observed(s, s.place.cmd)
    case StaStart => s.(radio := s.radio.(starting := false, connecting := StartForScan !in s.m.bits))
    case Connect(ssid) => s.(m := s.m.(ssid := ssid), radio := s.radio.(joined := Some(ssid)))
    case GetIp(a) => s.(m := AddressGot(s.m, a), log := s.log + [Got(a, s.radio.joined.value)],
                        sent := if InternalQueue in s.m.bits then s.sent + 1 else s.sent)
    case Disconnect =>
      var v := DisconnectVerdict(s.m);
      s.(m := Disconnected(s.m), log := s.log + [Gone(v)], radio := s.radio.(connecting := v.reconnect, joined := None))
    case Stop => s.(m := StopHandled(s.m), radio := OFF)
    case LoseIp => s.(m := AddressLost(s.m), log := s.log + [Expired])
  }

  ghost predicate Run(ss: seq<State>, steps: seq<Step>) {
    |ss| == |steps| + 1 && ss[0] == Boot() && forall i :: 0 <= i < |steps| ==> StepsTo(ss[i], steps[i], ss[i + 1])
  }

  ghost predicate StepsTo(s: State, step: Step, t: State) {
    Enabled(s, step) && t == Next(s, step)
  }

  // ---------- reading the history ----------

  // How many disconnects were answered by another try before anything else happened.
  function Retries(es: seq<Entry>): (k: nat)
    ensures k <= |es| && (forall i :: 0 <= i < k ==> es[i] == Gone(Verdict(true, false)))
    ensures k < |es| ==> es[k] != Gone(Verdict(true, false))
  {
    if es != [] && es[0] == Gone(Verdict(true, false)) then 1 + Retries(es[1..]) else 0
  }

  function FirstAddress(es: seq<Entry>): Option<Addresses> {
    if es == [] then None else if es[0].Got? then Some(es[0].addresses) else FirstAddress(es[1..])
  }

  // The address held: the last one got, unless it has expired since.
  function LatestAddress(es: seq<Entry>): Addresses {
    if es == [] then BLANK
    else
      var e := es[|es| - 1];
      match e
      case Got(a, _) => a
      case Expired => BLANK
      case Gone(_) => LatestAddress(es[..|es| - 1])
  }

  // What a standing request for an address fetches: the first address, unless a loss on a ceaseless
  // connection takes the request back before.
  function Fetched(es: seq<Entry>): Option<Addresses> {
    if es == [] || es[0] == Gone(Verdict(true, true)) then None
    else if es[0].Got? then Some(es[0].addresses)
    else Fetched(es[1..])
  }

  // The request still stands.
  predicate Pending(es: seq<Entry>) {
    forall e <- es :: !e.Got? && e != Gone(Verdict(true, true))
  }

  // An address expires before one is got.
  predicate ExpiresFirst(es: seq<Entry>) {
    es != [] && !es[0].Got? && (es[0].Expired? || ExpiresFirst(es[1..]))
  }

  // What the events so far leave of the two address bits.
  function Mark(es: seq<Entry>): set<Bit> {
    if es == [] then {}
    else
      match es[|es| - 1]
      case Got(_, _) => {GotIp}
      case Expired => {LostIp}
      case Gone(v) => if v.loss then {LostIp} else Mark(es[..|es| - 1])
  }

  // No event that touches the address bits.
  predicate Untouched(es: seq<Entry>) {
    forall e <- es :: e.Gone? && !e.verdict.loss
  }

  // The last thing that happened since the last attempt started the driver is that an address was got.
  predicate AddressCurrent(s: State) {
    s.started.Some? && |s.log| > s.started.value && s.log[|s.log| - 1].Got?
  }

  // ---------- the history grows ----------

  lemma {:induction false} RetriesNext(es: seq<Entry>, e: Entry)
    ensures Retries(es + [e]) ==
            if Retries(es) == |es| && e == Gone(Verdict(true, false)) then |es| + 1 else Retries(es)
  {
    if es == [] {
      assert ([e])[1..] == [];
    } else {
      assert (es + [e])[1..] == es[1..] + [e];
      RetriesNext(es[1..], e);
    }
  }

  lemma {:induction false} FirstAddressNext(es: seq<Entry>, e: Entry)
    ensures FirstAddress(es + [e]) ==
            if FirstAddress(es).Some? then FirstAddress(es) else if e.Got? then Some(e.addresses) else None
  {
    if es == [] {
      assert ([e])[1..] == [];
    } else {
      assert (es + [e])[1..] == es[1..] + [e];
      FirstAddressNext(es[1..], e);
    }
  }

  lemma {:induction false} FetchedNext(es: seq<Entry>, e: Entry)
    ensures Fetched(es + [e]) == if Pending(es) then if e.Got? then Some(e.addresses) else None else Fetched(es)
    ensures Pending(es + [e]) <==> Pending(es) && !e.Got? && e != Gone(Verdict(true, true))
    ensures Pending(es) ==> Fetched(es) == None
  {
    if es == [] {
      assert ([e])[1..] == [];
    } else {
      assert (es + [e])[1..] == es[1..] + [e];
      assert es == [es[0]] + es[1..];
      FetchedNext(es[1..], e);
    }
  }

  lemma {:induction false} ExpiresFirstNext(es: seq<Entry>, e: Entry)
    ensures ExpiresFirst(es + [e]) <==> ExpiresFirst(es) || (FirstAddress(es) == None && e.Expired?)
  {
    if es == [] {
      assert ([e])[1..] == [];
    } else {
      assert (es + [e])[1..] == es[1..] + [e];
      ExpiresFirstNext(es[1..], e);
    }
  }

  lemma {:induction false} ExpiresFirstLonger(es: seq<Entry>, fs: seq<Entry>)
    requires ExpiresFirst(es)
    ensures ExpiresFirst(es + fs)
  {
    if !es[0].Expired? {
      assert (es + fs)[1..] == es[1..] + fs;
      ExpiresFirstLonger(es[1..], fs);
    }
  }

  lemma MarkNext(es: seq<Entry>, e: Entry)
    ensures Mark(es + [e]) ==
            match e
            case Got(_, _) => {GotIp}
            case Expired => {LostIp}
            case Gone(v) => if v.loss then {LostIp} else Mark(es)
  {
    assert (es + [e])[..|es|] == es;
  }

  lemma {:induction false} MarkEmpty(es: seq<Entry>)
    ensures Mark(es) == {} <==> Untouched(es)
    ensures Mark(es) == {} || Mark(es) == {GotIp} || Mark(es) == {LostIp}
  {
    if es != [] {
      var front, e := es[..|es| - 1], es[|es| - 1];
      MarkEmpty(front);
      assert es == front + [e] && e in es;
      assert GotIp in {GotIp} && LostIp in {LostIp};
    }
  }

  // What a request fetches is the first address; when an address ends the retries it is that one.
  lemma {:induction false} FetchedIsFirst(es: seq<Entry>)
    ensures Fetched(es).Some? ==> Fetched(es) == FirstAddress(es)
    ensures var k := Retries(es);
            && (k == |es| ==> Pending(es) && !ExpiresFirst(es))
            && (k < |es| && es[k].Got? ==> Fetched(es) == Some(es[k].addresses) && !ExpiresFirst(es))
            && (k < |es| && es[k].Expired? ==> ExpiresFirst(es))
            && (k < |es| && es[k] == Gone(Verdict(true, true)) ==> Fetched(es) == None)
  {
    if es != [] {
      FetchedIsFirst(es[1..]);
      assert es == [es[0]] + es[1..];
    }
  }

  lemma {:induction false} PendingIsNone(es: seq<Entry>)
    requires Pending(es)
    ensures FirstAddress(es) == Fetched(es) == None
  {
    if es != [] {
      PendingIsNone(es[1..]);
    }
  }

  lemma LatestNext(es: seq<Entry>, e: Entry)
    ensures LatestAddress(es + [e]) ==
            match e case Got(a, _) => a case Expired => BLANK case Gone(_) => LatestAddress(es)
  {
    assert (es + [e])[..|es|] == es;
  }

  lemma SliceNext(log: seq<Entry>, e: Entry, i: nat)
    requires i <= |log|
    ensures (log + [e])[i..] == log[i..] + [e]
    ensures forall j | i <= j <= |log| :: (log + [e])[i..j] == log[i..j]
  {
  }
}
