// The state of wifi.c as its handlers and its worker change it: event bits, number_attempts, the
// one-slot internal queue, the cached addresses and the name of the network.
module Wifi {
  import opened Wrappers
  import opened WifiSpec
  import opened WifiRun

  class Station {
    var bits: set<Bit>
    var numberAttempts: nat
    var internalQueue: Option<Addresses>
    var received: Addresses
    var connectedSsid: string

    ghost function View(): Module
      reads this
    {
      Module(bits, numberAttempts, internalQueue, received, connectedSsid)
    }

    // wifi_init: the bits start with "no defined state".
    constructor ()
      ensures View() == Boot().m
    {
      bits, numberAttempts, internalQueue := {PreInit}, 0, None;
      received, connectedSsid := BLANK, [];
    }

    // xQueueSendToBack without waiting: a full queue keeps what it has.
    method SendToQueue(a: Addresses)
      modifies this`internalQueue
      ensures internalQueue == if old(internalQueue).None? then Some(a) else old(internalQueue)
    {
      if internalQueue.None? {
        internalQueue := Some(a);
      }
    }

    // ---------- the handlers ----------

    method OnStaStart() returns (connect: bool)
      ensures connect <==> StartForScan !in bits
    {
      connect := StartForScan !in bits;
    }

    method OnGotIp(a: Addresses)
      modifies this
      ensures View() == AddressGot(old(View()), a)
    {
      var stateBits := bits;
      bits := bits - {InternalQueue};
      received := a;
      if InternalQueue in stateBits {
        SendToQueue(a);
      }
      numberAttempts := 0;
      bits := bits - {SeveralTries};
      bits := bits - {LostIp};
      bits := bits + {GotIp};
      assert bits == AddressGot(old(View()), a).bits;
    }

    method OnWifiDisconnect() returns (connect: bool)
      modifies this
      ensures View() == Disconnected(old(View()))
      ensures connect == DisconnectVerdict(old(View())).reconnect
    {
      var stateBits := bits;
      connect := false;
      connectedSsid := [];
      if SeveralTries in stateBits {
        if numberAttempts > 0 {
          numberAttempts := numberAttempts - 1;
          connect := true;
        } else {
          bits := bits - {SeveralTries};
          bits := bits - {GotIp};
          bits := bits + {LostIp};
          if Ceaseless in stateBits {
            bits := bits - {InternalQueue};
            connect := true;
          }
        }
      } else if Ceaseless in stateBits {
        bits := bits - {GotIp};
        bits := bits + {LostIp};
        bits := bits - {InternalQueue};
        connect := true;
      } else if Deinitializing !in stateBits {
        bits := bits - {GotIp};
        bits := bits + {LostIp};
      }
      assert bits == Disconnected(old(View())).bits;
    }

    method OnWifiConnect(ssid: string)
      modifies this`connectedSsid
      ensures View() == old(View()).(ssid := ssid)
    {
      connectedSsid := ssid;
    }

    method OnWifiStop()
      modifies this`bits
      ensures View() == StopHandled(old(View()))
    {
      bits := bits - {Deinitializing};
      bits := bits + {Stopped};
    }

    method OnLostIp()
      modifies this
      ensures View() == AddressLost(old(View()))
    {
      received := BLANK;
      bits := bits - {GotIp};
      bits := bits + {LostIp};
    }

    // ---------- the worker's pieces between its waits ----------

    // The start of CONNECT_TO_AP: either the command is answered at once, or the bits are reset,
    // and stop says that the driver must first be stopped.
    method ReceiveCommand(cmd: Command, ghost s: State) returns (answer: Answer, stop: bool)
      requires s.m == View() && s.place == Idle
      modifies this
      ensures View() == Received(s, cmd).m
      ensures cmd.ssid == old(connectedSsid) ==> Received(s, cmd).place == Idle && answer == Received(s, cmd).answer
      ensures cmd.ssid != old(connectedSsid) ==>
                answer == NoAnswer && Received(s, cmd).place == if stop then Stopping(cmd) else Starting(cmd)
    {
      var stateBits := bits;
      answer, stop := NoAnswer, false;
      if cmd.ssid == connectedSsid {
        answer := Success(if cmd.needResponse then Some(received) else None);
        internalQueue := None;
      } else if PreInit !in stateBits {
        bits := {};
        bits := bits + {Sta};
        bits := bits + {Deinitializing};
        stop := true;
        assert bits == {Sta, Deinitializing};
      } else {
        bits := {};
        bits := bits + {Sta};
      }
    }

    // The command's options become bits and the counter.
    method ApplyOptions(cmd: Command, ghost s: State)
      requires s.m == View() && s.place == Starting(cmd)
      modifies this
      ensures View() == Next(s, Configure).m
    {
      if cmd.attempts > 0 {
        bits := bits + {SeveralTries};
        numberAttempts := cmd.attempts;
      }
      if cmd.ceaseless {
        bits := bits + {Ceaseless};
      }
      assert bits == s.m.bits + Wanted(cmd);
    }

    method RequestAddress(cmd: Command, ghost s: State)
      requires s.m == View() && s.place == Configured(cmd)
      modifies this
      ensures View() == Next(s, Arm).m
    {
      if cmd.needResponse {
        bits := bits + {InternalQueue};
      }
      assert bits == s.m.bits + Requested(cmd);
    }

    // After the wait: the reply, and the queue reset that ends every attempt.
    method Conclude(cmd: Command, ghost s: State) returns (answer: Answer)
      requires s.m == View() && s.place == Waiting(cmd) && Enabled(s, Observe)
      modifies this
      ensures View() == Next(s, Observe).m && answer == Next(s, Observe).answer
    {
      answer := Failed;
      if GotIp in bits {
        if cmd.needResponse {
          if internalQueue.Some? {
            answer := Success(internalQueue);
            internalQueue := None;
          }
        } else {
          answer := Success(None);
        }
      }
      internalQueue := None;
    }
  }
}
