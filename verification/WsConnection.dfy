/**
 The reconnecting client as it runs: closure variables updated step by step by the
 callbacks.  Every callback is proved to do exactly what the value-level description in
 module Reconnect says, so the theorems there hold for it.
 */
module WsConnection {
  import opened Wrappers
  import opened Reconnect

  class Connection {
    // the closure variables
    var socket: Option<nat>
    var closed: bool
    var reconnectVetoed: bool
    var attempt: nat
    var retryTimer: nat
    var pingTimer: nat
    var pongTimer: nat
    var awaitingPong: bool
    // what the browser keeps
    var sockets: seq<Socket>
    var timers: map<nat, Timer>
    var lastTimer: nat
    var now: nat
    var listening: bool
    // history
    ghost var heard: nat
    ghost var pinged: nat
    ghost var silent: bool
    ghost var waits: seq<nat>
    ghost var armed: nat

    ghost function View(): Conn
      reads this
    {
      Conn(socket, closed, reconnectVetoed, attempt, retryTimer, pingTimer, pongTimer, awaitingPong,
           sockets, timers, lastTimer, now, listening, heard, pinged, silent, waits, armed)
    }

    ghost predicate Valid()
      reads this
    {
      Inv(View())
    }

    constructor (time: nat)
      ensures View() == Reconnect.Connect(time)
    {
      socket, closed, reconnectVetoed, attempt := None, false, false, 0;
      retryTimer, pingTimer, pongTimer, awaitingPong := 0, 0, 0, false;
      sockets, timers, lastTimer, now, listening := [], map[], 0, time, true;
      heard, pinged, silent, waits, armed := time, time, false, [], 0;
      new;
      ConnectOk(time);
      Open();
    }

    /** `window.setTimeout`. */
    method SetTimeout(task: Task, delay: nat) returns (id: nat)
      modifies this`timers, this`lastTimer
      ensures id == old(lastTimer) + 1 == lastTimer
      ensures timers == old(timers)[id := Timer(task, now + delay)]
    {
      lastTimer := lastTimer + 1;
      id := lastTimer;
      timers := timers[id := Timer(task, now + delay)];
    }

    /** `window.clearTimeout`: an id that is not pending is ignored. */
    method ClearTimeout(id: nat)
      modifies this`timers
      ensures timers == old(timers) - {id}
    {
      timers := timers - {id};
    }

    /** `ws.close()`. */
    method CloseWs(i: nat)
      requires i < |sockets|
      modifies this`sockets
      ensures View() == CloseSocket(old(View()), i)
    {
      if sockets[i].net == Net.Connecting || sockets[i].net == Net.Open {
        sockets := sockets[i := sockets[i].(net := Closing)];
      }
    }

    method ClearHeartbeat()
      modifies this`timers, this`awaitingPong
      ensures View() == ClearTimers(old(View()))
    {
      ClearTimeout(pingTimer);
      ClearTimeout(pongTimer);
      awaitingPong := false;
    }

    method Schedule()
      modifies this
      ensures View() == ScheduleReconnect(old(View()))
    {
      hide Delay;
      if closed {
        return;
      }
      var delay := Delay(attempt);
      attempt := attempt + 1;
      retryTimer := SetTimeout(Retry, delay);
      Remember(delay);
    }

    ghost method Remember(delay: nat)
      modifies this`waits, this`armed
      ensures waits == old(waits) + [delay] && armed == now
    {
      waits, armed := waits + [delay], now;
    }

    method Open()
      requires socket.Some? ==> socket.value < |sockets|
      modifies this
      ensures View() == OpenSocket(old(View()))
    {
      if closed {
        return;
      }
      if socket.Some? {
        var prev := socket.value;
        sockets := sockets[prev := sockets[prev].(hears := false, hearsClose := false)];
        CloseWs(prev);
      }
      sockets := sockets + [Socket(Connecting, true, true)];
      socket := Some(|sockets| - 1);
    }

    method Beat(i: nat)
      modifies this
      ensures View() == StartHeartbeat(old(View()), i)
    {
      ClearHeartbeat();
      pingTimer := SetTimeout(Ping(i), PING_INTERVAL);
    }

    /** `close()` of the returned handle. */
    method Close()
      requires socket.Some? ==> socket.value < |sockets|
      modifies this
      ensures View() == UserClose(old(View()))
    {
      closed := true;
      ClearHeartbeat();
      ClearTimeout(retryTimer);
      listening := false;
      assert View() == StopTimers(old(View()));
      Drop();
    }

    method Drop()
      requires socket.Some? ==> socket.value < |sockets|
      modifies this
      ensures View() == DropSocket(old(View()))
    {
      if socket.Some? {
        var ws := socket.value;
        sockets := sockets[ws := sockets[ws].(hearsClose := false)];
        CloseWs(ws);
        socket := None;
      }
    }

    method Greet(i: nat)
      modifies this
      ensures View() == Welcome(old(View()), i)
      ensures socket == old(socket) && sockets == old(sockets)
    {
      attempt := 0;
      heard, silent, waits := now, false, [];
      Beat(i);
    }

    /** `ws.onopen`; `closes`: the user's handler calls `close()`. */
    method OnOpen(i: nat, closes: bool)
      requires Shaped(View()) && Enabled(View(), Opened(i, closes))
      modifies this
      ensures View() == Step(old(View()), Opened(i, closes))
    {
      hide UserClose, Welcome;
      sockets := sockets[i := sockets[i].(net := Net.Open)];
      if sockets[i].hears {
        Greet(i);
        if closes {
          Close();
        }
      }
    }

    /** `ws.onmessage`. */
    method OnMessage(i: nat, pong: bool, closes: bool)
      requires Shaped(View()) && Enabled(View(), Message(i, pong, closes))
      modifies this
      ensures View() == Step(old(View()), Message(i, pong, closes))
    {
      if sockets[i].hears {
        if pong {
          awaitingPong := false;
          ClearTimeout(pongTimer);
          heard, silent := now, false;
        } else if closes {
          Close();
        }
      }
    }

    /** `ws.onclose`; `veto`: the `reconnect` option returns false for this code. */
    method OnClose(i: nat, veto: bool, closes: bool)
      requires Shaped(View()) && Enabled(View(), Ended(i, veto, closes))
      modifies this
      ensures View() == Step(old(View()), Ended(i, veto, closes))
    {
      hide UserClose;
      sockets := sockets[i := sockets[i].(net := Closed)];
      if sockets[i].hearsClose {
        ClearHeartbeat();
        if closes {
          Close();
        }
        if closed {
          return;
        }
        if veto {
          reconnectVetoed := true;
          ClearTimeout(retryTimer);
          return;
        }
        Schedule();
      }
    }

    /** A pending timer fires: `open`, `tick`, or the pong deadline. */
    method OnTimer(id: nat)
      requires Shaped(View()) && Enabled(View(), Fire(id))
      modifies this
      ensures View() == Step(old(View()), Fire(id))
    {
      var task := timers[id].task;
      timers := timers - {id};
      match task {
        case Retry => Open();
        case Ping(i) => Tick(i);
        case Pong(i) =>
          if awaitingPong {
            CloseWs(i);
          }
      }
    }

    /** `tick` of the heartbeat. */
    method Tick(i: nat)
      requires i < |sockets|
      modifies this
      ensures View() == PingTick(old(View()), i)
    {
      if closed || sockets[i].net != Net.Open {
        return;
      }
      if awaitingPong {
        CloseWs(i);
        return;
      }
      awaitingPong := true;
      pinged, silent := now, true;
      pongTimer := SetTimeout(Pong(i), PONG_TIMEOUT);
      pingTimer := SetTimeout(Ping(i), PING_INTERVAL);
    }

    method OnVisibility(visible: bool)
      requires Shaped(View()) && Enabled(View(), Visibility(visible))
      modifies this
      ensures View() == Step(old(View()), Visibility(visible))
    {
      if closed || reconnectVetoed || !visible {
        return;
      }
      if socket.None? || sockets[socket.value].net != Net.Open {
        ClearTimeout(retryTimer);
        attempt := 0;
        waits := [];
        Open();
      }
    }

    /** The browser's event loop: one event, and the invariant is kept. */
    method Dispatch(ev: Event)
      requires Valid() && Enabled(View(), ev)
      modifies this
      ensures Valid() && View() == Step(old(View()), ev)
    {
      StepKeeps(View(), ev);
      match ev {
        case Opened(i, closes) => OnOpen(i, closes);
        case Message(i, pong, closes) => OnMessage(i, pong, closes);
        case Ending(i) => CloseWs(i);  // the browser itself starts closing
        case Ended(i, veto, closes) => OnClose(i, veto, closes);
        case Fire(id) => OnTimer(id);
        case Wait(ms) => now := now + ms;
        case Visibility(visible) => OnVisibility(visible);
        case Close => Close();
      }
    }

    /** `send(msg)`: true exactly when the message goes to an OPEN current socket. */
    method Send() returns (sent: bool)
      requires Valid()
      ensures sent <==> !closed && sockets[|sockets| - 1].net.Open?
    {
      if socket.None? || sockets[socket.value].net != Net.Open {
        return false;
      }
      return true;
    }
  }
}
