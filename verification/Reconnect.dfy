/**
 The reconnecting WebSocket client: one live socket at a time, capped exponential backoff,
 and a ping heartbeat that notices sockets which died silently.  The browser (socket life
 cycle, timers, clock, page visibility) and the user are the environment.
 */
module Reconnect {
  import opened Wrappers

  const PING_INTERVAL := 20_000
  const PONG_TIMEOUT := 10_000
  const MAX_DELAY := 10_000

  // ---------- State ----------

  /** The `readyState` of a socket. */
  datatype Net = Connecting | Open | Closing | Closed

  /** `hears`: onopen, onmessage and onerror are attached; `hearsClose`: onclose is. */
  datatype Socket = Socket(net: Net, hears: bool, hearsClose: bool)

  /** What a pending timer will run. */
  datatype Task = Retry | Ping(ws: nat) | Pong(ws: nat)

  datatype Timer = Timer(task: Task, due: nat)

  /**
   The closure variables of a connection together with what the browser keeps for it: all
   sockets ever created, pending timers by id, the clock, and whether the visibility
   listener is registered.  The last five fields only record history: when the current
   socket last opened or answered, when it was last pinged, whether it has been silent
   since, the retry delays since the last reset, and when the last retry was scheduled.
   */
  datatype Conn = Conn(
    socket: Option<nat>, closed: bool, vetoed: bool, attempt: nat,
    retryTimer: nat, pingTimer: nat, pongTimer: nat, awaitingPong: bool,
    sockets: seq<Socket>, timers: map<nat, Timer>, lastTimer: nat, now: nat, listening: bool,
    heard: nat, pinged: nat, silent: bool, waits: seq<nat>, armed: nat)

  function Min(a: nat, b: nat): nat { if a < b then a else b }

  function Pow2(k: nat): (p: nat)
    ensures p >= 1
  {
    if k == 0 then 1 else 2 * Pow2(k - 1)
  }

  /** The delay before retry number `k`, counting from 0. */
  function Delay(k: nat): nat { Min(1000 * Pow2(k), MAX_DELAY) }

  // ---------- What the callbacks do ----------

  function ClearTimers(c: Conn): Conn {
    c.(timers := c.timers - {c.pingTimer} - {c.pongTimer}, awaitingPong := false)
  }

  /** `ws.close()`: a socket that is not yet closing starts to. */
  function CloseSocket(c: Conn, i: nat): Conn
    requires i < |c.sockets|
  {
    var s := c.sockets[i];
    if s.net.Connecting? || s.net.Open? then c.(sockets := c.sockets[i := s.(net := Closing)]) else c
  }

  function ScheduleReconnect(c: Conn): Conn {
    if c.closed then c else
    var id := c.lastTimer + 1;
    c.(attempt := c.attempt + 1, retryTimer := id, lastTimer := id,
       timers := c.timers[id := Timer(Retry, c.now + Delay(c.attempt))],
       waits := c.waits + [Delay(c.attempt)], armed := c.now)
  }

  /** `open()`: detach and close the socket in flight, then create a new one. */
  function OpenSocket(c: Conn): Conn
    requires c.socket.Some? ==> c.socket.value < |c.sockets|
  {
    if c.closed then c else
    var d := if c.socket.None? then c else
             var p := c.socket.value;
             CloseSocket(c.(sockets := c.sockets[p := c.sockets[p].(hears := false, hearsClose := false)]), p);
    d.(socket := Some(|d.sockets|), sockets := d.sockets + [Socket(Connecting, true, true)])
  }

  /** Sends the ping due now and arms both timers. */
  function SendPing(c: Conn, i: nat): Conn {
    var pong, ping := c.lastTimer + 1, c.lastTimer + 2;
    c.(awaitingPong := true, pinged := c.now, silent := true,
       pongTimer := pong, pingTimer := ping, lastTimer := ping,
       timers := c.timers[pong := Timer(Pong(i), c.now + PONG_TIMEOUT)][ping := Timer(Ping(i), c.now + PING_INTERVAL)])
  }

  function StartHeartbeat(c: Conn, i: nat): Conn {
    var d := ClearTimers(c);
    var id := d.lastTimer + 1;
    d.(pingTimer := id, lastTimer := id, timers := d.timers[id := Timer(Ping(i), d.now + PING_INTERVAL)])
  }

  /** The first half of `close()`: no timer and no listener survive. */
  function StopTimers(c: Conn): Conn {
    var d := ClearTimers(c.(closed := true));
    d.(timers := d.timers - {d.retryTimer}, listening := false)
  }

  /** The second half of `close()`: detach, close and forget the socket. */
  function DropSocket(c: Conn): Conn
    requires c.socket.Some? ==> c.socket.value < |c.sockets|
  {
    if c.socket.None? then c else
    var p := c.socket.value;
    CloseSocket(c.(sockets := c.sockets[p := c.sockets[p].(hearsClose := false)]), p).(socket := None)
  }

  /** `close()`, called by the user. */
  function UserClose(c: Conn): Conn
    requires c.socket.Some? ==> c.socket.value < |c.sockets|
  {
    DropSocket(StopTimers(c))
  }

  function MaybeClose(c: Conn, closes: bool): Conn
    requires c.socket.Some? ==> c.socket.value < |c.sockets|
  {
    if closes then UserClose(c) else c
  }

  /** `onopen`: the backoff starts over and so does the heartbeat. */
  function Welcome(c: Conn, i: nat): Conn {
    StartHeartbeat(c.(attempt := 0, waits := [], heard := c.now, silent := false), i)
  }

  /** Socket `i` becomes OPEN; `closes`: the user's onOpen calls `close()`. */
  function OnOpen(c: Conn, i: nat, closes: bool): Conn
    requires i < |c.sockets| && (c.socket.Some? ==> c.socket.value < |c.sockets|)
  {
    var d := c.(sockets := c.sockets[i := c.sockets[i].(net := Open)]);
    if !d.sockets[i].hears then d else
    MaybeClose(Welcome(d, i), closes)
  }

  /** Socket `i` delivers a message, a pong or one for the user, who may then call `close()`. */
  function OnMessage(c: Conn, i: nat, pong: bool, closes: bool): Conn
    requires i < |c.sockets| && (c.socket.Some? ==> c.socket.value < |c.sockets|)
  {
    if !c.sockets[i].hears then c
    else if pong then c.(awaitingPong := false, timers := c.timers - {c.pongTimer}, heard := c.now, silent := false)
    else MaybeClose(c, closes)
  }

  /** Socket `i` becomes CLOSED; `veto`: the `reconnect` option declines this close code. */
  function OnClose(c: Conn, i: nat, veto: bool, closes: bool): Conn
    requires i < |c.sockets| && (c.socket.Some? ==> c.socket.value < |c.sockets|)
  {
    var d := c.(sockets := c.sockets[i := c.sockets[i].(net := Closed)]);
    if !d.sockets[i].hearsClose then d else
    var e := MaybeClose(ClearTimers(d), closes);
    if e.closed then e
    else if veto then e.(vetoed := true, timers := e.timers - {e.retryTimer})
    else ScheduleReconnect(e)
  }

  /** The ping timer of socket `i` fires. */
  function PingTick(c: Conn, i: nat): Conn
    requires i < |c.sockets|
  {
    if c.closed || !c.sockets[i].net.Open? then c
    else if c.awaitingPong then CloseSocket(c, i)
    else SendPing(c, i)
  }

  /** Timer `id` fires. */
  function OnTimer(c: Conn, id: nat): Conn
    requires id in c.timers && (c.socket.Some? ==> c.socket.value < |c.sockets|)
    requires !c.timers[id].task.Retry? ==> c.timers[id].task.ws < |c.sockets|
  {
    var d := c.(timers := c.timers - {id});
    match c.timers[id].task
    case Retry => OpenSocket(d)
    case Ping(i) => PingTick(d, i)
    case Pong(i) => if d.awaitingPong then CloseSocket(d, i) else d
  }

  function OnVisibility(c: Conn, visible: bool): Conn
    requires c.socket.Some? ==> c.socket.value < |c.sockets|
  {
    if c.closed || c.vetoed || !visible then c
    else if c.socket.None? || !c.sockets[c.socket.value].net.Open?
    then OpenSocket(c.(timers := c.timers - {c.retryTimer}, attempt := 0, waits := []))
    else c
  }

  /** `connectWs`: the variables' initial values, the listener, and the first `open()`. */
  function Connect(now: nat): Conn {
    OpenSocket(Conn(None, false, false, 0, 0, 0, 0, false, [], map[], 0, now, true, now, now, false, [], 0))
  }

  // ---------- Runs ----------

  datatype Event =
    | Opened(i: nat, closes: bool)
    | Message(i: nat, pong: bool, closes: bool)
    | Ending(i: nat)                              // the server starts the closing handshake
    | Ended(i: nat, veto: bool, closes: bool)
    | Fire(id: nat)
    | Wait(ms: nat)
    | Visibility(visible: bool)
    | Close

  /**
   When the browser may deliver an event: opens and messages only in the matching state,
   one close per socket, timers not before they are due but as late as it likes (a page in
   the background may be suspended), visibility only while listening.
   */
  predicate Enabled(c: Conn, ev: Event) {
    match ev
    case Opened(i, _) => i < |c.sockets| && c.sockets[i].net.Connecting?
    case Message(i, _, _) => i < |c.sockets| && c.sockets[i].net.Open?
    case Ending(i) => i < |c.sockets| && c.sockets[i].net.Open?
    case Ended(i, _, _) => i < |c.sockets| && !c.sockets[i].net.Closed?
    case Fire(id) => id in c.timers && c.timers[id].due <= c.now
    case Wait(_) => true
    case Visibility(_) => c.listening
    case Close => true
  }

  /** The parts of a connection point at sockets that exist. */
  ghost predicate Shaped(c: Conn) {
    && (c.socket.Some? ==> c.socket.value < |c.sockets|)
    && forall id :: id in c.timers && !c.timers[id].task.Retry? ==> c.timers[id].task.ws < |c.sockets|
  }

  /** One event; what the browser does not deliver changes nothing. */
  ghost function Step(c: Conn, ev: Event): Conn {
    if !Shaped(c) || !Enabled(c, ev) then c else
    match ev
    case Opened(i, closes) => OnOpen(c, i, closes)
    case Message(i, pong, closes) => OnMessage(c, i, pong, closes)
    case Ending(i) => CloseSocket(c, i)
    case Ended(i, veto, closes) => OnClose(c, i, veto, closes)
    case Fire(id) => OnTimer(c, id)
    case Wait(ms) => c.(now := c.now + ms)
    case Visibility(visible) => OnVisibility(c, visible)
    case Close => UserClose(c)
  }

  /** The connection after a run of events from `c`. */
  ghost function Run(c: Conn, evs: seq<Event>): Conn
    decreases |evs|
  {
    if |evs| == 0 then c else Step(Run(c, evs[..|evs| - 1]), evs[|evs| - 1])
  }

  // ---------- The invariant ----------

  /** The index of the newest socket. */
  function Last(c: Conn): nat
    requires |c.sockets| > 0
  {
    |c.sockets| - 1
  }

  ghost predicate Pending(c: Conn, id: nat, task: Task) {
    id in c.timers && c.timers[id].task == task
  }

  /** Every pending timer is the one its variable names, and every variable names a timer of its kind. */
  ghost predicate TimersOk(c: Conn) {
    && c.retryTimer <= c.lastTimer && c.pingTimer <= c.lastTimer && c.pongTimer <= c.lastTimer
    && (forall id :: id in c.timers ==>
          && 0 < id <= c.lastTimer && c.timers[id].due <= c.now + PING_INTERVAL
          && match c.timers[id].task
             case Retry => id == c.retryTimer && c.timers[id].due <= c.now + MAX_DELAY
             case Ping(i) => id == c.pingTimer && i < |c.sockets|
             case Pong(i) => id == c.pongTimer && i < |c.sockets| && c.awaitingPong)
    && (c.retryTimer in c.timers ==> c.timers[c.retryTimer].task.Retry?)
    && (c.pingTimer in c.timers ==> c.timers[c.pingTimer].task.Ping?)
    && (c.pongTimer in c.timers ==> c.timers[c.pongTimer].task.Pong?)
  }

  /** Only the newest socket can be live; all earlier ones are detached and closing or closed. */
  ghost predicate SocketsOk(c: Conn) {
    && |c.sockets| > 0
    && c.socket == (if c.closed then None else Some(Last(c)))
    && (forall j :: 0 <= j < |c.sockets| - 1 ==> Retired(c.sockets[j]))
    && var s := c.sockets[Last(c)];
       if c.closed then !s.hearsClose && (s.net.Closing? || s.net.Closed?) else s.hears && s.hearsClose
  }

  predicate Retired(s: Socket) {
    !s.hears && !s.hearsClose && (s.net.Closing? || s.net.Closed?)
  }

  /** Which timers go with which phase of the newest socket. */
  ghost predicate PhaseOk(c: Conn)
    requires |c.sockets| > 0
  {
    var s := c.sockets[Last(c)];
    && (c.listening <==> !c.closed)
    && (c.closed || c.vetoed ==> c.timers == map[])
    && (c.vetoed ==> s.net.Closed? || c.closed)
    && (!c.closed && !c.vetoed ==> (s.net.Closed? <==> c.retryTimer in c.timers))
    && (s.net.Closed? && !c.closed ==> c.pingTimer !in c.timers && c.pongTimer !in c.timers)
    && (s.net.Open? ==> BeatOk(c))
  }

  /** The heartbeat of an open socket, however late its timers run. */
  ghost predicate BeatOk(c: Conn)
    requires |c.sockets| > 0
  {
    && Pending(c, c.pingTimer, Ping(Last(c)))
    && c.attempt == 0 && c.heard <= c.now
    && c.silent == c.awaitingPong
    && var due := c.timers[c.pingTimer].due;
       if c.awaitingPong then
         && Pending(c, c.pongTimer, Pong(Last(c)))
         && c.timers[c.pongTimer].due == c.pinged + PONG_TIMEOUT
         && due == c.pinged + PING_INTERVAL
       else due <= c.heard + PING_INTERVAL
  }

  /** The delays are those of the backoff, and a pending retry is due when the last of them is over. */
  ghost predicate WaitsOk(c: Conn) {
    && |c.waits| == c.attempt && (forall k :: 0 <= k < |c.waits| ==> c.waits[k] == Delay(k))
    && (Pending(c, c.retryTimer, Retry) ==>
          |c.waits| > 0 && c.timers[c.retryTimer].due == c.armed + c.waits[|c.waits| - 1])
  }

  ghost predicate Inv(c: Conn) {
    TimersOk(c) && SocketsOk(c) && PhaseOk(c) && WaitsOk(c)
  }

  lemma {:induction false} ConnectOk(now: nat)
    ensures Inv(Connect(now))
  {
  }

  lemma {:induction false} UserCloseKeeps(c: Conn)
    requires TimersOk(c) && SocketsOk(c) && WaitsOk(c)
    ensures Inv(UserClose(c)) && UserClose(c).closed
  {
    assert StopTimers(c).timers == map[] by {
      StopClearsAll(c);
    }
    DropKeeps(StopTimers(c));
  }

  lemma {:induction false} StopClearsAll(c: Conn)
    requires TimersOk(c)
    ensures StopTimers(c).timers == map[]
  {
    var d := ClearTimers(c);
    forall id | id in d.timers ensures id == d.retryTimer {
      assert id in c.timers;
    }
  }

  lemma {:induction false} DropKeeps(c: Conn)
    requires c.timers == map[] && !c.listening && c.closed && WaitsOk(c)
    requires c.retryTimer <= c.lastTimer && c.pingTimer <= c.lastTimer && c.pongTimer <= c.lastTimer
    requires SocketsOk(c) || SocketsOk(c.(closed := false))
    ensures Inv(DropSocket(c)) && DropSocket(c).closed
  {
  }

  lemma {:induction false} OpenSocketKeeps(c: Conn)
    requires TimersOk(c) && SocketsOk(c) && WaitsOk(c)
    requires !c.closed && !c.vetoed && c.listening && c.retryTimer !in c.timers
    ensures Inv(OpenSocket(c)) && |OpenSocket(c).sockets| == |c.sockets| + 1
  {
  }

  lemma {:induction false} OnOpenKeeps(c: Conn, i: nat, closes: bool)
    requires Inv(c) && i < |c.sockets| && c.sockets[i].net.Connecting?
    ensures Inv(OnOpen(c, i, closes))
  {
    assert i == Last(c) && !c.closed;
    var e := Welcome(c.(sockets := c.sockets[i := c.sockets[i].(net := Open)]), i);
    assert Inv(e);
    UserCloseKeeps(e);
  }

  lemma {:induction false} OnMessageKeeps(c: Conn, i: nat, pong: bool, closes: bool)
    requires Inv(c) && i < |c.sockets| && c.sockets[i].net.Open?
    ensures Inv(OnMessage(c, i, pong, closes))
  {
    assert i == Last(c) && !c.closed;
    UserCloseKeeps(c);
  }

  lemma {:induction false} OnCloseKeeps(c: Conn, i: nat, veto: bool, closes: bool)
    requires Inv(c) && i < |c.sockets| && !c.sockets[i].net.Closed?
    ensures Inv(OnClose(c, i, veto, closes))
  {
    if c.sockets[i].hearsClose {
      hide UserClose, ScheduleReconnect, Inv, TimersOk, SocketsOk, WaitsOk;
      CurrentCloses(c, i);
      var e := ClearTimers(c.(sockets := c.sockets[i := c.sockets[i].(net := Closed)]));
      UserCloseKeeps(e);
      ScheduleKeeps(e);
      VetoKeeps(e);
    } else {
      RetiredCloses(c, i);
    }
  }

  /** The current socket has closed: no timer is left, and the connection is ready for a verdict. */
  lemma {:induction false} CurrentCloses(c: Conn, i: nat)
    requires Inv(c) && i < |c.sockets| && !c.sockets[i].net.Closed? && c.sockets[i].hearsClose
    ensures var e := ClearTimers(c.(sockets := c.sockets[i := c.sockets[i].(net := Closed)]));
            && TimersOk(e) && SocketsOk(e) && WaitsOk(e) && e.timers == map[]
            && !e.closed && !e.vetoed && e.listening && e.sockets[Last(e)].net.Closed?
  {
    assert i == Last(c) && !c.closed && !c.vetoed;
    assert forall id :: id in c.timers ==> id == c.pingTimer || id == c.pongTimer;
    assert ClearTimers(c).timers == map[];
  }

  lemma {:induction false} RetiredCloses(c: Conn, i: nat)
    requires Inv(c) && i < |c.sockets| && !c.sockets[i].hearsClose
    ensures Inv(c.(sockets := c.sockets[i := c.sockets[i].(net := Closed)]))
  {
  }

  lemma {:induction false} VetoKeeps(c: Conn)
    requires TimersOk(c) && SocketsOk(c) && WaitsOk(c)
    requires c.timers == map[] && !c.closed && !c.vetoed && c.listening && c.sockets[Last(c)].net.Closed?
    ensures Inv(c.(vetoed := true, timers := c.timers - {c.retryTimer}))
  {
    assert c.timers - {c.retryTimer} == map[];
  }

  lemma {:induction false} ScheduleKeeps(c: Conn)
    requires TimersOk(c) && SocketsOk(c) && WaitsOk(c)
    requires c.timers == map[] && !c.closed && !c.vetoed && c.listening && c.sockets[Last(c)].net.Closed?
    ensures Inv(ScheduleReconnect(c))
  {
  }

  lemma {:induction false} OnTimerKeeps(c: Conn, id: nat)
    requires Inv(c) && id in c.timers && c.timers[id].due <= c.now
    ensures Inv(OnTimer(c, id))
  {
    match c.timers[id].task {
      case Retry => OpenSocketKeeps(c.(timers := c.timers - {id}));
      case Ping(i) => PingTickKeeps(c, id, i);
      case Pong(i) => PongKeeps(c, id, i);
    }
  }

  lemma {:induction false} PingTickKeeps(c: Conn, id: nat, i: nat)
    requires Inv(c) && Pending(c, id, Ping(i)) && c.timers[id].due <= c.now
    ensures Inv(OnTimer(c, id))
  {
    if c.sockets[i].net.Open? {
      assert i == Last(c);
    }
  }

  lemma {:induction false} PongKeeps(c: Conn, id: nat, i: nat)
    requires Inv(c) && Pending(c, id, Pong(i)) && c.timers[id].due <= c.now
    ensures Inv(OnTimer(c, id))
  {
  }

  lemma {:induction false} OnVisibilityKeeps(c: Conn, visible: bool)
    requires Inv(c)
    ensures Inv(OnVisibility(c, visible))
  {
    if !c.closed && !c.vetoed && visible && !c.sockets[Last(c)].net.Open? {
      OpenSocketKeeps(c.(timers := c.timers - {c.retryTimer}, attempt := 0, waits := []));
    }
  }

  lemma {:induction false} EndingKeeps(c: Conn, i: nat)
    requires Inv(c) && i < |c.sockets| && c.sockets[i].net.Open?
    ensures Inv(CloseSocket(c, i))
  {
  }

  lemma {:induction false} WaitKeeps(c: Conn, ms: nat)
    requires Inv(c)
    ensures Inv(c.(now := c.now + ms))
  {
  }

  lemma {:induction false} InvIsShaped(c: Conn)
    requires Inv(c)
    ensures Shaped(c)
  {
  }

  lemma {:induction false} StepKeeps(c: Conn, ev: Event)
    requires Inv(c)
    ensures Shaped(c) && Inv(Step(c, ev))
  {
    hide Inv, Shaped, OnOpen, OnMessage, OnClose, OnTimer, OnVisibility, UserClose;
    InvIsShaped(c);
    if Enabled(c, ev) {
      match ev {
        case Opened(i, closes) => OnOpenKeeps(c, i, closes);
        case Message(i, pong, closes) => OnMessageKeeps(c, i, pong, closes);
        case Ending(i) => EndingKeeps(c, i);
        case Ended(i, veto, closes) => OnCloseKeeps(c, i, veto, closes);
        case Fire(id) => OnTimerKeeps(c, id);
        case Wait(ms) => WaitKeeps(c, ms);
        case Visibility(visible) => OnVisibilityKeeps(c, visible);
        case Close => CloseKeepsInv(c);
      }
    }
  }

  lemma {:induction false} CloseKeepsInv(c: Conn)
    requires Inv(c)
    ensures Inv(UserClose(c))
  {
    UserCloseKeeps(c);
  }

  // ---------- Theorems over every run ----------

  ghost predicate Reachable(c: Conn) {
    exists t, evs :: c == Run(Connect(t), evs)
  }

  /** The invariant holds throughout every run. */
  lemma {:induction false} RunKeeps(c: Conn, evs: seq<Event>)
    requires Inv(c)
    ensures Inv(Run(c, evs))
    decreases |evs|
  {
    if |evs| == 0 {
    } else {
      RunKeeps(c, evs[..|evs| - 1]);
      StepKeeps(Run(c, evs[..|evs| - 1]), evs[|evs| - 1]);
    }
  }

  lemma {:induction false} ReachableInv(c: Conn)
    requires Reachable(c)
    ensures Inv(c)
  {
    var t, evs :| c == Run(Connect(t), evs);
    ConnectOk(t);
    RunKeeps(Connect(t), evs);
  }

  /** Exactly one retry is pending, and it is due within the longest delay. */
  ghost predicate OneRetryPending(c: Conn) {
    && c.retryTimer in c.timers && c.timers[c.retryTimer].due <= c.now + MAX_DELAY
    && forall id :: id in c.timers && c.timers[id].task.Retry? <==> id == c.retryTimer
  }

  /**
   The connection never gets stuck and never forks: unless it was closed or vetoed, its
   newest socket is either not CLOSED, with its handlers and no retry pending, or CLOSED
   with exactly one retry pending; every earlier socket is detached and closing or closed.
   */
  lemma {:induction false} NeverStuckNeverForked(c: Conn)
    requires Reachable(c) && !c.closed && !c.vetoed
    ensures |c.sockets| > 0 && c.socket == Some(Last(c))
    ensures var s := c.sockets[Last(c)];
            if s.net.Closed? then OneRetryPending(c)
            else s.hears && s.hearsClose && forall id :: id in c.timers ==> !c.timers[id].task.Retry?
    ensures forall j :: 0 <= j < Last(c) ==> Retired(c.sockets[j])
  {
    ReachableInv(c);
  }

  lemma {:induction false} RetryFires(c: Conn)
    requires Inv(c) && !c.closed && !c.vetoed && c.sockets[Last(c)].net.Closed?
    ensures c.retryTimer in c.timers
    ensures c.timers[c.retryTimer].due <= c.now ==>
              Step(c, Fire(c.retryTimer)) == OpenSocket(c.(timers := c.timers - {c.retryTimer}))
  {
  }

  /** When the pending retry fires, a new socket is created. */
  lemma {:induction false} RetryReconnects(c: Conn)
    requires Reachable(c) && !c.closed && !c.vetoed && c.sockets != [] && c.sockets[Last(c)].net.Closed?
    ensures Shaped(c) && c.retryTimer in c.timers
    ensures c.timers[c.retryTimer].due <= c.now ==>
              var c' := Step(c, Fire(c.retryTimer));
              && |c'.sockets| == |c.sockets| + 1 && c'.sockets[Last(c')] == Socket(Connecting, true, true)
              && c'.socket == Some(Last(c')) && c'.retryTimer !in c'.timers
  {
    ReachableInv(c);
    RetryFires(c);
  }

  /** A connection that was up and is lost is retried after one second, whatever was waited before it. */
  lemma {:induction false} LostConnectionRetriesSoon(c: Conn)
    requires Reachable(c) && c.sockets != [] && c.sockets[Last(c)].net.Open?
    ensures var c' := Step(c, Ended(Last(c), false, false));
            OneRetryPending(c') && c'.timers[c'.retryTimer].due == c.now + 1000 && |c'.sockets| == |c.sockets|
  {
    ReachableInv(c);
    OnCloseKeeps(c, Last(c), false, false);
    assert Pow2(0) == 1;
  }

  /**
   Visibility reconnects at once, with the backoff reset and the old socket retired, if and
   only if the page comes to the foreground of a connection that is neither closed nor
   vetoed and whose newest socket is not open.
   */
  lemma {:induction false} ForegroundReconnects(c: Conn, visible: bool)
    requires Reachable(c)
    ensures |c.sockets| > 0
    ensures var c' := Step(c, Visibility(visible));
            if visible && !c.closed && !c.vetoed && !c.sockets[Last(c)].net.Open? then
              && |c'.sockets| == |c.sockets| + 1 && c'.sockets[Last(c')] == Socket(Connecting, true, true)
              && c'.socket == Some(Last(c')) && Retired(c'.sockets[Last(c)])
              && c'.attempt == 0 && c'.retryTimer !in c'.timers
            else c' == c
  {
    ReachableInv(c);
  }

  /** A closed or vetoed connection stays so, and no event ever creates another socket or timer. */
  lemma {:induction false} EndedIsFinal(c: Conn, evs: seq<Event>)
    requires Inv(c) && (c.closed || c.vetoed)
    ensures var r := Run(c, evs);
            && (c.closed ==> r.closed) && (r.closed || r.vetoed)
            && |r.sockets| == |c.sockets| && r.timers == map[]
    decreases |evs|
  {
    if |evs| == 0 {
    } else {
      var before := Run(c, evs[..|evs| - 1]);
      EndedIsFinal(c, evs[..|evs| - 1]);
      RunKeeps(c, evs[..|evs| - 1]);
      StepKeeps(before, evs[|evs| - 1]);
      EndedStep(before, evs[|evs| - 1]);
    }
  }

  lemma {:induction false} EndedStep(c: Conn, ev: Event)
    requires Inv(c) && (c.closed || c.vetoed)
    ensures Shaped(c)
    ensures var r := Step(c, ev);
            (c.closed ==> r.closed) && (c.vetoed ==> r.vetoed) && |r.sockets| == |c.sockets|
  {
    hide OnClose;
    if Enabled(c, ev) {
      match ev {
        case Opened(_, _) =>
        case Ended(i, veto, closes) => EndedEnds(c, i, veto, closes);
        case _ =>
      }
    }
  }

  lemma {:induction false} EndedEnds(c: Conn, i: nat, veto: bool, closes: bool)
    requires Inv(c) && (c.closed || c.vetoed) && Enabled(c, Ended(i, veto, closes))
    ensures OnClose(c, i, veto, closes) == c.(sockets := c.sockets[i := c.sockets[i].(net := Closed)])
  {
    assert !c.sockets[i].hearsClose;
  }

  // ---------- The heartbeat ----------

  /** The browser lets no timer become overdue. */
  ghost predicate OnTime(c: Conn, ev: Event) {
    ev.Wait? ==> forall id :: id in c.timers ==> c.now + ev.ms <= c.timers[id].due
  }

  ghost predicate Punctual(c: Conn, evs: seq<Event>) {
    forall k :: 0 <= k < |evs| ==> OnTime(Run(c, evs[..k]), evs[k])
  }

  /** No timer is overdue. */
  ghost predicate NoneLate(c: Conn) {
    forall id :: id in c.timers ==> c.now <= c.timers[id].due
  }

  /** The newest socket is not an open one whose ping came late. */
  ghost predicate PingedInTime(c: Conn) {
    |c.sockets| > 0 && c.sockets[Last(c)].net.Open? && c.awaitingPong ==> c.pinged <= c.heard + PING_INTERVAL
  }

  lemma {:induction false} CloseIsTimely(c: Conn)
    requires NoneLate(c) && (c.socket.Some? ==> c.socket.value < |c.sockets|)
    ensures NoneLate(UserClose(c))
  {
  }

  lemma {:induction false} NoneLateStep(c: Conn, ev: Event)
    requires Inv(c) && NoneLate(c) && OnTime(c, ev)
    ensures NoneLate(Step(c, ev))
  {
    hide UserClose, BeatOk, SocketsOk;
    if Shaped(c) && Enabled(c, ev) {
      match ev {
        case Opened(i, closes) => OpenedIsTimely(c, i, closes);
        case Message(i, pong, closes) =>
          if !pong {
            CloseIsTimely(c);
          }
        case Ending(_) =>
        case Ended(i, veto, closes) => EndedIsTimely(c, i, veto, closes);
        case Fire(id) =>
          match c.timers[id].task {
            case Retry => OpenIsTimely(c.(timers := c.timers - {id}));
            case Ping(i) => PingIsTimely(c.(timers := c.timers - {id}), i);
            case Pong(_) =>
          }
        case Wait(_) =>
        case Visibility(_) => OpenIsTimely(c.(timers := c.timers - {c.retryTimer}, attempt := 0, waits := []));
        case Close => CloseIsTimely(c);
      }
    }
  }

  lemma {:induction false} OpenIsTimely(c: Conn)
    requires NoneLate(c) && (c.socket.Some? ==> c.socket.value < |c.sockets|)
    ensures NoneLate(OpenSocket(c))
  {
  }

  lemma {:induction false} PingIsTimely(c: Conn, i: nat)
    requires NoneLate(c) && i < |c.sockets|
    ensures NoneLate(PingTick(c, i))
  {
  }

  lemma {:induction false} OpenedIsTimely(c: Conn, i: nat, closes: bool)
    requires NoneLate(c) && i < |c.sockets| && (c.socket.Some? ==> c.socket.value < |c.sockets|)
    ensures NoneLate(OnOpen(c, i, closes))
  {
    hide UserClose;
    var d := c.(sockets := c.sockets[i := c.sockets[i].(net := Open)]);
    CloseIsTimely(Welcome(d, i));
  }

  lemma {:induction false} EndedIsTimely(c: Conn, i: nat, veto: bool, closes: bool)
    requires NoneLate(c) && i < |c.sockets| && (c.socket.Some? ==> c.socket.value < |c.sockets|)
    ensures NoneLate(OnClose(c, i, veto, closes))
  {
    hide UserClose;
    var d := c.(sockets := c.sockets[i := c.sockets[i].(net := Closed)]);
    CloseIsTimely(ClearTimers(d));
  }

  lemma {:induction false} PingedInTimeStep(c: Conn, ev: Event)
    requires Inv(c) && NoneLate(c) && PingedInTime(c)
    ensures PingedInTime(Step(c, ev))
  {
    if Enabled(c, ev) {
      match ev {
        case Opened(i, _) => assert i == Last(c);
        case Message(i, _, _) => assert i == Last(c);
        case Ended(i, _, _) =>
        case Fire(id) => FirePingsInTime(c, id);
        case _ =>
      }
    }
  }

  lemma {:induction false} FirePingsInTime(c: Conn, id: nat)
    requires Inv(c) && NoneLate(c) && PingedInTime(c) && Enabled(c, Fire(id))
    ensures PingedInTime(Step(c, Fire(id)))
  {
    if c.timers[id].task.Ping? && c.sockets[c.timers[id].task.ws].net.Open? {
      assert c.timers[id].task.ws == Last(c);
    }
  }

  lemma {:induction false} TimelyRun(c: Conn, evs: seq<Event>)
    requires Inv(c) && NoneLate(c) && PingedInTime(c) && Punctual(c, evs)
    ensures NoneLate(Run(c, evs)) && PingedInTime(Run(c, evs))
    decreases |evs|
  {
    if |evs| == 0 {
    } else {
      var front := evs[..|evs| - 1];
      assert Punctual(c, front) by {
        forall k | 0 <= k < |front| ensures OnTime(Run(c, front[..k]), front[k]) {
          assert front[..k] == evs[..k];
        }
      }
      TimelyRun(c, front);
      RunKeeps(c, front);
      assert OnTime(Run(c, front), evs[|evs| - 1]);
      NoneLateStep(Run(c, front), evs[|evs| - 1]);
      PingedInTimeStep(Run(c, front), evs[|evs| - 1]);
    }
  }

  /** With timers on time, a socket that stays OPEN never goes more than 30 s without having opened or answered. */
  lemma {:induction false} HeartbeatBound(now: nat, evs: seq<Event>)
    requires Punctual(Connect(now), evs)
    ensures var c := Run(Connect(now), evs);
            |c.sockets| > 0 && (c.sockets[Last(c)].net.Open? ==>
              && c.heard <= c.now <= c.heard + 30_000
              && (!c.silent ==> c.now <= c.heard + 20_000))
  {
    ConnectOk(now);
    RunKeeps(Connect(now), evs);
    TimelyRun(Connect(now), evs);
  }

  /**
   However late timers run, one of them closes an open socket if and only if it belongs to
   the heartbeat and nothing has answered the last ping; 10 s or more have then passed since
   that ping, and exactly 10 s if it is the pong timer running on time.
   */
  lemma {:induction false} HeartbeatClosesOnlySilentSockets(c: Conn, id: nat, i: nat)
    requires Reachable(c) && Enabled(c, Fire(id)) && i < |c.sockets| && c.sockets[i].net.Open?
    ensures var c' := Step(c, Fire(id));
            i < |c'.sockets| && (!c'.sockets[i].net.Open? <==> !c.timers[id].task.Retry? && c.silent)
    ensures !c.timers[id].task.Retry? && c.silent ==> c.now >= c.pinged + 10_000
    ensures c.timers[id].task.Pong? ==> c.silent && c.timers[id].due == c.pinged + 10_000
  {
    ReachableInv(c);
    assert i == Last(c) && !c.closed;
  }

  /**
   When the awaiting branch of the ping timer is taken: exactly if another pending timer is
   overtaken that was due before it.  So it is never taken while timers run in the order they
   are due, be they late or not.
   */
  lemma {:induction false} AwaitingBranchIff(c: Conn, id: nat)
    requires Reachable(c) && id in c.timers && c.timers[id].task.Ping?
    requires c.timers[id].task.ws < |c.sockets| && c.sockets[c.timers[id].task.ws].net.Open?
    ensures !c.closed
    ensures c.awaitingPong <==> exists other :: other in c.timers && c.timers[other].due < c.timers[id].due
  {
    ReachableInv(c);
    assert c.timers[id].task.ws == Last(c);
    if c.awaitingPong {
      assert c.timers[c.pongTimer].due < c.timers[id].due;
    } else {
      assert forall other :: other in c.timers ==> other == id;
    }
  }

  lemma {:induction false} RunOn(c: Conn, ev: Event, next: Conn)
    requires Reachable(c) && Step(c, ev) == next
    ensures Reachable(next)
  {
    var t, evs :| c == Run(Connect(t), evs);
    assert (evs + [ev])[..|evs|] == evs;
    assert Run(Connect(t), evs + [ev]) == next;
  }

  /** Connected at time 0, with the first ping due. */
  function Fresh(now: nat): Conn {
    Conn(Some(0), false, false, 0, 0, 1, 0, false, [Socket(Open, true, true)],
         map[1 := Timer(Ping(0), 20_000)], 1, now, true, 0, 0, false, [], 0)
  }

  /** After the ping, which nothing has answered. */
  function Unanswered(now: nat): Conn {
    Conn(Some(0), false, false, 0, 0, 3, 2, true, [Socket(Open, true, true)],
         map[2 := Timer(Pong(0), 30_000), 3 := Timer(Ping(0), 40_000)], 3, now, true, 0, 20_000, true, [], 0)
  }

  lemma {:induction false} FreshReachable()
    ensures Reachable(Fresh(20_000))
  {
    var c := Connect(0);
    assert Run(c, []) == c;
    assert c.timers - {c.pingTimer} - {c.pongTimer} == map[];
    RunOn(c, Opened(0, false), Fresh(0));
    RunOn(Fresh(0), Wait(20_000), Fresh(20_000));
  }

  lemma {:induction false} UnansweredReachable()
    ensures Reachable(Unanswered(40_000))
  {
    FreshReachable();
    var c := Fresh(20_000);
    assert c.timers - {1} == map[];
    RunOn(c, Fire(1), Unanswered(20_000));
    RunOn(Unanswered(20_000), Wait(20_000), Unanswered(40_000));
  }

  /** A page that is suspended across a ping and its deadline, and then runs the ping timer first, takes the branch. */
  lemma {:induction false} AwaitingBranchReached()
    ensures exists c, id: nat ::
              && Reachable(c) && Enabled(c, Fire(id)) && c.timers[id].task == Ping(0)
              && |c.sockets| > 0 && c.sockets[0].net.Open? && c.awaitingPong
              && Step(c, Fire(id)) == CloseSocket(c.(timers := c.timers - {id}), 0)
  {
    UnansweredReachable();
    var c := Unanswered(40_000);
    assert 3 in c.timers && Enabled(c, Fire(3)) && Shaped(c);
    assert Step(c, Fire(3)) == CloseSocket(c.(timers := c.timers - {3}), 0);
  }

  /** At most one ping timer and at most one pong timer are ever pending. */
  lemma {:induction false} OneTimerOfEachKind(c: Conn, a: nat, b: nat)
    requires Reachable(c) && a in c.timers && b in c.timers
    requires (c.timers[a].task.Ping? && c.timers[b].task.Ping?) || (c.timers[a].task.Pong? && c.timers[b].task.Pong?)
             || (c.timers[a].task.Retry? && c.timers[b].task.Retry?)
    ensures a == b
  {
    ReachableInv(c);
  }

  /** A pong calms the heartbeat: nothing it has pending can close the socket before the next ping. */
  lemma {:induction false} PongCalms(c: Conn, closes: bool)
    requires Reachable(c) && c.sockets != [] && c.sockets[Last(c)].net.Open?
    ensures var c' := Step(c, Message(Last(c), true, closes));
            && c'.sockets == c.sockets && c'.heard == c.now && !c'.silent && c'.pinged == c.pinged
            && forall id :: id in c'.timers <==> id in c.timers && !c.timers[id].task.Pong?
  {
    ReachableInv(c);
  }

  /** The ping timer pings an open socket that has answered, expects an answer in 10 s and fires again after 20 s. */
  lemma {:induction false} PingArms(c: Conn, id: nat)
    requires Reachable(c) && Enabled(c, Fire(id)) && c.sockets != [] && c.sockets[Last(c)].net.Open? && !c.silent
    requires c.timers[id].task.Ping?
    ensures var c' := Step(c, Fire(id));
            && c'.sockets == c.sockets && c'.pinged == c.now && c'.silent && c'.pingTimer != c'.pongTimer
            && c'.timers == map[c'.pongTimer := Timer(Pong(Last(c)), c.now + 10_000),
                                c'.pingTimer := Timer(Ping(Last(c)), c.now + 20_000)]
  {
    ReachableInv(c);
    OnlyPingPending(c, id);
    hide Run, Inv;
    PingSends(c, id);
  }

  lemma {:induction false} OnlyPingPending(c: Conn, id: nat)
    requires Inv(c) && id in c.timers && c.timers[id].task.Ping? && c.sockets[Last(c)].net.Open? && !c.silent
    ensures !c.closed && !c.awaitingPong && c.timers[id].task == Ping(Last(c)) && c.timers - {id} == map[] && Shaped(c)
  {
    assert forall other :: other in c.timers ==> other == id;
  }

  lemma {:induction false} PingSends(c: Conn, id: nat)
    requires Shaped(c) && |c.sockets| > 0 && Enabled(c, Fire(id)) && c.timers[id].task == Ping(Last(c))
    requires c.sockets[Last(c)].net.Open? && !c.closed && !c.awaitingPong && c.timers - {id} == map[]
    ensures var c' := Step(c, Fire(id));
            && c'.sockets == c.sockets && c'.pinged == c.now && c'.silent && c'.pingTimer != c'.pongTimer
            && c'.timers == map[c'.pongTimer := Timer(Pong(Last(c)), c.now + 10_000),
                                c'.pingTimer := Timer(Ping(Last(c)), c.now + 20_000)]
  {
    var d := c.(timers := c.timers - {id});
    assert Step(c, Fire(id)) == SendPing(d, Last(c));
  }

  /** The user calls `close()`, from outside or in a callback: on opening, on a message but no pong, on closing. */
  ghost predicate UserCloses(c: Conn, ev: Event) {
    Enabled(c, ev) &&
    match ev
    case Opened(i, closes) => closes && c.sockets[i].hears
    case Message(i, pong, closes) => closes && !pong && c.sockets[i].hears
    case Ended(i, _, closes) => closes && c.sockets[i].hearsClose
    case Close => true
    case _ => false
  }

  /** `close()` ends everything: no timer, listener or current socket is left, and the last one is not heard. */
  lemma {:induction false} CloseEndsAll(c: Conn, ev: Event)
    requires Reachable(c) && UserCloses(c, ev)
    ensures |c.sockets| > 0
    ensures var c' := Step(c, ev);
            && c'.closed && c'.socket.None? && c'.timers == map[] && !c'.listening && |c'.sockets| == |c.sockets|
            && var s := c'.sockets[Last(c)]; !s.hearsClose && (s.net.Closing? || s.net.Closed?)
  {
    ReachableInv(c);
    StepKeeps(c, ev);
    CallbackCloses(c, ev);
    hide Step, TimersOk, WaitsOk, BeatOk, Run;
  }

  lemma {:induction false} CallbackCloses(c: Conn, ev: Event)
    requires Inv(c) && UserCloses(c, ev)
    ensures Step(c, ev).closed && |Step(c, ev).sockets| == |c.sockets|
  {
    InvIsShaped(c);
  }

  // ---------- Backoff ----------

  /**
   How many retries were scheduled since the last reset, told from the events alone: an open
   of the current socket and a return to the foreground start over, and each close that is
   neither vetoed nor the user's adds one.
   */
  ghost function NextFailures(c: Conn, ev: Event, before: nat): nat {
    if !Enabled(c, ev) then before else
    match ev
    case Opened(i, _) => if c.sockets[i].hears then 0 else before
    case Visibility(visible) =>
      if visible && !c.closed && !c.vetoed && |c.sockets| > 0 && !c.sockets[Last(c)].net.Open? then 0 else before
    case Ended(i, veto, closes) => if c.sockets[i].hearsClose && !veto && !closes then before + 1 else before
    case _ => before
  }

  ghost function Failures(t: nat, evs: seq<Event>): nat
    decreases |evs|
  {
    if |evs| == 0 then 0 else
    var before := evs[..|evs| - 1];
    NextFailures(Run(Connect(t), before), evs[|evs| - 1], Failures(t, before))
  }

  lemma {:induction false} CloseKeepsAttempt(c: Conn)
    requires c.socket.Some? ==> c.socket.value < |c.sockets|
    ensures UserClose(c).attempt == c.attempt && UserClose(c).closed
  {
  }

  lemma {:induction false} AttemptStep(c: Conn, ev: Event)
    requires Inv(c)
    ensures Step(c, ev).attempt == NextFailures(c, ev, c.attempt)
  {
    hide UserClose;
    if Enabled(c, ev) {
      match ev {
        case Opened(i, _) =>
          CloseKeepsAttempt(Welcome(c.(sockets := c.sockets[i := c.sockets[i].(net := Open)]), i));
        case Message(_, _, _) => CloseKeepsAttempt(c);
        case Close => CloseKeepsAttempt(c);
        case Ended(i, veto, closes) => AttemptAtClose(c, i, veto, closes);
        case _ =>
      }
    }
  }

  lemma {:induction false} AttemptAtClose(c: Conn, i: nat, veto: bool, closes: bool)
    requires Inv(c) && i < |c.sockets| && !c.sockets[i].net.Closed?
    ensures OnClose(c, i, veto, closes).attempt ==
              if c.sockets[i].hearsClose && !veto && !closes then c.attempt + 1 else c.attempt
  {
    hide UserClose;
    if c.sockets[i].hearsClose {
      CurrentCloses(c, i);
      hide Inv;
      CloseKeepsAttempt(ClearTimers(c.(sockets := c.sockets[i := c.sockets[i].(net := Closed)])));
    }
  }

  lemma {:induction false} AttemptsAreFailures(t: nat, evs: seq<Event>)
    ensures Inv(Run(Connect(t), evs)) && Run(Connect(t), evs).attempt == Failures(t, evs)
    decreases |evs|
  {
    ConnectOk(t);
    if |evs| == 0 {
    } else {
      hide Inv, Step;
      var before := evs[..|evs| - 1];
      AttemptsAreFailures(t, before);
      AttemptStep(Run(Connect(t), before), evs[|evs| - 1]);
      RunKeeps(Connect(t), evs);
    }
  }

  /**
   What a close event of the current socket leads to, after every run: the end if the user's
   handler calls `close()`, the end too if the code is vetoed, and else one retry, due exactly
   min(1000 * 2^k, 10000) ms later, with k the retries since the last reset.
   */
  lemma {:induction false} CloseVerdict(t: nat, evs: seq<Event>, i: nat, veto: bool, closes: bool)
    requires var c := Run(Connect(t), evs); Enabled(c, Ended(i, veto, closes)) && c.sockets[i].hearsClose
    ensures var c := Run(Connect(t), evs);
            var c' := Step(c, Ended(i, veto, closes));
            && |c'.sockets| == |c.sockets|
            && if closes then c'.closed && c'.timers == map[]
               else if veto then c'.vetoed && !c'.closed && c'.timers == map[]
               else !c'.vetoed && !c'.closed && c'.timers ==
                    map[c'.retryTimer := Timer(Retry, c.now + Min(1000 * Pow2(Failures(t, evs)), 10_000))]
  {
    AttemptsAreFailures(t, evs);
    var c := Run(Connect(t), evs);
    CurrentCloses(c, i);
    hide Run;
    VerdictOf(c, i, veto, closes);
  }

  lemma {:induction false} VerdictOf(c: Conn, i: nat, veto: bool, closes: bool)
    requires Inv(c) && Enabled(c, Ended(i, veto, closes)) && c.sockets[i].hearsClose
    ensures var c' := Step(c, Ended(i, veto, closes));
            && |c'.sockets| == |c.sockets|
            && if closes then c'.closed && c'.timers == map[]
               else if veto then c'.vetoed && !c'.closed && c'.timers == map[]
               else !c'.vetoed && !c'.closed && c'.timers ==
                    map[c'.retryTimer := Timer(Retry, c.now + Min(1000 * Pow2(c.attempt), 10_000))]
  {
    hide Inv;
    StepKeeps(c, Ended(i, veto, closes));
    CurrentCloses(c, i);
    var e := ClearTimers(c.(sockets := c.sockets[i := c.sockets[i].(net := Closed)]));
    assert e.timers - {e.retryTimer} == map[];
    if closes {
      assert StopTimers(e).timers == map[] by {
        assert e.timers - {e.pingTimer} - {e.pongTimer} - {e.retryTimer} == map[];
      }
    }
  }

  /** However late it is looked at, a pending retry is due when the delay scheduled last is over. */
  lemma {:induction false} RetryDueAfterDelay(c: Conn)
    requires Reachable(c) && Pending(c, c.retryTimer, Retry)
    ensures |c.waits| > 0 && c.timers[c.retryTimer].due == c.armed + c.waits[|c.waits| - 1]
  {
    ReachableInv(c);
  }

  lemma {:induction false} Pow2Grows(k: nat)
    ensures Pow2(k) >= k + 1
    ensures k >= 4 ==> Pow2(k) >= 16
  {
    if k == 0 {
    } else {
      Pow2Grows(k - 1);
    }
    if k == 4 {
      assert Pow2(2) == 4 && Pow2(3) == 8 && Pow2(4) == 16;
    }
  }

  function Sum(waits: seq<nat>): nat {
    if |waits| == 0 then 0 else Sum(waits[..|waits| - 1]) + waits[|waits| - 1]
  }

  /** The total waiting time of `k` retries in a row. */
  function TotalWait(k: nat): nat {
    if k <= 4 then 1000 * (Pow2(k) - 1) else 15_000 + 10_000 * (k - 4)
  }

  lemma {:induction false} SumOfDelays(waits: seq<nat>)
    requires forall k :: 0 <= k < |waits| ==> waits[k] == Delay(k)
    ensures Sum(waits) == TotalWait(|waits|)
  {
    var n := |waits|;
    if n == 0 {
    } else {
      SumOfDelays(waits[..n - 1]);
      Pow2Grows(n - 1);
      assert Pow2(1) == 2 && Pow2(2) == 4 && Pow2(3) == 8 && Pow2(4) == 16;
    }
  }

  /**
   The backoff in closed form: since the last reset (an open, or a return to the
   foreground) retry number `k` waited min(1000 * 2^k, 10000) ms; the delays never decrease
   and lie between 1 s and 10 s, and together they are `TotalWait`.
   */
  lemma {:induction false} Backoff(c: Conn)
    requires Reachable(c)
    ensures |c.waits| == c.attempt
    ensures forall k :: 0 <= k < c.attempt ==> c.waits[k] == Min(1000 * Pow2(k), 10_000) && 1000 <= c.waits[k] <= 10_000
    ensures forall j, k :: 0 <= j <= k < c.attempt ==> c.waits[j] <= c.waits[k]
    ensures Sum(c.waits) == TotalWait(c.attempt)
  {
    ReachableInv(c);
    SumOfDelays(c.waits);
    forall k | 0 <= k < c.attempt ensures 1000 <= c.waits[k] <= 10_000 {
      Pow2Grows(k);
    }
    forall j, k | 0 <= j <= k < c.attempt ensures c.waits[j] <= c.waits[k] {
      Pow2Monotone(j, k);
    }
  }

  lemma {:induction false} Pow2Monotone(j: nat, k: nat)
    requires j <= k
    ensures Pow2(j) <= Pow2(k)
    decreases k - j
  {
    if j < k {
      Pow2Monotone(j, k - 1);
    }
  }
}
