/**
 The daemon life cycle: `--daemon`, `--stop`, `--status`, the detached child and the
 processes it spawns, interleaving over one advisory lock, one PID file and one
 readiness pipe.  Every system call is one step; any process may be killed between two
 steps, and the order of steps is arbitrary.
 */
module Daemon {
  import opened Wrappers

  // ---------- State ----------

  /** What reading the PID file yields.  `Garbled` covers a file that was truncated but not yet written. */
  datatype PidFile = Absent | Garbled | Names(pid: nat)

  /** What a start, stop or status call reports to its user. */
  datatype Outcome =
    | Started(pid: nat)
    | AlreadyRunning(pid: nat)  // 0: "starting up"
    | NotReady(pid: nat)        // the child that did not signal
    | Stopped(pid: nat)
    | NotRunning
    | NoPid                     // a stop that found the lock held but no pid: also "not running"
    | Running(pid: nat)         // 0: "pid unknown"
    | Failed                    // an I/O error or a timeout

  datatype Role = Start | Stop | Status | Child(parent: nat) | Grandchild(parent: nat)

  /** A zombie keeps its pid number until somebody waits for it. */
  datatype Life = Alive | Zombie | Reaped

  /** Opening and probing the lock, the same for start, stop and status. */
  datatype ProbePoint = Open | Probe | Drop(busy: bool) | BusyRead | Remove

  /** A start that owns the lock: spawn the child and wait for its readiness byte. */
  datatype StartPoint = Setup | Spawn | Await | Kill | Reap

  /** A stop that found the lock held: signal, then poll for the lock; `hard` once SIGKILL was sent. */
  datatype StopPoint =
    | Terminate
    | PollOpen(hard: bool)
    | PollProbe(hard: bool)
    | PollDrop(hard: bool, busy: bool)
    | ForceKill

  /** The daemon child, from its first statement to the release of the lock. */
  datatype ServePoint = Prepare | Load | Listen | Truncate | Write | Signal | ClosePipe | Serve | Release

  /** The program counter: the system call a process makes next. */
  datatype Pc =
    | Probing(probe: ProbePoint)
    | Starting(start: StartPoint)
    | Stopping(stop: StopPoint, pid: nat)
    | Owned(pid: nat)                // reading the PID file, to remove it if it names `pid`
    | Unlink(pid: nat)               // it does: removing it
    | Leave(outcome: Outcome)        // closing the lock on the way out
    | Done(outcome: Outcome)
    | Serving(serve: ServePoint)
    | Exit                           // the child, after it closed the lock
    | Forked                         // a copy the daemon forked, before it runs another program
    | Idle                           // a process spawned by the daemon, running its own program

  /**
   `fd` is the process's descriptor for the lock file, naming an open file description.
   `child` is the process a start has spawned.  `bound`, `wrote` and `signalled` record
   that a child bound its listener, wrote its PID and wrote the readiness byte, `sawBusy`
   that a call's first probe found the lock held, and `saw` what the PID file held when a call
   read it after that.  `termed` and `killed` are the pids last sent SIGTERM and SIGKILL, and
   `erred` says that a system call failed without which the process cannot do its work.
   */
  datatype Proc = Proc(
    role: Role, pid: nat, life: Life, pc: Pc, fd: Option<nat>, cloexec: bool,
    child: Option<nat>, bound: bool, wrote: bool, signalled: bool, sawBusy: bool,
    saw: PidFile, termed: Option<nat>, killed: Option<nat>, erred: bool)

  /**
   `descs[d]` is the process that opened description `d`; `owner` is the description
   holding the lock.  A description is shared by every process whose `fd` names it.
   */
  datatype Host = Host(procs: seq<Proc>, pidFile: PidFile, descs: seq<nat>, owner: Option<nat>)

  // ---------- The programs ----------

  datatype Call = Nothing | OpenLock | TakeLock | CloseLock | Fork | Wait | Exec | SendSignal(pid: nat, hard: bool)

  /** One step of a program: where it continues, the PID file afterwards, and the kernel call made. */
  datatype Move = Move(pc: Pc, file: PidFile, call: Call)

  function ProbeProgram(role: Role, at: ProbePoint, file: PidFile, free: bool, ok: bool): Move {
    match at
    case Open =>
      if ok then Move(Probing(Probe), file, OpenLock) else Move(Done(Failed), file, Nothing)
    case Probe =>
      if !ok then Move(Probing(Drop(false)), file, Nothing)
      else if free then Move(Probing(Remove), file, TakeLock)
      else Move(Probing(Drop(true)), file, Nothing)
    case Drop(busy) =>
      Move(if busy then Probing(BusyRead) else Done(Failed), file, CloseLock)
    case BusyRead =>
      Move(AfterBusy(role, file, ok), file, Nothing)
    case Remove =>
      if !ok then Move(Leave(Failed), file, Nothing)
      else Move(if role.Start? then Starting(Setup) else Leave(NotRunning), Absent, Nothing)
  }

  /** The PID file gives a pid; 0 counts as garbled. */
  predicate NamesPid(file: PidFile) { file.Names? && file.pid > 0 }

  /**
   What a call does once it knows the lock is held and has read the PID file (`ok`: without
   an I/O error).  To a stop, a file without a pid means "not running".
   */
  function AfterBusy(role: Role, file: PidFile, ok: bool): Pc {
    var pid := if ok && NamesPid(file) then file.pid else 0;
    match role
    case Start => Done(AlreadyRunning(pid))
    case Stop => if pid > 0 then Stopping(Terminate, pid) else if ok then Done(NoPid) else Done(Failed)
    case _ => Done(Running(pid))
  }

  function StartProgram(at: StartPoint, file: PidFile, kid: Option<Proc>, ok: bool): Move {
    match at
    case Setup =>
      Move(if ok then Starting(Spawn) else Leave(Failed), file, Nothing)
    case Spawn =>
      if ok then Move(Starting(Await), file, Fork) else Move(Leave(Failed), file, Nothing)
    case Await =>
      // the deadline may pass although the byte is already in the pipe
      if ok && kid.Some? && kid.value.signalled
      then Move(Leave(Started(kid.value.pid)), file, Nothing)
      else Move(Starting(Kill), file, Nothing)
    case Kill =>
      // the child dies by a later `Die` event
      Move(Starting(Reap), file, if kid.Some? then SendSignal(kid.value.pid, true) else Nothing)
    case Reap =>
      if kid.Some? && kid.value.life.Zombie?
      then Move(Owned(kid.value.pid), file, Wait)
      else Move(Starting(Reap), file, Nothing)  // still blocked
  }

  /** Where `removePIDFileIfOwned` returns to. */
  function AfterOwned(role: Role, pid: nat, ok: bool): Pc {
    match role
    case Start => Leave(if ok then NotReady(pid) else Failed)
    case Stop => Leave(if ok then Stopped(pid) else Failed)
    case _ => Serving(Release)  // the child only logs the error
  }

  function StopProgram(at: StopPoint, pid: nat, file: PidFile, free: bool, ok: bool): Move {
    match at
    case Terminate =>
      // whoever has that pid may then begin its clean-up, or not
      if ok then Move(Stopping(PollOpen(false), pid), file, SendSignal(pid, false))
      else Move(Done(Failed), file, Nothing)
    case PollOpen(hard) =>
      if ok then Move(Stopping(PollProbe(hard), pid), file, OpenLock)
      else Move(Done(Failed), file, Nothing)
    case PollProbe(hard) =>
      if !ok then Move(Stopping(PollDrop(hard, false), pid), file, Nothing)
      else if free then Move(Owned(pid), file, TakeLock)
      else Move(Stopping(PollDrop(hard, true), pid), file, Nothing)
    case PollDrop(hard, busy) =>
      Move(if !busy then Done(Failed)
           else if ok then Stopping(PollOpen(hard), pid)
           else if hard then Done(Failed)
           else Stopping(ForceKill, pid), file, CloseLock)
    case ForceKill =>
      if ok then Move(Stopping(PollOpen(true), pid), file, SendSignal(pid, true))
      else Move(Done(Failed), file, Nothing)
  }

  function ServeProgram(pid: nat, at: ServePoint, file: PidFile, ok: bool): Move {
    match at
    case Prepare =>
      if ok then Move(Serving(Load), file, Nothing)  // the descriptor is close-on-exec from here on
      else Move(Exit, file, CloseLock)
    case Release =>
      Move(Exit, file, CloseLock)
    case _ =>
      // an error, or the end of serving, leads to the clean-up of the PID file
      if !ok || at.Serve? then Move(Owned(pid), file, Nothing)
      else match at
           case Load => Move(Serving(Listen), file, Nothing)
           case Listen => Move(Serving(Truncate), file, Nothing)
           case Truncate => Move(Serving(Write), Garbled, Nothing)
           case Write => Move(Serving(Signal), Names(pid), Nothing)
           case Signal => Move(Serving(ClosePipe), file, Nothing)
           case _ => Move(Serving(Serve), file, Nothing)
  }

  /**
   The next step of process `me`.  `ok` resolves what the program does not control:
   false is an I/O error, a passed deadline or a closed pipe.  `free` says that the lock
   has no owner, and `kid` is the process this one spawned.
   */
  function Program(me: Proc, file: PidFile, free: bool, kid: Option<Proc>, ok: bool): Move {
    match me.pc
    case Probing(at) => ProbeProgram(me.role, at, file, free, ok)
    case Starting(at) => StartProgram(at, file, kid, ok)
    case Stopping(at, pid) => StopProgram(at, pid, file, free, ok)
    case Owned(pid) =>
      Move(if ok && file == Names(pid) then Unlink(pid) else AfterOwned(me.role, pid, ok), file, Nothing)
    case Unlink(pid) =>
      Move(AfterOwned(me.role, pid, ok), if ok then Absent else file, Nothing)
    case Leave(outcome) => Move(Done(outcome), file, CloseLock)
    case Serving(at) => ServeProgram(me.pid, at, file, ok)
    case Forked => Move(Idle, file, Exec)
    case _ => Move(me.pc, file, Nothing)  // Done, Exit, Idle
  }

  predicate IsCall(role: Role) {
    role.Start? || role.Stop? || role.Status?
  }

  /** Program points at which a call that fails, or the last deadline that passes, thwarts the process. */
  predicate Fatal(role: Role, pc: Pc) {
    match pc
    case Probing(at) => if at.BusyRead? then role.Stop? else !at.Drop?
    case Starting(at) => at.Setup? || at.Spawn?
    case Stopping(at, _) => at.PollDrop? ==> at.hard && at.busy
    case Owned(_) => IsCall(role)
    case Unlink(_) => IsCall(role)
    case Serving(at) => !at.Serve? && !at.Release?
    case _ => false
  }

  /** The caller after a step it made with `file` as the PID file; what happened in it leaves its mark on it. */
  function Advance(me: Proc, m: Move, file: PidFile, ok: bool): Proc {
    me.(pc := m.pc,
        cloexec := me.cloexec || (me.pc == Serving(Prepare) && ok),
        bound := me.bound || (me.pc == Serving(Listen) && ok),
        wrote := me.wrote || (me.pc == Serving(Write) && m.file == Names(me.pid)),
        signalled := me.signalled || (me.pc == Serving(Signal) && ok),
        sawBusy := me.sawBusy || m.pc == Probing(Drop(true)),
        saw := if me.pc == Probing(BusyRead) then file else me.saw,
        termed := if m.call.SendSignal? && !m.call.hard then Some(m.call.pid) else me.termed,
        killed := if m.call.SendSignal? && m.call.hard then Some(m.call.pid) else me.killed,
        erred := me.erred || (!ok && Fatal(me.role, me.pc)))
  }

  // ---------- The kernel ----------

  /** Some process other than `p` has a descriptor for description `d`. */
  ghost predicate HeldBeside(procs: seq<Proc>, p: nat, d: Option<nat>) {
    exists q :: 0 <= q < |procs| && q != p && procs[q].fd == d
  }

  /** The lock after `p` closes `fd`: released exactly when no other descriptor is left. */
  ghost function OwnerAfterClose(h: Host, p: nat, fd: Option<nat>): Option<nat> {
    if fd.Some? && fd == h.owner && !HeldBeside(h.procs, p, fd) then None else h.owner
  }

  ghost predicate PidFree(h: Host, pid: nat) {
    pid > 0 && forall q :: 0 <= q < |h.procs| && !h.procs[q].life.Reaped? ==> h.procs[q].pid != pid
  }

  function NewProc(role: Role, pid: nat, pc: Pc, fd: Option<nat>): Proc {
    Proc(role, pid, Alive, pc, fd, false, None, false, false, false, false, Absent, None, None, false)
  }

  function Kid(h: Host, p: nat): Option<Proc>
    requires p < |h.procs|
  {
    var c := h.procs[p].child;
    if c.Some? && c.value < |h.procs| then Some(h.procs[c.value]) else None
  }

  /** Carries out one move of process `p`, which went `ok`; `pid` is the number a forked process gets. */
  ghost function Perform(h: Host, p: nat, m: Move, ok: bool, pid: nat): Host
    requires p < |h.procs|
  {
    var me := Advance(h.procs[p], m, h.pidFile, ok);
    match m.call
    case Nothing => h.(procs := h.procs[p := me], pidFile := m.file)
    case SendSignal(_, _) => h.(procs := h.procs[p := me])
    case OpenLock =>
      h.(procs := h.procs[p := me.(fd := Some(|h.descs|))], descs := h.descs + [p])
    case TakeLock =>
      h.(procs := h.procs[p := me], owner := me.fd)
    case CloseLock =>
      h.(procs := h.procs[p := me.(fd := None)], owner := OwnerAfterClose(h, p, me.fd))
    case Fork =>
      if !PidFree(h, pid) then h else
      var kid := NewProc(Child(p), pid, Serving(Prepare), me.fd);
      h.(procs := h.procs[p := me.(child := Some(|h.procs|))] + [kid])
    case Wait =>
      var c := me.child;
      if c.None? || c.value >= |h.procs| || c.value == p then h else
      h.(procs := h.procs[p := me][c.value := h.procs[c.value].(life := Reaped)])
    case Exec =>
      // exec closes a close-on-exec descriptor; any other stays open
      if !me.cloexec then h.(procs := h.procs[p := me]) else
      h.(procs := h.procs[p := me.(fd := None)], owner := OwnerAfterClose(h, p, me.fd))
  }

  datatype Event =
    | Launch(role: Role, pid: nat)      // the user runs --daemon, --stop or --status
    | Act(p: nat, ok: bool, pid: nat)   // process p makes its next system call
    | Die(p: nat)                       // process p exits or is killed
    | Collect(p: nat)                   // init, or the user's shell, reaps p
    | SpawnOther(p: nat, pid: nat)      // daemon p forks, to run tmux or another command

  ghost predicate Enabled(h: Host, ev: Event) {
    match ev
    case Launch(role, pid) => IsCall(role) && PidFree(h, pid)
    case Act(p, _, _) => p < |h.procs| && h.procs[p].life.Alive?
    case Die(p) => p < |h.procs| && h.procs[p].life.Alive?
    case Collect(p) =>
      && p < |h.procs| && h.procs[p].life.Zombie?
      && (h.procs[p].role.Child? ==>
            h.procs[p].role.parent < |h.procs| && !h.procs[h.procs[p].role.parent].life.Alive?)
    case SpawnOther(p, pid) =>
      && p < |h.procs| && h.procs[p].life.Alive? && h.procs[p].role.Child?
      && Spawning(h.procs[p].pc) && PidFree(h, pid)
  }

  /** Start-up asks tmux about its sessions, and request handlers may outlive the server itself. */
  predicate Spawning(pc: Pc) {
    match pc
    case Serving(at) => at.Load? || at.Serve? || at.Release?
    case Owned(_) => true
    case Unlink(_) => true
    case Exit => true
    case _ => false
  }

  /** The copy a fork makes of daemon `p`: it shares the lock's description until it execs. */
  function CopyOf(p: nat, me: Proc, pid: nat): Proc {
    NewProc(Grandchild(p), pid, if me.fd.Some? then Forked else Idle, me.fd).(cloexec := me.cloexec)
  }

  /** The host after one event; an event that is not enabled changes nothing. */
  ghost function Apply(h: Host, ev: Event): Host {
    if !Enabled(h, ev) then h else
    match ev
    case Launch(role, pid) => h.(procs := h.procs + [NewProc(role, pid, Probing(Open), None)])
    case Act(p, ok, pid) => Perform(h, p, Program(h.procs[p], h.pidFile, h.owner.None?, Kid(h, p), ok), ok, pid)
    case Die(p) =>
      h.(procs := h.procs[p := h.procs[p].(life := Zombie, fd := None)],
         owner := OwnerAfterClose(h, p, h.procs[p].fd))
    case Collect(p) => h.(procs := h.procs[p := h.procs[p].(life := Reaped)])
    case SpawnOther(p, pid) => h.(procs := h.procs + [CopyOf(p, h.procs[p], pid)])
  }

  ghost function Run(h: Host, evs: seq<Event>): Host
    decreases |evs|
  {
    if evs == [] then h else Apply(Run(h, evs[..|evs| - 1]), evs[|evs| - 1])
  }

  /** A host with no process of ours, and whatever PID file an earlier crash left behind. */
  function Boot(file: PidFile): Host { Host([], file, [], None) }

  ghost predicate Reachable(h: Host) {
    exists file, evs :: h == Run(Boot(file), evs)
  }

  // ---------- The invariant ----------

  /** Program points at which a live process holds the lock. */
  predicate Locked(pc: Pc) {
    match pc
    case Probing(at) => at.Remove?
    case Starting(_) => true
    case Owned(_) => true
    case Unlink(_) => true
    case Leave(_) => true
    case Serving(_) => true
    case Forked => true
    case _ => false
  }

  /** Program points at which a live process has the lock file open. */
  predicate HasFd(pc: Pc) {
    match pc
    case Probing(at) => !at.Open? && !at.BusyRead?
    case Stopping(at, _) => at.PollProbe? || at.PollDrop?
    case _ => Locked(pc)
  }

  /** Program points whose step may change the PID file. */
  predicate Mutating(pc: Pc) {
    match pc
    case Probing(at) => at.Remove?
    case Unlink(_) => true
    case Serving(at) => at.Truncate? || at.Write?
    case _ => false
  }

  predicate RoleFits(role: Role, pc: Pc) {
    match pc
    case Probing(_) => IsCall(role)
    case Starting(_) => role.Start?
    case Stopping(_, pid) => role.Stop?
    case Owned(_) => role.Start? || role.Stop? || role.Child?
    case Unlink(_) => role.Start? || role.Stop? || role.Child?
    case Leave(outcome) =>
      OutcomeFits(role, outcome) && !outcome.AlreadyRunning? && !outcome.Running? && !outcome.NoPid?
    case Done(outcome) => OutcomeFits(role, outcome)
    case Serving(_) => role.Child?
    case Exit => role.Child?
    case Forked => role.Grandchild?
    case Idle => role.Grandchild?
  }

  predicate OutcomeFits(role: Role, outcome: Outcome) {
    match outcome
    case Started(_) => role.Start?
    case AlreadyRunning(_) => role.Start?
    case NotReady(_) => role.Start?
    case Stopped(_) => role.Stop?
    case NotRunning => role.Stop? || role.Status?
    case NoPid => role.Stop?
    case Running(_) => role.Status?
    case Failed => IsCall(role)
  }

  /** The process that opened the description `p` works with: itself, the start it belongs to, or that of its parent. */
  function Family(h: Host, p: nat): nat
    requires p < |h.procs|
  {
    match h.procs[p].role
    case Child(parent) => parent
    case Grandchild(parent) =>
      if parent < |h.procs| && h.procs[parent].role.Child? then h.procs[parent].role.parent else p
    case _ => p
  }

  ghost predicate FdOk(h: Host, p: nat)
    requires p < |h.procs|
  {
    var me := h.procs[p];
    && (me.fd.Some? ==>
          me.life.Alive? && me.fd.value < |h.descs| && h.descs[me.fd.value] == Family(h, p))
    && (me.life.Alive? ==>
          && (me.fd.Some? <==> HasFd(me.pc))
          && (Locked(me.pc) ==> me.fd == h.owner)
          && (HasFd(me.pc) && !Locked(me.pc) ==> me.fd != h.owner))
  }

  ghost predicate FamilyOk(h: Host, p: nat)
    requires p < |h.procs|
  {
    var me := h.procs[p];
    && RoleFits(me.role, me.pc) && me.pid > 0
    && (me.role.Child? ==>
          var q := me.role.parent;
          q < |h.procs| && q != p && h.procs[q].role.Start? && h.procs[q].child == Some(p))
    && (me.role.Grandchild? ==>
          var q := me.role.parent;
          q < |h.procs| && q != p && h.procs[q].role.Child?
          && var r := h.procs[q].role.parent; r < |h.procs| && h.procs[r].role.Start? && h.procs[r].child == Some(q))
    && (me.child.Some? ==>
          var c := me.child.value;
          me.role.Start? && c < |h.procs| && c != p && h.procs[c].role == Child(p))
    && (me.role.Start? ==> StartOk(me.pc, me.child, Kid(h, p), me.killed))
  }

  /** How far a start has come says what has happened to its child; it kills nobody else. */
  predicate StartOk(pc: Pc, child: Option<nat>, kid: Option<Proc>, killed: Option<nat>) {
    && (killed.Some? ==> kid.Some? && kid.value.pid == killed.value)
    && match pc
       case Probing(_) => child.None?
       case Starting(at) =>
         && (if at.Setup? || at.Spawn? then child.None? else kid.Some?)
         && (at.Reap? ==> killed.Some?)
       case Owned(pid) => kid.Some? && kid.value.life.Reaped? && kid.value.pid == pid && killed.Some?
       case Unlink(pid) => kid.Some? && kid.value.life.Reaped? && kid.value.pid == pid && killed.Some?
       case Leave(outcome) => OutcomeOk(outcome, kid, killed)
       case Done(outcome) => OutcomeOk(outcome, kid, killed)
       case _ => true
  }

  /** What a start's answer says about its child. */
  predicate OutcomeOk(outcome: Outcome, kid: Option<Proc>, killed: Option<nat>) {
    match outcome
    case Started(pid) =>
      && kid.Some? && kid.value.pid == pid
      && kid.value.bound && kid.value.wrote && kid.value.signalled
    case NotReady(pid) => kid.Some? && kid.value.pid == pid && kid.value.life.Reaped? && killed.Some?
    case _ => true
  }

  /** How far a process has come says what it has done and seen. */
  predicate PastOk(me: Proc) {
    && (me.signalled ==> me.wrote)
    && (me.wrote ==> me.bound)
    && BusyOk(me.pc, me.sawBusy) && SawOk(me.role, me.pc, me.saw) && SignalsOk(me) && ErrOk(me.role, me.pc, me.erred)
    && match me.pc
       case Serving(at) =>
         && (at.Truncate? || at.Write? ==> me.bound)
         && (at.Signal? ==> me.wrote)
         && (at.ClosePipe? || at.Serve? ==> me.signalled)
         && (!at.Prepare? ==> me.cloexec)
       case Owned(pid) => me.role.Child? ==> me.cloexec && pid == me.pid
       case Unlink(pid) => me.role.Child? ==> me.cloexec && pid == me.pid
       case Forked => me.cloexec
       case _ => true
  }

  /** A pid a call works with or answers is the one it read. */
  predicate SawOk(role: Role, pc: Pc, saw: PidFile) {
    match pc
    case Stopping(_, pid) => saw == Names(pid) && pid > 0
    case Owned(pid) => role.Stop? ==> saw == Names(pid) && pid > 0
    case Unlink(pid) => role.Stop? ==> saw == Names(pid) && pid > 0
    case Leave(outcome) => SawOutcome(outcome, saw)
    case Done(outcome) => SawOutcome(outcome, saw)
    case _ => true
  }

  predicate SawOutcome(outcome: Outcome, saw: PidFile) {
    match outcome
    case Stopped(pid) => saw == Names(pid) && pid > 0
    case Running(pid) => pid > 0 ==> saw == Names(pid)
    case AlreadyRunning(pid) => pid > 0 ==> saw == Names(pid)
    case NoPid => !NamesPid(saw)
    case _ => true
  }

  /** A stop signals the process it read, SIGTERM first; of the others only a start signals at all. */
  predicate SignalsOk(me: Proc) {
    && (me.role.Stop? ==>
          && (me.termed.Some? ==> me.saw == Names(me.termed.value))
          && (me.killed.Some? ==> me.killed == me.termed)
          && match me.pc
             case Probing(_) => me.termed.None?
             case Stopping(at, _) => (!at.Terminate? ==> me.termed.Some?) && (HardPoint(at) ==> me.killed.Some?)
             case Owned(_) => me.termed.Some?
             case Unlink(_) => me.termed.Some?
             case Leave(outcome) => outcome.Stopped? ==> me.termed.Some?
             case Done(outcome) => outcome.Stopped? ==> me.termed.Some?
             case _ => true)
    && (!me.role.Stop? ==> me.termed.None?)
    && (!me.role.Stop? && !me.role.Start? ==> me.killed.None?)
  }

  predicate HardPoint(at: StopPoint) {
    match at
    case PollOpen(hard) => hard
    case PollProbe(hard) => hard
    case PollDrop(hard, _) => hard
    case _ => false
  }

  /** A process goes on with its work only as long as nothing has thwarted it; a call then ends with an error. */
  predicate ErrOk(role: Role, pc: Pc, erred: bool) {
    match pc
    case Probing(at) => erred == (at == Drop(false))
    case Starting(_) => !erred
    case Stopping(at, _) => erred == (at.PollDrop? && !at.busy)
    case Owned(_) => IsCall(role) ==> !erred
    case Unlink(_) => IsCall(role) ==> !erred
    case Leave(outcome) => erred == outcome.Failed?
    case Done(outcome) => erred == outcome.Failed?
    case Serving(at) => erred ==> at.Release?
    case _ => true
  }

  predicate BusyOk(pc: Pc, sawBusy: bool) {
    match pc
    case Probing(at) => sawBusy == (at == Drop(true) || at.BusyRead?)
    case Starting(_) => !sawBusy
    case Stopping(_, _) => sawBusy
    case Leave(outcome) => outcome.NotRunning? ==> !sawBusy
    case Done(outcome) =>
      && (outcome.NotRunning? ==> !sawBusy)
      && (outcome.NoPid? || outcome.Running? || outcome.AlreadyRunning? ==> sawBusy)
    case _ => true
  }

  /** What a live process at its program point knows about the PID file. */
  predicate FileOk(pc: Pc, pid: nat, file: PidFile) {
    match pc
    case Starting(at) => at.Setup? || at.Spawn? ==> file == Absent
    case Serving(at) =>
      && (at.Prepare? || at.Load? || at.Listen? || at.Truncate? ==> file == Absent)
      && (at.Write? ==> file == Garbled)
      && (at.Signal? || at.ClosePipe? || at.Serve? ==> file == Names(pid))
    case Unlink(target) => file == Names(target)
    case Leave(outcome) =>
      && (outcome.NotRunning? ==> file == Absent)
      && (outcome.NotReady? || outcome.Stopped? ==> file != Names(outcome.pid))
    case _ => true
  }

  /** Program points at which `FileOk` says something. */
  predicate FilePoint(pc: Pc) {
    match pc
    case Starting(at) => at.Setup? || at.Spawn?
    case Serving(at) => !at.Release?
    case Unlink(_) => true
    case Leave(outcome) => outcome.NotRunning? || outcome.NotReady? || outcome.Stopped?
    case _ => false
  }

  ghost predicate ProcOk(h: Host, p: nat)
    requires p < |h.procs|
  {
    && FdOk(h, p) && FamilyOk(h, p) && PastOk(h.procs[p])
    && (h.procs[p].life.Alive? ==> FileOk(h.procs[p].pc, h.procs[p].pid, h.pidFile))
  }

  ghost predicate OwnerOk(h: Host) {
    h.owner.Some? ==>
      h.owner.value < |h.descs| && exists p :: 0 <= p < |h.procs| && h.procs[p].fd == h.owner
  }

  ghost predicate PidsDistinct(h: Host) {
    forall p, q :: 0 <= p < q < |h.procs| && !h.procs[p].life.Reaped? && !h.procs[q].life.Reaped?
      ==> h.procs[p].pid != h.procs[q].pid
  }

  ghost predicate Inv(h: Host) {
    && (forall p :: 0 <= p < |h.procs| ==> ProcOk(h, p))
    && OwnerOk(h) && PidsDistinct(h)
  }

  // ---------- Every step keeps the invariant ----------

  /** Two processes with the same description belong to the same call. */
  lemma {:induction false} LockedIsFamily(h: Host, p: nat, q: nat)
    requires Inv(h) && p < |h.procs| && q < |h.procs| && p != q
    requires h.procs[p].fd.Some? && h.procs[p].fd == h.procs[q].fd
    ensures Family(h, p) == Family(h, q)
    ensures h.procs[p].pc.Forked? || h.procs[q].pc.Forked? || h.procs[p].role == Child(q) || h.procs[q].role == Child(p)
  {
    assert ProcOk(h, p) && ProcOk(h, q);
  }

  /** No process relies on the PID file while another one is about to change it. */
  lemma {:induction false} NoRace(h: Host, p: nat, q: nat)
    requires Inv(h) && p < |h.procs| && q < |h.procs| && p != q
    requires h.procs[p].life.Alive? && Mutating(h.procs[p].pc)
    requires h.procs[q].life.Alive?
    ensures !FilePoint(h.procs[q].pc)
  {
    assert ProcOk(h, p) && ProcOk(h, q);
    if FilePoint(h.procs[q].pc) {
      LockedIsFamily(h, p, q);
    }
  }

  /** What a process knows by itself, given the PID file and its child. */
  predicate SelfOk(me: Proc, file: PidFile, kid: Option<Proc>) {
    && RoleFits(me.role, me.pc) && PastOk(me) && FileOk(me.pc, me.pid, file)
    && (me.role.Start? ==> StartOk(me.pc, me.child, kid, me.killed))
  }

  /** What a step of process `me` may do: only kernel calls move the lock, only some points touch the PID file. */
  predicate MoveOk(me: Proc, file: PidFile, free: bool, kid: Option<Proc>, m: Move, ok: bool) {
    && (m.file != file ==> Mutating(me.pc) && m.call.Nothing?)
    && RoleFits(me.role, m.pc) && PastOk(Advance(me, m, file, ok)) && FileOk(m.pc, me.pid, m.file)
    && (me.role.Start? && !m.call.Fork? && !m.call.Wait? ==>
          StartOk(m.pc, me.child, kid, Advance(me, m, file, ok).killed))
    && match m.call
       case Nothing => HasFd(m.pc) == HasFd(me.pc) && Locked(m.pc) == Locked(me.pc)
       case SendSignal(_, _) => HasFd(m.pc) == HasFd(me.pc) && Locked(m.pc) == Locked(me.pc)
       case OpenLock => !HasFd(me.pc) && HasFd(m.pc) && !Locked(m.pc)
       case TakeLock => free && HasFd(me.pc) && !Locked(me.pc) && Locked(m.pc)
       case CloseLock => HasFd(me.pc) && !HasFd(m.pc)
       case Fork => me.pc == Starting(Spawn) && m.pc == Starting(Await)
       case Exec => me.pc == Forked && m.pc == Idle
       case Wait => me.pc == Starting(Reap) && kid.Some? && kid.value.life.Zombie? && m.pc == Owned(kid.value.pid)
  }

  lemma {:induction false} ProbeMoves(me: Proc, file: PidFile, free: bool, kid: Option<Proc>, ok: bool)
    requires me.pc == Probing(Open) || me.pc == Probing(Probe)
    requires SelfOk(me, file, kid)
    ensures MoveOk(me, file, free, kid, Program(me, file, free, kid, ok), ok)
  {
    hide StartProgram, StopProgram, ServeProgram;
  }

  lemma {:induction false} DropMoves(me: Proc, file: PidFile, free: bool, kid: Option<Proc>, ok: bool)
    requires me.pc.Probing? && me.pc.probe.Drop? && SelfOk(me, file, kid)
    ensures MoveOk(me, file, free, kid, Program(me, file, free, kid, ok), ok)
  {
    hide StartProgram, StopProgram, ServeProgram;
  }

  lemma {:induction false} BusyMoves(me: Proc, file: PidFile, free: bool, kid: Option<Proc>, ok: bool)
    requires me.pc == Probing(BusyRead) && SelfOk(me, file, kid)
    ensures MoveOk(me, file, free, kid, Program(me, file, free, kid, ok), ok)
  {
    BusyPast(me, file, free, kid, ok);
    hide StartProgram, StopProgram, ServeProgram, PastOk;
  }

  lemma {:induction false} BusyPast(me: Proc, file: PidFile, free: bool, kid: Option<Proc>, ok: bool)
    requires me.pc == Probing(BusyRead) && SelfOk(me, file, kid)
    ensures PastOk(Advance(me, Program(me, file, free, kid, ok), file, ok))
  {
    hide StartProgram, StopProgram, ServeProgram, StartOk;
  }

  lemma {:induction false} RemoveMoves(me: Proc, file: PidFile, free: bool, kid: Option<Proc>, ok: bool)
    requires me.pc == Probing(Remove) && SelfOk(me, file, kid)
    ensures MoveOk(me, file, free, kid, Program(me, file, free, kid, ok), ok)
  {
    RemovePast(me, file, free, kid, ok);
    hide StartProgram, StopProgram, ServeProgram, PastOk;
  }

  lemma {:induction false} RemovePast(me: Proc, file: PidFile, free: bool, kid: Option<Proc>, ok: bool)
    requires me.pc == Probing(Remove) && SelfOk(me, file, kid)
    ensures PastOk(Advance(me, Program(me, file, free, kid, ok), file, ok))
  {
    hide StartProgram, StopProgram, ServeProgram, StartOk, FileOk;
  }

  lemma {:induction false} StartMoves(me: Proc, file: PidFile, free: bool, kid: Option<Proc>, ok: bool)
    requires me.pc.Starting? && SelfOk(me, file, kid) && (kid.Some? ==> PastOk(kid.value))
    ensures MoveOk(me, file, free, kid, StartProgram(me.pc.start, file, kid, ok), ok)
  {
    hide MoveOk, SelfOk, StartProgram, PastOk;
    match me.pc.start {
      case Kill => StartGivesUp(me, file, free, kid, ok);
      case Reap => StartGivesUp(me, file, free, kid, ok);
      case Await => StartWaits(me, file, free, kid, ok);
      case _ => StartGoesOn(me, file, free, kid, ok);
    }
  }

  lemma {:induction false} StartGoesOn(me: Proc, file: PidFile, free: bool, kid: Option<Proc>, ok: bool)
    requires me.pc == Starting(Setup) || me.pc == Starting(Spawn)
    requires SelfOk(me, file, kid)
    ensures MoveOk(me, file, free, kid, StartProgram(me.pc.start, file, kid, ok), ok)
  {
  }

  lemma {:induction false} StartWaits(me: Proc, file: PidFile, free: bool, kid: Option<Proc>, ok: bool)
    requires me.pc == Starting(Await) && SelfOk(me, file, kid) && (kid.Some? ==> PastOk(kid.value))
    ensures MoveOk(me, file, free, kid, StartProgram(me.pc.start, file, kid, ok), ok)
  {
  }

  lemma {:induction false} StartGivesUp(me: Proc, file: PidFile, free: bool, kid: Option<Proc>, ok: bool)
    requires me.pc == Starting(Kill) || me.pc == Starting(Reap)
    requires SelfOk(me, file, kid) && (kid.Some? ==> PastOk(kid.value))
    ensures MoveOk(me, file, free, kid, StartProgram(me.pc.start, file, kid, ok), ok)
  {
    assert PastOk(Advance(me, StartProgram(me.pc.start, file, kid, ok), file, ok));
    hide PastOk;
  }

  lemma {:induction false} StopMoves(me: Proc, file: PidFile, free: bool, kid: Option<Proc>, ok: bool)
    requires me.pc.Stopping? && SelfOk(me, file, kid) && (kid.Some? ==> PastOk(kid.value))
    ensures MoveOk(me, file, free, kid, StopProgram(me.pc.stop, me.pc.pid, file, free, ok), ok)
  {
    hide MoveOk, SelfOk, StopProgram, PastOk;
    match me.pc.stop {
      case PollOpen(_) => StopPolls(me, file, free, kid, ok);
      case PollProbe(_) => StopPolls(me, file, free, kid, ok);
      case PollDrop(_, _) => StopDrops(me, file, free, kid, ok);
      case _ => StopSignals(me, file, free, kid, ok);
    }
  }

  lemma {:induction false} StopSignals(me: Proc, file: PidFile, free: bool, kid: Option<Proc>, ok: bool)
    requires me.pc.Stopping? && (me.pc.stop.Terminate? || me.pc.stop.ForceKill?) && SelfOk(me, file, kid)
    ensures MoveOk(me, file, free, kid, StopProgram(me.pc.stop, me.pc.pid, file, free, ok), ok)
  {
    hide StartOk;
  }

  lemma {:induction false} StopPolls(me: Proc, file: PidFile, free: bool, kid: Option<Proc>, ok: bool)
    requires me.pc.Stopping? && (me.pc.stop.PollOpen? || me.pc.stop.PollProbe?) && SelfOk(me, file, kid)
    ensures MoveOk(me, file, free, kid, StopProgram(me.pc.stop, me.pc.pid, file, free, ok), ok)
  {
    hide StartOk;
  }

  lemma {:induction false} StopDrops(me: Proc, file: PidFile, free: bool, kid: Option<Proc>, ok: bool)
    requires me.pc.Stopping? && me.pc.stop.PollDrop? && SelfOk(me, file, kid)
    ensures MoveOk(me, file, free, kid, StopProgram(me.pc.stop, me.pc.pid, file, free, ok), ok)
  {
    hide StartOk;
  }

  lemma {:induction false} ServeMoves(me: Proc, file: PidFile, free: bool, kid: Option<Proc>, ok: bool)
    requires me.pc.Serving? && SelfOk(me, file, kid) && (kid.Some? ==> PastOk(kid.value))
    ensures MoveOk(me, file, free, kid, ServeProgram(me.pid, me.pc.serve, file, ok), ok)
  {
    if me.pc.serve.Prepare? || me.pc.serve.Release? || !ok || me.pc.serve.Serve? {
      ServeEnds(me, file, free, kid, ok);
    } else {
      ServeGoesOn(me, file, free, kid);
    }
  }

  lemma {:induction false} ServeEnds(me: Proc, file: PidFile, free: bool, kid: Option<Proc>, ok: bool)
    requires me.pc.Serving? && SelfOk(me, file, kid)
    requires me.pc.serve.Prepare? || me.pc.serve.Release? || !ok || me.pc.serve.Serve?
    ensures MoveOk(me, file, free, kid, ServeProgram(me.pid, me.pc.serve, file, ok), ok)
  {
    assert me.role.Child?;
    hide StartOk;
  }

  lemma {:induction false} ServeGoesOn(me: Proc, file: PidFile, free: bool, kid: Option<Proc>)
    requires me.pc.Serving? && SelfOk(me, file, kid)
    requires !me.pc.serve.Prepare? && !me.pc.serve.Release? && !me.pc.serve.Serve?
    ensures MoveOk(me, file, free, kid, ServeProgram(me.pid, me.pc.serve, file, true), true)
  {
    assert me.role.Child?;
    hide StartOk;
  }

  lemma {:induction false} OwnedMoves(me: Proc, file: PidFile, free: bool, kid: Option<Proc>, ok: bool)
    requires me.pc.Owned? && SelfOk(me, file, kid)
    ensures MoveOk(me, file, free, kid, Program(me, file, free, kid, ok), ok)
  {
    OwnedPast(me, file, free, kid, ok);
    hide ProbeProgram, StartProgram, StopProgram, ServeProgram, PastOk;
    match me.role {
      case Start =>
      case Stop =>
      case Child(_) =>
    }
  }

  lemma {:induction false} OwnedPast(me: Proc, file: PidFile, free: bool, kid: Option<Proc>, ok: bool)
    requires me.pc.Owned? && SelfOk(me, file, kid)
    ensures PastOk(Advance(me, Program(me, file, free, kid, ok), file, ok))
  {
    hide ProbeProgram, StartProgram, StopProgram, ServeProgram, StartOk, FileOk;
    match me.role {
      case Start =>
      case Stop =>
      case Child(_) =>
    }
  }

  lemma {:induction false} UnlinkMoves(me: Proc, file: PidFile, free: bool, kid: Option<Proc>, ok: bool)
    requires me.pc.Unlink? && SelfOk(me, file, kid)
    ensures MoveOk(me, file, free, kid, Program(me, file, free, kid, ok), ok)
  {
    UnlinkPast(me, file, free, kid, ok);
    hide ProbeProgram, StartProgram, StopProgram, ServeProgram, PastOk;
    match me.role {
      case Start =>
      case Stop =>
      case Child(_) =>
    }
  }

  lemma {:induction false} UnlinkPast(me: Proc, file: PidFile, free: bool, kid: Option<Proc>, ok: bool)
    requires me.pc.Unlink? && SelfOk(me, file, kid)
    ensures PastOk(Advance(me, Program(me, file, free, kid, ok), file, ok))
  {
    hide ProbeProgram, StartProgram, StopProgram, ServeProgram, StartOk, FileOk;
    match me.role {
      case Start =>
      case Stop =>
      case Child(_) =>
    }
  }

  lemma {:induction false} LastMoves(me: Proc, file: PidFile, free: bool, kid: Option<Proc>, ok: bool)
    requires (me.pc.Leave? || me.pc.Done? || me.pc.Exit? || me.pc.Forked? || me.pc.Idle?) && SelfOk(me, file, kid)
    ensures MoveOk(me, file, free, kid, Program(me, file, free, kid, ok), ok)
  {
    hide ProbeProgram, StartProgram, StopProgram, ServeProgram;
  }

  lemma {:induction false} ProgramMoves(me: Proc, file: PidFile, free: bool, kid: Option<Proc>, ok: bool)
    requires SelfOk(me, file, kid) && (kid.Some? ==> PastOk(kid.value))
    ensures MoveOk(me, file, free, kid, Program(me, file, free, kid, ok), ok)
  {
    match me.pc {
      case Probing(Drop(_)) => DropMoves(me, file, free, kid, ok);
      case Probing(BusyRead) => BusyMoves(me, file, free, kid, ok);
      case Probing(Remove) => RemoveMoves(me, file, free, kid, ok);
      case Probing(_) => ProbeMoves(me, file, free, kid, ok);
      case Starting(_) => StartMoves(me, file, free, kid, ok);
      case Stopping(_, _) => StopMoves(me, file, free, kid, ok);
      case Serving(_) => ServeMoves(me, file, free, kid, ok);
      case Owned(_) => OwnedMoves(me, file, free, kid, ok);
      case Unlink(_) => UnlinkMoves(me, file, free, kid, ok);
      case _ => LastMoves(me, file, free, kid, ok);
    }
  }

  /** What no step ever undoes. */
  predicate Later(a: Proc, b: Proc) {
    && b.role == a.role && b.pid == a.pid
    && (a.child.Some? ==> b.child == a.child)
    && (a.bound ==> b.bound) && (a.wrote ==> b.wrote) && (a.signalled ==> b.signalled)
    && (a.life.Reaped? ==> b.life.Reaped?)
  }

  ghost predicate AllLater(h: Host, h': Host) {
    |h.procs| <= |h'.procs| && forall r :: 0 <= r < |h.procs| ==> Later(h.procs[r], h'.procs[r])
  }

  lemma {:induction false} FamilyStays(h: Host, h': Host, q: nat)
    requires q < |h.procs| && FamilyOk(h, q) && AllLater(h, h') && h'.procs[q] == h.procs[q]
    ensures FamilyOk(h', q) && Family(h', q) == Family(h, q)
  {
  }

  lemma {:induction false} StepKeeps(h: Host, p: nat, ok: bool)
    requires Inv(h) && p < |h.procs| && h.procs[p].life.Alive?
    ensures MoveOk(h.procs[p], h.pidFile, h.owner.None?, Kid(h, p),
                   Program(h.procs[p], h.pidFile, h.owner.None?, Kid(h, p), ok), ok)
  {
    assert ProcOk(h, p);
    assert Kid(h, p).Some? ==> ProcOk(h, h.procs[p].child.value);
    ProgramMoves(h.procs[p], h.pidFile, h.owner.None?, Kid(h, p), ok);
  }

  /** A process a step does not touch keeps its facts, unless it relies on a PID file that changed. */
  lemma {:induction false} OtherStays(h: Host, h': Host, q: nat)
    requires q < |h.procs| && ProcOk(h, q) && AllLater(h, h') && h'.procs[q] == h.procs[q]
    requires h.descs <= h'.descs && h'.owner == h.owner
    requires h'.pidFile == h.pidFile || !h.procs[q].life.Alive? || !FilePoint(h.procs[q].pc)
    ensures ProcOk(h', q)
  {
    FamilyStays(h, h', q);
  }

  lemma {:induction false} KeepNothing(h: Host, p: nat, ok: bool, pid: nat)
    requires Inv(h) && p < |h.procs| && h.procs[p].life.Alive?
    requires Program(h.procs[p], h.pidFile, h.owner.None?, Kid(h, p), ok).call.Nothing?
             || Program(h.procs[p], h.pidFile, h.owner.None?, Kid(h, p), ok).call.SendSignal?
    ensures Inv(Perform(h, p, Program(h.procs[p], h.pidFile, h.owner.None?, Kid(h, p), ok), ok, pid))
  {
    hide Program, PastOk;
    var m := Program(h.procs[p], h.pidFile, h.owner.None?, Kid(h, p), ok);
    var h' := Perform(h, p, m, ok, pid);
    StepKeeps(h, p, ok);
    assert ProcOk(h, p);
    assert AllLater(h, h');
    forall q | 0 <= q < |h'.procs| && q != p ensures ProcOk(h', q) {
      assert ProcOk(h, q);
      if m.file != h.pidFile && h.procs[q].life.Alive? {
        NoRace(h, p, q);
      }
      OtherStays(h, h', q);
    }
    assert ProcOk(h', p);
    assert OwnerOk(h') by {
      if h.owner.Some? {
        var w :| 0 <= w < |h.procs| && h.procs[w].fd == h.owner;
        assert h'.procs[w].fd == h'.owner;
      }
    }
  }

  lemma {:induction false} KeepOpen(h: Host, p: nat, ok: bool, pid: nat)
    requires Inv(h) && p < |h.procs| && h.procs[p].life.Alive?
    requires Program(h.procs[p], h.pidFile, h.owner.None?, Kid(h, p), ok).call.OpenLock?
    ensures Inv(Perform(h, p, Program(h.procs[p], h.pidFile, h.owner.None?, Kid(h, p), ok), ok, pid))
  {
    hide Program, PastOk;
    var m := Program(h.procs[p], h.pidFile, h.owner.None?, Kid(h, p), ok);
    var h' := Perform(h, p, m, ok, pid);
    StepKeeps(h, p, ok);
    assert ProcOk(h, p);
    assert AllLater(h, h');
    forall q | 0 <= q < |h'.procs| && q != p ensures ProcOk(h', q) {
      assert ProcOk(h, q);
      OtherStays(h, h', q);
    }
    PastElsewhere(Advance(h.procs[p], m, h.pidFile, ok), Some(|h.descs|), h.procs[p].child);
    assert ProcOk(h', p);
    assert OwnerOk(h') by {
      if h.owner.Some? {
        var w :| 0 <= w < |h.procs| && h.procs[w].fd == h.owner;
        assert ProcOk(h, p);
        assert h'.procs[w].fd == h'.owner;
      }
    }
  }

  lemma {:induction false} KeepTake(h: Host, p: nat, ok: bool, pid: nat)
    requires Inv(h) && p < |h.procs| && h.procs[p].life.Alive?
    requires Program(h.procs[p], h.pidFile, h.owner.None?, Kid(h, p), ok).call.TakeLock?
    ensures Inv(Perform(h, p, Program(h.procs[p], h.pidFile, h.owner.None?, Kid(h, p), ok), ok, pid))
  {
    hide Program;
    var m := Program(h.procs[p], h.pidFile, h.owner.None?, Kid(h, p), ok);
    var h' := Perform(h, p, m, ok, pid);
    StepKeeps(h, p, ok);
    assert ProcOk(h, p);
    forall q | 0 <= q < |h'.procs| ensures ProcOk(h', q) {
      assert ProcOk(h, q);
      if q != p {
        FamilyStays(h, h', q);
      }
    }
    assert h'.procs[p].fd == h'.owner;
  }

  /** Closing a descriptor, by a close call or by dying, keeps every process's facts. */
  lemma {:induction false} KeepClose(h: Host, p: nat, after: Proc)
    requires Inv(h) && p < |h.procs| && h.procs[p].life.Alive?
    requires after.fd.None? && after.child == h.procs[p].child && !after.life.Reaped?
    requires Later(h.procs[p], after)
    requires RoleFits(after.role, after.pc) && PastOk(after)
    requires after.role.Start? ==> StartOk(after.pc, after.child, Kid(h, p), after.killed)
    requires after.life.Alive? ==> !HasFd(after.pc)
    ensures Inv(h.(procs := h.procs[p := after], owner := OwnerAfterClose(h, p, h.procs[p].fd)))
  {
    hide PastOk, OutcomeOk;
    var h' := h.(procs := h.procs[p := after], owner := OwnerAfterClose(h, p, h.procs[p].fd));
    forall q | 0 <= q < |h'.procs| ensures ProcOk(h', q) {
      assert ProcOk(h, q) && ProcOk(h, p);
      if q != p {
        FamilyStays(h, h', q);
      }
    }
    assert OwnerOk(h') by {
      if h'.owner.Some? {
        if h.procs[p].fd == h.owner {
          assert HeldBeside(h.procs, p, h.owner);
          var w :| 0 <= w < |h.procs| && w != p && h.procs[w].fd == h.owner;
          assert h'.procs[w].fd == h'.owner;
        } else {
          var w :| 0 <= w < |h.procs| && h.procs[w].fd == h.owner;
          assert h'.procs[w].fd == h'.owner;
        }
      }
    }
  }

  lemma {:induction false} KeepFork(h: Host, p: nat, ok: bool, pid: nat)
    requires Inv(h) && p < |h.procs| && h.procs[p].life.Alive?
    requires Program(h.procs[p], h.pidFile, h.owner.None?, Kid(h, p), ok).call.Fork?
    ensures Inv(Perform(h, p, Program(h.procs[p], h.pidFile, h.owner.None?, Kid(h, p), ok), ok, pid))
  {
    hide Program, PastOk;
    var m := Program(h.procs[p], h.pidFile, h.owner.None?, Kid(h, p), ok);
    var h' := Perform(h, p, m, ok, pid);
    if PidFree(h, pid) {
      StepKeeps(h, p, ok);
      assert ProcOk(h, p);
      assert AllLater(h, h');
      forall q | 0 <= q < |h.procs| && q != p ensures ProcOk(h', q) {
        assert ProcOk(h, q);
        OtherStays(h, h', q);
      }
      PastElsewhere(Advance(h.procs[p], m, h.pidFile, ok), h.procs[p].fd, Some(|h.procs|));
      assert ProcOk(h', p);
      FreshChildOk(h', p, |h.procs|);
      assert h'.procs[p].fd == h'.owner;
    }
  }

  lemma {:induction false} PastElsewhere(me: Proc, fd: Option<nat>, child: Option<nat>)
    ensures PastOk(me.(fd := fd, child := child)) == PastOk(me)
  {
  }

  lemma {:induction false} FreshChildOk(h: Host, p: nat, c: nat)
    requires p < |h.procs| && c < |h.procs| && p != c && ProcOk(h, p)
    requires h.procs[p].life.Alive? && h.procs[p].pc == Starting(Await) && h.procs[p].child == Some(c)
    requires h.procs[c] == NewProc(Child(p), h.procs[c].pid, Serving(Prepare), h.procs[p].fd)
    requires h.procs[c].pid > 0 && h.pidFile == Absent
    ensures ProcOk(h, c)
  {
  }

  lemma {:induction false} KeepWait(h: Host, p: nat, ok: bool, pid: nat)
    requires Inv(h) && p < |h.procs| && h.procs[p].life.Alive?
    requires Program(h.procs[p], h.pidFile, h.owner.None?, Kid(h, p), ok).call.Wait?
    ensures Inv(Perform(h, p, Program(h.procs[p], h.pidFile, h.owner.None?, Kid(h, p), ok), ok, pid))
  {
    hide Program;
    var m := Program(h.procs[p], h.pidFile, h.owner.None?, Kid(h, p), ok);
    var h' := Perform(h, p, m, ok, pid);
    StepKeeps(h, p, ok);
    assert ProcOk(h, p);
    var c := h.procs[p].child.value;
    assert ProcOk(h, c);
    assert AllLater(h, h');
    forall q | 0 <= q < |h'.procs| && q != p && q != c ensures ProcOk(h', q) {
      assert ProcOk(h, q);
      OtherStays(h, h', q);
    }
    assert ProcOk(h', p) && ProcOk(h', c);
    assert h'.procs[p].fd == h'.owner;
  }

  lemma {:induction false} ActKeeps(h: Host, p: nat, ok: bool, pid: nat)
    requires Inv(h) && p < |h.procs| && h.procs[p].life.Alive?
    ensures Inv(Perform(h, p, Program(h.procs[p], h.pidFile, h.owner.None?, Kid(h, p), ok), ok, pid))
  {
    hide Inv, Perform, Program;
    var m := Program(h.procs[p], h.pidFile, h.owner.None?, Kid(h, p), ok);
    match m.call {
      case Nothing => KeepNothing(h, p, ok, pid);
      case SendSignal(_, _) => KeepNothing(h, p, ok, pid);
      case OpenLock => KeepOpen(h, p, ok, pid);
      case TakeLock => KeepTake(h, p, ok, pid);
      case CloseLock => KeepCloseLock(h, p, ok, pid);
      case Fork => KeepFork(h, p, ok, pid);
      case Wait => KeepWait(h, p, ok, pid);
      case Exec => KeepCloseLock(h, p, ok, pid);
    }
  }

  lemma {:induction false} KeepCloseLock(h: Host, p: nat, ok: bool, pid: nat)
    requires Inv(h) && p < |h.procs| && h.procs[p].life.Alive?
    requires var m := Program(h.procs[p], h.pidFile, h.owner.None?, Kid(h, p), ok); m.call.CloseLock? || m.call.Exec?
    ensures Inv(Perform(h, p, Program(h.procs[p], h.pidFile, h.owner.None?, Kid(h, p), ok), ok, pid))
  {
    hide Program;
    var m := Program(h.procs[p], h.pidFile, h.owner.None?, Kid(h, p), ok);
    StepKeeps(h, p, ok);
    assert ProcOk(h, p);
    KeepClose(h, p, Advance(h.procs[p], m, h.pidFile, ok).(fd := None));
  }

  lemma {:induction false} ApplyKeeps(h: Host, ev: Event)
    requires Inv(h)
    ensures Inv(Apply(h, ev))
  {
    if Enabled(h, ev) {
      var h' := Apply(h, ev);
      match ev {
        case Act(p, ok, pid) =>
          ActKeeps(h, p, ok, pid);
        case Die(p) =>
          assert ProcOk(h, p);
          KeepClose(h, p, h.procs[p].(life := Zombie, fd := None));
        case Collect(p) =>
          KeepTable(h, h');
        case Launch(_, _) =>
          KeepTable(h, h');
        case SpawnOther(p, pid) =>
          KeepSpawn(h, p, pid);
      }
    }
  }

  /** A forked copy of the daemon shares the daemon's hold on the lock and nothing else. */
  lemma {:induction false} KeepSpawn(h: Host, p: nat, pid: nat)
    requires Inv(h) && Enabled(h, SpawnOther(p, pid))
    ensures Inv(Apply(h, SpawnOther(p, pid)))
  {
    var h' := Apply(h, SpawnOther(p, pid));
    hide PastOk, FileOk;
    assert ProcOk(h, p);
    assert AllLater(h, h');
    forall q | 0 <= q < |h.procs| ensures ProcOk(h', q) {
      assert ProcOk(h, q);
      OtherStays(h, h', q);
    }
    CopyOk(h, p, pid);
    assert OwnerOk(h') by {
      if h.owner.Some? {
        var w :| 0 <= w < |h.procs| && h.procs[w].fd == h.owner;
        assert h'.procs[w].fd == h'.owner;
      }
    }
  }

  lemma {:induction false} CopyOk(h: Host, p: nat, pid: nat)
    requires Inv(h) && Enabled(h, SpawnOther(p, pid))
    ensures ProcOk(Apply(h, SpawnOther(p, pid)), |h.procs|)
  {
    assert ProcOk(h, p);
  }

  /** Being reaped changes nothing a process's facts are about. */
  lemma {:induction false} ReapedStays(h: Host, h': Host, q: nat)
    requires q < |h.procs| && ProcOk(h, q) && AllLater(h, h') && h' == h.(procs := h'.procs)
    requires h.procs[q].life.Zombie? && h'.procs[q] == h.procs[q].(life := Reaped)
    ensures ProcOk(h', q)
  {
  }

  lemma {:induction false} NewcomerOk(h: Host, p: nat)
    requires p < |h.procs|
    requires var n := h.procs[p];
             n == NewProc(n.role, n.pid, n.pc, None) && n.pid > 0 && IsCall(n.role) && n.pc == Probing(Open)
    ensures ProcOk(h, p)
  {
  }

  /** New calls, which have no descriptor yet, and reaping disturb nothing. */
  lemma {:induction false} KeepTable(h: Host, h': Host)
    requires Inv(h) && |h.procs| <= |h'.procs|
    requires h' == h.(procs := h'.procs)
    requires forall q :: 0 <= q < |h.procs| ==>
               h'.procs[q] == h.procs[q] || (h.procs[q].life.Zombie? && h'.procs[q] == h.procs[q].(life := Reaped))
    requires forall q :: |h.procs| <= q < |h'.procs| ==>
               var n := h'.procs[q];
               && n == NewProc(n.role, n.pid, n.pc, None) && PidFree(h, n.pid)
               && IsCall(n.role) && n.pc == Probing(Open)
    requires |h'.procs| <= |h.procs| + 1
    ensures Inv(h')
  {
    hide PastOk, FileOk, FamilyOk;
    assert AllLater(h, h');
    if |h.procs| < |h'.procs| {
      NewcomerOk(h', |h.procs|);
    }
    forall q | 0 <= q < |h.procs| ensures ProcOk(h', q) {
      assert ProcOk(h, q);
      if h'.procs[q] == h.procs[q] {
        OtherStays(h, h', q);
      } else {
        ReapedStays(h, h', q);
      }
    }
    if h.owner.Some? {
      var w :| 0 <= w < |h.procs| && h.procs[w].fd == h.owner;
      assert ProcOk(h, w);
      assert h'.procs[w].fd == h'.owner;
    }
  }

  // ---------- Theorems over every interleaving ----------

  lemma {:induction false} RunKeeps(file: PidFile, evs: seq<Event>)
    ensures Inv(Run(Boot(file), evs))
    decreases |evs|
  {
    if evs == [] {
    } else {
      RunKeeps(file, evs[..|evs| - 1]);
      ApplyKeeps(Run(Boot(file), evs[..|evs| - 1]), evs[|evs| - 1]);
    }
  }

  lemma {:induction false} ReachableInv(h: Host)
    requires Reachable(h)
    ensures Inv(h)
  {
    var file, evs :| h == Run(Boot(file), evs);
    RunKeeps(file, evs);
  }

  /** A live process between the acquisition of the lock and its release. */
  ghost predicate HoldsLock(h: Host, p: nat) {
    p < |h.procs| && h.procs[p].life.Alive? && h.procs[p].fd.Some? && h.procs[p].fd == h.owner
  }

  /** Whoever changes the PID file, by any event, holds the lock while doing so. */
  lemma {:induction false} PidFileChangesOnlyUnderLock(h: Host, ev: Event)
    requires Reachable(h) && Apply(h, ev).pidFile != h.pidFile
    ensures ev.Act? && HoldsLock(h, ev.p)
  {
    ReachableInv(h);
    assert ev.Act?;
    StepKeeps(h, ev.p, ev.ok);
    assert ProcOk(h, ev.p);
  }

  /**
   The lock is owned by one start, stop or status call, alone or together with the child it
   spawned and the copies that child has forked and that have not run their own program yet.
   */
  lemma {:induction false} LockHoldersAreOneFamily(h: Host, p: nat, q: nat)
    requires Reachable(h) && HoldsLock(h, p) && HoldsLock(h, q) && p != q
    ensures Family(h, p) == Family(h, q)
    ensures h.procs[p].pc.Forked? || h.procs[q].pc.Forked? || h.procs[p].role == Child(q) || h.procs[q].role == Child(p)
  {
    ReachableInv(h);
    LockedIsFamily(h, p, q);
  }

  /** A daemon child between its spawn and its release of the lock. */
  ghost predicate LiveDaemon(h: Host, p: nat) {
    p < |h.procs| && h.procs[p].life.Alive? && h.procs[p].role.Child? && h.procs[p].fd.Some?
  }

  /** Mutual exclusion: there is at most one daemon, and it holds the lock. */
  lemma {:induction false} AtMostOneDaemon(h: Host, p: nat, q: nat)
    requires Reachable(h) && LiveDaemon(h, p) && LiveDaemon(h, q)
    ensures p == q && HoldsLock(h, p)
  {
    ReachableInv(h);
    assert ProcOk(h, p) && ProcOk(h, q);
    if p != q {
      LockedIsFamily(h, p, q);
    }
  }

  /** A daemon that has signalled readiness and has not yet begun its own clean-up. */
  ghost predicate ReadyDaemon(h: Host, p: nat) {
    && p < |h.procs| && h.procs[p].life.Alive? && h.procs[p].role.Child?
    && (h.procs[p].pc == Serving(ClosePipe) || h.procs[p].pc == Serving(Serve))
  }

  /**
   While a daemon is ready, whatever its parent and everybody else do, the PID file names
   it, and it is the only process that number can mean.
   */
  lemma {:induction false} ReadyDaemonOwnsPidFile(h: Host, p: nat)
    requires Reachable(h) && ReadyDaemon(h, p)
    ensures h.pidFile == Names(h.procs[p].pid) && h.procs[p].bound && HoldsLock(h, p)
    ensures forall q :: 0 <= q < |h.procs| && q != p && !h.procs[q].life.Reaped? ==> h.procs[q].pid != h.procs[p].pid
  {
    ReachableInv(h);
    assert ProcOk(h, p);
  }

  /** A start reports success only for a child that had bound its listener, written its PID and said so. */
  lemma {:induction false} StartedMeansReady(h: Host, p: nat, pid: nat)
    requires Reachable(h) && p < |h.procs| && h.procs[p].role.Start?
    requires h.procs[p].pc == Leave(Started(pid)) || h.procs[p].pc == Done(Started(pid))
    ensures h.procs[p].child.Some? && h.procs[p].child.value < |h.procs|
    ensures var kid := h.procs[h.procs[p].child.value];
            kid.role == Child(p) && kid.pid == pid && kid.bound && kid.wrote && kid.signalled
  {
    ReachableInv(h);
    assert ProcOk(h, p);
  }

  /** A live copy forked by process `c`, which has not run its own program yet. */
  ghost predicate CopyBy(h: Host, q: nat, c: nat) {
    q < |h.procs| && h.procs[q].life.Alive? && h.procs[q].pc.Forked? && h.procs[q].role == Grandchild(c)
  }

  /**
   A start whose child was not ready in time returns only after the child is dead and
   waited for and the PID file does not name it.  Its return releases the lock, unless the
   child was killed just after a fork, and then the lock goes with the copy's exec.
   */
  lemma {:induction false} FailedStartLeavesNothing(h: Host, p: nat, pid: nat, ok: bool, other: nat)
    requires Reachable(h) && p < |h.procs| && h.procs[p].life.Alive? && h.procs[p].pc == Leave(NotReady(pid))
    ensures HoldsLock(h, p) && h.pidFile != Names(pid) && h.procs[p].killed == Some(pid)
    ensures h.procs[p].child.Some? && h.procs[p].child.value < |h.procs|
    ensures var c := h.procs[p].child.value;
            h.procs[c].role == Child(p) && h.procs[c].pid == pid && h.procs[c].life.Reaped? && h.procs[c].fd.None?
    ensures var h' := Apply(h, Act(p, ok, other));
            h'.procs[p].pc == Done(NotReady(pid)) && h'.pidFile == h.pidFile
            && (h'.owner.None? <==> forall q: nat :: !CopyBy(h, q, h.procs[p].child.value))
  {
    ReachableInv(h);
    assert ProcOk(h, p);
    var c := h.procs[p].child.value;
    assert ProcOk(h, c);
    forall q: nat | q < |h.procs| && q != p ensures h.procs[q].fd == h.procs[p].fd <==> CopyBy(h, q, c) {
      assert ProcOk(h, q);
      if h.procs[q].fd == h.procs[p].fd {
        LockedIsFamily(h, p, q);
      }
    }
    assert HeldBeside(h.procs, p, h.procs[p].fd) <==> exists q: nat :: CopyBy(h, q, c);
  }

  /** A stop or status call that holds the lock holds it alone. */
  lemma {:induction false} NoDaemonBeside(h: Host, p: nat)
    requires Inv(h) && HoldsLock(h, p) && (h.procs[p].role.Stop? || h.procs[p].role.Status?)
    ensures forall q: nat :: !LiveDaemon(h, q)
  {
    assert ProcOk(h, p);
    forall q: nat | q < |h.procs| ensures !LiveDaemon(h, q) {
      assert ProcOk(h, q);
    }
  }

  /**
   A stop succeeds only while it holds the lock itself, having sent SIGTERM to the process it
   reports, which is the one the PID file named when it read it and does not name any more.
   */
  lemma {:induction false} StoppedMeansReleased(h: Host, p: nat, pid: nat)
    requires Reachable(h) && p < |h.procs| && h.procs[p].life.Alive? && h.procs[p].pc == Leave(Stopped(pid))
    ensures HoldsLock(h, p) && h.pidFile != Names(pid)
    ensures pid > 0 && h.procs[p].saw == Names(pid) && h.procs[p].termed == Some(pid)
    ensures forall q: nat :: !LiveDaemon(h, q)
  {
    ReachableInv(h);
    assert ProcOk(h, p);
    NoDaemonBeside(h, p);
  }

  /** The two answers that say "not running". */
  predicate SaysNotRunning(outcome: Outcome) { outcome.NotRunning? || outcome.NoPid? }

  /**
   The first answer is given while holding the lock, with the PID file gone and no daemon
   alive, by a call whose probe found the lock free.
   */
  lemma {:induction false} NotRunningMeansNoDaemon(h: Host, p: nat)
    requires Reachable(h) && p < |h.procs| && h.procs[p].life.Alive? && h.procs[p].pc == Leave(NotRunning)
    ensures HoldsLock(h, p) && h.pidFile == Absent
    ensures forall q: nat :: !LiveDaemon(h, q)
  {
    ReachableInv(h);
    assert ProcOk(h, p);
    NoDaemonBeside(h, p);
  }

  /** Process `p` has settled on an answer that says "not running". */
  ghost predicate AnswersNotRunning(h: Host, p: nat) {
    p < |h.procs| && h.procs[p].life.Alive?
    && ((h.procs[p].pc.Leave? && SaysNotRunning(h.procs[p].pc.outcome)) || h.procs[p].pc == Done(NoPid))
  }

  /**
   The exact condition: a call that answers "not running" has found the lock free, and then
   holds it with the PID file gone and no daemon alive, or it is a stop that found the lock
   held and holds nothing.
   */
  lemma {:induction false} NotRunningIsTrueIffProbeWasFree(h: Host, p: nat)
    requires Reachable(h) && AnswersNotRunning(h, p)
    ensures !h.procs[p].sawBusy <==>
            HoldsLock(h, p) && h.pidFile == Absent && forall q: nat :: !LiveDaemon(h, q)
    ensures h.procs[p].sawBusy ==> h.procs[p].role.Stop? && h.procs[p].pc == Done(NoPid)
  {
    ReachableInv(h);
    assert ProcOk(h, p);
    if h.procs[p].pc.Leave? {
      NotRunningMeansNoDaemon(h, p);
    }
  }

  /**
   When the second answer is given: by one step of a stop whose probe found the lock held
   and which then reads, without an I/O error, a PID file that gives no pid.
   */
  lemma {:induction false} NoPidIff(h: Host, ev: Event, p: nat)
    requires Reachable(h) && p < |h.procs| && h.procs[p].pc != Done(NoPid)
    ensures p < |Apply(h, ev).procs|
    ensures Apply(h, ev).procs[p].pc == Done(NoPid) <==>
            && h.procs[p].life.Alive? && h.procs[p].role.Stop?
            && h.procs[p].pc == Probing(BusyRead) && h.procs[p].sawBusy
            && ev.Act? && ev.p == p && ev.ok && !NamesPid(h.pidFile)
  {
    hide Program, Perform;
    ReachableInv(h);
    assert ProcOk(h, p);
    if ev.Act? && ev.p == p && Enabled(h, ev) {
      NoPidStep(h, p, ev.ok);
      PerformMoves(h, p, Program(h.procs[p], h.pidFile, h.owner.None?, Kid(h, p), ev.ok), ev.ok, ev.pid);
    } else {
      OnlyActsAdvance(h, ev, p);
    }
  }

  lemma {:induction false} PerformMoves(h: Host, p: nat, m: Move, ok: bool, pid: nat)
    requires p < |h.procs|
    ensures var h' := Perform(h, p, m, ok, pid);
            && p < |h'.procs| && (h'.procs[p].pc == m.pc || h'.procs[p].pc == h.procs[p].pc)
            && (m.call.Nothing? ==> h'.procs[p].pc == m.pc)
  {
  }

  /** A process moves on by its own steps only. */
  lemma {:induction false} OnlyActsAdvance(h: Host, ev: Event, p: nat)
    requires p < |h.procs| && (!ev.Act? || ev.p != p || !Enabled(h, ev))
    ensures p < |Apply(h, ev).procs| && Apply(h, ev).procs[p].pc == h.procs[p].pc
  {
    hide Program;
  }

  /** `sawBusy` means what it says: it is set by the first probe of a call, exactly if somebody owns the lock then. */
  lemma {:induction false} SawBusyIff(h: Host, ev: Event, p: nat)
    requires Reachable(h) && p < |h.procs| && !h.procs[p].sawBusy
    ensures p < |Apply(h, ev).procs|
    ensures Apply(h, ev).procs[p].sawBusy <==>
            && h.procs[p].life.Alive? && h.procs[p].pc == Probing(Probe)
            && ev.Act? && ev.p == p && ev.ok && h.owner.Some?
  {
    hide Program, Perform;
    ReachableInv(h);
    assert ProcOk(h, p);
    if ev.Act? && Enabled(h, ev) {
      ProbeStep(h, ev.p, ev.ok);
      var m := Program(h.procs[ev.p], h.pidFile, h.owner.None?, Kid(h, ev.p), ev.ok);
      PerformRemembers(h, ev.p, m, ev.ok, ev.pid, p);
    }
  }

  lemma {:induction false} ProbeStep(h: Host, p: nat, ok: bool)
    requires p < |h.procs|
    ensures var m := Program(h.procs[p], h.pidFile, h.owner.None?, Kid(h, p), ok);
            && (m.pc == Probing(Drop(true)) <==> h.procs[p].pc == Probing(Probe) && ok && h.owner.Some?)
            && (m.pc == Probing(Drop(true)) ==> m.call.Nothing?)
  {
  }

  lemma {:induction false} PerformRemembers(h: Host, p: nat, m: Move, ok: bool, pid: nat, q: nat)
    requires p < |h.procs| && q < |h.procs|
    ensures var h' := Perform(h, p, m, ok, pid);
            && q < |h'.procs|
            && (h'.procs[q].sawBusy == h.procs[q].sawBusy ||
                  (q == p && h'.procs[q].sawBusy && m.pc == Probing(Drop(true))))
            && (q == p && m.call.Nothing? && m.pc == Probing(Drop(true)) ==> h'.procs[q].sawBusy)
  {
  }

  /** So no stop gives it beside a daemon that is ready: the daemon must still be starting up or already cleaning up. */
  lemma {:induction false} NoPidMeansNotReady(h: Host, ev: Event, p: nat, d: nat)
    requires Reachable(h) && p < |h.procs| && h.procs[p].pc != Done(NoPid)
    requires p < |Apply(h, ev).procs| && Apply(h, ev).procs[p].pc == Done(NoPid)
    ensures !ReadyDaemon(h, d)
  {
    NoPidIff(h, ev, p);
    ReachableInv(h);
    if d < |h.procs| {
      assert ProcOk(h, d);
    }
  }

  lemma {:induction false} NoPidStep(h: Host, p: nat, ok: bool)
    requires Inv(h) && p < |h.procs| && h.procs[p].life.Alive? && h.procs[p].pc != Done(NoPid)
    ensures var m := Program(h.procs[p], h.pidFile, h.owner.None?, Kid(h, p), ok);
            && (m.pc == Done(NoPid) <==>
                  h.procs[p].role.Stop? && h.procs[p].pc == Probing(BusyRead) && ok && !NamesPid(h.pidFile))
            && (m.pc == Done(NoPid) ==> m.call.Nothing?)
  {
    assert ProcOk(h, p);
    hide ServeProgram, PastOk;
  }

  // ---------- The pid a call works with ----------

  /** Event `ev` is the call's look into the PID file after a probe that found the lock held. */
  ghost predicate LooksUp(h: Host, ev: Event, p: nat) {
    p < |h.procs| && h.procs[p].life.Alive? && h.procs[p].pc == Probing(BusyRead) && ev.Act? && ev.p == p
  }

  /** That look finds `pid`. */
  ghost predicate Finds(h: Host, ev: Event, p: nat, pid: nat) {
    LooksUp(h, ev, p) && ev.ok && pid > 0 && h.pidFile == Names(pid)
  }

  /** A stop turns against a process exactly by reading its pid in the PID file. */
  lemma {:induction false} StopAimsIff(h: Host, ev: Event, p: nat, pid: nat)
    requires Reachable(h) && p < |h.procs| && h.procs[p].pc != Stopping(Terminate, pid)
    ensures p < |Apply(h, ev).procs|
    ensures Apply(h, ev).procs[p].pc == Stopping(Terminate, pid) <==> h.procs[p].role.Stop? && Finds(h, ev, p, pid)
  {
    hide Program, Perform;
    ReachableInv(h);
    if ev.Act? && ev.p == p && Enabled(h, ev) {
      LookUpStep(h, p, ev.ok, pid);
      PerformMoves(h, p, Program(h.procs[p], h.pidFile, h.owner.None?, Kid(h, p), ev.ok), ev.ok, ev.pid);
    } else {
      OnlyActsAdvance(h, ev, p);
    }
  }

  /** A status call answers with a pid exactly by reading it there, and without one if there is none to read. */
  lemma {:induction false} RunningIff(h: Host, ev: Event, p: nat, pid: nat)
    requires Reachable(h) && p < |h.procs| && h.procs[p].pc != Done(Running(pid))
    ensures p < |Apply(h, ev).procs|
    ensures Apply(h, ev).procs[p].pc == Done(Running(pid)) <==>
            && h.procs[p].role.Status? && LooksUp(h, ev, p)
            && (Finds(h, ev, p, pid) || (pid == 0 && forall other: nat :: !Finds(h, ev, p, other)))
  {
    hide Program, Perform;
    ReachableInv(h);
    assert ev.Act? && ev.ok && LooksUp(h, ev, p) && NamesPid(h.pidFile) ==> Finds(h, ev, p, h.pidFile.pid);
    if ev.Act? && ev.p == p && Enabled(h, ev) {
      LookUpStep(h, p, ev.ok, pid);
      PerformMoves(h, p, Program(h.procs[p], h.pidFile, h.owner.None?, Kid(h, p), ev.ok), ev.ok, ev.pid);
    } else {
      OnlyActsAdvance(h, ev, p);
    }
  }

  /** So does a start that finds the lock held. */
  lemma {:induction false} AlreadyRunningIff(h: Host, ev: Event, p: nat, pid: nat)
    requires Reachable(h) && p < |h.procs| && h.procs[p].pc != Done(AlreadyRunning(pid))
    ensures p < |Apply(h, ev).procs|
    ensures Apply(h, ev).procs[p].pc == Done(AlreadyRunning(pid)) <==>
            && h.procs[p].role.Start? && LooksUp(h, ev, p)
            && (Finds(h, ev, p, pid) || (pid == 0 && forall other: nat :: !Finds(h, ev, p, other)))
  {
    hide Program, Perform;
    ReachableInv(h);
    assert ev.Act? && ev.ok && LooksUp(h, ev, p) && NamesPid(h.pidFile) ==> Finds(h, ev, p, h.pidFile.pid);
    if ev.Act? && ev.p == p && Enabled(h, ev) {
      LookUpStep(h, p, ev.ok, pid);
      PerformMoves(h, p, Program(h.procs[p], h.pidFile, h.owner.None?, Kid(h, p), ev.ok), ev.ok, ev.pid);
    } else {
      OnlyActsAdvance(h, ev, p);
    }
  }

  lemma {:induction false} LookUpStep(h: Host, p: nat, ok: bool, pid: nat)
    requires Inv(h) && p < |h.procs| && h.procs[p].life.Alive?
    ensures var me := h.procs[p];
            var m := Program(me, h.pidFile, h.owner.None?, Kid(h, p), ok);
            var found := me.pc == Probing(BusyRead) && ok && pid > 0 && h.pidFile == Names(pid);
            var none := me.pc == Probing(BusyRead) && pid == 0 && !(ok && NamesPid(h.pidFile));
            && (me.pc == Probing(BusyRead) ==> m.call.Nothing?)
            && (me.pc != Stopping(Terminate, pid) ==>
                  (m.pc == Stopping(Terminate, pid) <==> me.role.Stop? && found))
            && (me.pc != Done(Running(pid)) ==>
                  (m.pc == Done(Running(pid)) <==> me.role.Status? && (found || none)))
            && (me.pc != Done(AlreadyRunning(pid)) ==>
                  (m.pc == Done(AlreadyRunning(pid)) <==> me.role.Start? && (found || none)))
  {
    assert ProcOk(h, p);
    hide ServeProgram, PastOk, FileOk, FdOk, StartOk;
  }

  /** If a daemon is ready at that moment, the pid found is the daemon's. */
  lemma {:induction false} ReadyDaemonIsFound(h: Host, ev: Event, p: nat, pid: nat, d: nat)
    requires Reachable(h) && ReadyDaemon(h, d) && LooksUp(h, ev, p)
    ensures Finds(h, ev, p, pid) <==> ev.ok && pid == h.procs[d].pid
  {
    ReachableInv(h);
    ReadyDaemonOwnsPidFile(h, d);
    assert ProcOk(h, d);
  }

  /** `saw` means what it says: it is what the PID file held when the call looked, and stays. */
  lemma {:induction false} SawIff(h: Host, ev: Event, p: nat)
    requires p < |h.procs|
    ensures p < |Apply(h, ev).procs|
    ensures Apply(h, ev).procs[p].saw == if LooksUp(h, ev, p) then h.pidFile else h.procs[p].saw
  {
    hide StartProgram, StopProgram, ServeProgram;
  }

  /** The process a stop is about to stop or says it has stopped. */
  function Target(pc: Pc): Option<nat> {
    match pc
    case Stopping(_, pid) => Some(pid)
    case Owned(pid) => Some(pid)
    case Unlink(pid) => Some(pid)
    case Leave(Stopped(pid)) => Some(pid)
    case Done(Stopped(pid)) => Some(pid)
    case _ => None
  }

  /**
   From the look into the PID file to its answer a stop has one target, the pid it read there:
   it sends SIGTERM to that one before it polls, SIGKILL to nobody else, and reports that one.
   */
  lemma {:induction false} StopSticksToIt(h: Host, p: nat)
    requires Reachable(h) && p < |h.procs| && h.procs[p].role.Stop?
    ensures var me := h.procs[p];
            && (Target(me.pc).Some? ==> me.saw == Names(Target(me.pc).value) && me.saw.pid > 0)
            && (Target(me.pc).Some? && !me.pc.Stopping? ==> me.termed == Target(me.pc))
            && (me.pc.Stopping? && !me.pc.stop.Terminate? ==> me.termed == Target(me.pc))
            && (me.termed.Some? ==> me.saw == Names(me.termed.value))
            && (me.killed.Some? ==> me.killed == me.termed)
  {
    ReachableInv(h);
    assert ProcOk(h, p);
  }

  /** It keeps the target until it answers, with that pid or with an error. */
  lemma {:induction false} StopKeepsTarget(h: Host, ev: Event, p: nat)
    requires Reachable(h) && p < |h.procs| && h.procs[p].role.Stop? && Target(h.procs[p].pc).Some?
    ensures p < |Apply(h, ev).procs|
    ensures var pc := Apply(h, ev).procs[p].pc;
            Target(pc) == Target(h.procs[p].pc) || pc == Leave(Failed) || pc == Done(Failed)
  {
    hide Program, Perform;
    ReachableInv(h);
    if ev.Act? && ev.p == p && Enabled(h, ev) {
      TargetStep(h.procs[p], h.pidFile, h.owner.None?, Kid(h, p), ev.ok);
      PerformMoves(h, p, Program(h.procs[p], h.pidFile, h.owner.None?, Kid(h, p), ev.ok), ev.ok, ev.pid);
    } else {
      OnlyActsAdvance(h, ev, p);
    }
  }

  lemma {:induction false} TargetStep(me: Proc, file: PidFile, free: bool, kid: Option<Proc>, ok: bool)
    requires me.role.Stop? && Target(me.pc).Some?
    ensures var pc := Program(me, file, free, kid, ok).pc;
            Target(pc) == Target(me.pc) || pc == Leave(Failed) || pc == Done(Failed)
  {
    hide ProbeProgram, StartProgram, ServeProgram;
  }

  // ---------- Errors ----------

  /** `erred` means what it says, and is never taken back. */
  lemma {:induction false} ErredIff(h: Host, ev: Event, p: nat)
    requires Reachable(h) && p < |h.procs|
    ensures p < |Apply(h, ev).procs|
    ensures Apply(h, ev).procs[p].erred <==>
            || h.procs[p].erred
            || (ev.Act? && ev.p == p && !ev.ok && h.procs[p].life.Alive? && Fatal(h.procs[p].role, h.procs[p].pc))
  {
    hide Program, Perform;
    ReachableInv(h);
    if ev.Act? && Enabled(h, ev) {
      if !ev.ok && Fatal(h.procs[ev.p].role, h.procs[ev.p].pc) {
        FatalHasNoKernelCall(h, ev.p);
      }
      PerformErrs(h, ev.p, Program(h.procs[ev.p], h.pidFile, h.owner.None?, Kid(h, ev.p), ev.ok), ev.ok, ev.pid, p);
    }
  }

  lemma {:induction false} PerformErrs(h: Host, p: nat, m: Move, ok: bool, pid: nat, q: nat)
    requires p < |h.procs| && q < |h.procs|
    requires !ok && Fatal(h.procs[p].role, h.procs[p].pc) ==> !m.call.Fork? && !m.call.Wait?
    ensures var h' := Perform(h, p, m, ok, pid);
            && q < |h'.procs|
            && (h'.procs[q].erred <==>
                  h.procs[q].erred || (q == p && !ok && Fatal(h.procs[p].role, h.procs[p].pc)))
  {
    hide Fatal;
  }

  /** A step that fails where that is fatal makes no fork and waits for nobody, so it always takes place. */
  lemma {:induction false} FatalHasNoKernelCall(h: Host, p: nat)
    requires Inv(h) && p < |h.procs| && Fatal(h.procs[p].role, h.procs[p].pc)
    ensures var m := Program(h.procs[p], h.pidFile, h.owner.None?, Kid(h, p), false); !m.call.Fork? && !m.call.Wait?
  {
    assert ProcOk(h, p);
    hide PastOk, FileOk, FdOk, StartOk;
  }

  /** A call answers with an error exactly if it met one, and a daemon that met one is cleaning up or gone. */
  lemma {:induction false} FailedIff(h: Host, p: nat)
    requires Reachable(h) && p < |h.procs|
    ensures var me := h.procs[p];
            && (me.pc.Leave? || me.pc.Done? ==> (me.pc.outcome.Failed? <==> me.erred))
            && (me.role.Child? && me.erred ==>
                  me.pc == Owned(me.pid) || me.pc == Unlink(me.pid) || me.pc == Serving(Release) || me.pc == Exit)
  {
    ReachableInv(h);
    assert ProcOk(h, p);
  }

  /**
   A start that waits for its child reports success exactly on reading, in time, the byte the
   child has sent; if its time is up or the pipe is closed it sets about killing the child.
   */
  lemma {:induction false} StartedIff(h: Host, p: nat, ok: bool, pid: nat)
    requires Reachable(h) && p < |h.procs| && h.procs[p].life.Alive? && h.procs[p].pc == Starting(Await)
    ensures h.procs[p].child.Some? && h.procs[p].child.value < |h.procs|
    ensures p < |Apply(h, Act(p, ok, pid)).procs|
    ensures var kid := h.procs[h.procs[p].child.value];
            Apply(h, Act(p, ok, pid)).procs[p].pc ==
              if ok && kid.signalled then Leave(Started(kid.pid)) else Starting(Kill)
  {
    ReachableInv(h);
    assert ProcOk(h, p);
    hide PastOk, FileOk, ProbeProgram, StopProgram, ServeProgram;
  }

  // ---------- What a probe of the lock says ----------

  /**
   With only processes spawned by daemons left alive, however many, the lock is free as
   soon as each of them runs its own program: none keeps it across its exec.
   */
  lemma {:induction false} OrphansHoldTheLockOnlyUntilExec(h: Host)
    requires Reachable(h)
    requires forall p :: 0 <= p < |h.procs| && h.procs[p].life.Alive? ==> h.procs[p].role.Grandchild?
    ensures h.owner.None? <==> forall p :: 0 <= p < |h.procs| && h.procs[p].life.Alive? ==> h.procs[p].pc.Idle?
  {
    ReachableInv(h);
    forall p | 0 <= p < |h.procs| && h.procs[p].life.Alive?
      ensures h.procs[p].pc.Idle? || (h.procs[p].pc.Forked? && h.procs[p].fd == h.owner && h.owner.Some?)
    {
      assert ProcOk(h, p);
    }
    if h.owner.Some? {
      var w :| 0 <= w < |h.procs| && h.procs[w].fd == h.owner;
      assert ProcOk(h, w);
    }
  }

  /** The lock is free exactly when nobody is at a locked program point. */
  lemma {:induction false} LockFreeIffNobodyInside(h: Host)
    requires Reachable(h)
    ensures h.owner.None? <==>
            forall p :: 0 <= p < |h.procs| && h.procs[p].life.Alive? ==> !Locked(h.procs[p].pc)
  {
    ReachableInv(h);
    forall p | 0 <= p < |h.procs| && h.procs[p].life.Alive? ensures Locked(h.procs[p].pc) ==> h.owner.Some? {
      assert ProcOk(h, p);
    }
    if h.owner.Some? {
      var w :| 0 <= w < |h.procs| && h.procs[w].fd == h.owner;
      assert ProcOk(h, w);
      assert Locked(h.procs[w].pc);
    }
  }

  /** Two status calls on a host without a PID file: nobody has probed yet. */
  function TwoStatus(): Host {
    Boot(Absent).(procs := [NewProc(Status, 1, Probing(Open), None), NewProc(Status, 2, Probing(Open), None)])
  }

  /** The first one owns the lock and is about to remove the PID file. */
  function FirstInside(): Host {
    var t := TwoStatus();
    Host([t.procs[0].(pc := Probing(Remove), fd := Some(0)), t.procs[1]], Absent, [0], Some(0))
  }

  /** The second one has found the lock held. */
  function SecondBusy(): Host {
    var f := FirstInside();
    Host([f.procs[0], f.procs[1].(pc := Probing(Drop(true)), fd := Some(1), sawBusy := true)], Absent, [0, 1], Some(0))
  }

  lemma {:induction false} TwoStatusReachable()
    ensures Reachable(TwoStatus())
  {
    BootReachable(Absent);
    var h1 := Apply(Boot(Absent), Launch(Status, 1));
    ReachableStep(Boot(Absent), Launch(Status, 1));
    ReachableStep(h1, Launch(Status, 2));
    assert Apply(h1, Launch(Status, 2)) == TwoStatus();
  }

  lemma {:induction false} FirstInsideReachable()
    ensures Reachable(FirstInside())
  {
    TwoStatusReachable();
    var h1 := Apply(TwoStatus(), Act(0, true, 0));
    ReachableStep(TwoStatus(), Act(0, true, 0));
    ReachableStep(h1, Act(0, true, 0));
    assert Apply(h1, Act(0, true, 0)) == FirstInside();
  }

  lemma {:induction false} SecondBusyReachable()
    ensures Reachable(SecondBusy())
  {
    FirstInsideReachable();
    var h1 := Apply(FirstInside(), Act(1, true, 0));
    ReachableStep(FirstInside(), Act(1, true, 0));
    ReachableStep(h1, Act(1, true, 0));
    assert Apply(h1, Act(1, true, 0)) == SecondBusy();
  }

  /**
   "Running" does not imply a daemon: a second status call that probes while a first one
   briefly owns the lock answers "running" on a host that never had one.
   */
  lemma {:induction false} RunningWithoutDaemon()
    ensures exists h, p: nat :: Reachable(h) && p < |h.procs| && h.procs[p].pc == Done(Running(0))
                                && forall q :: 0 <= q < |h.procs| ==> h.procs[q].role.Status?
  {
    SecondBusyReachable();
    var h1 := Apply(SecondBusy(), Act(1, true, 0));
    ReachableStep(SecondBusy(), Act(1, true, 0));
    assert h1.procs[1].pc == Probing(BusyRead) && h1.pidFile == Absent && |h1.procs| == 2;
    assert h1.procs[1].life.Alive? && h1.procs[0] == SecondBusy().procs[0];
    var h2 := Apply(h1, Act(1, true, 0));
    ReachableStep(h1, Act(1, true, 0));
    assert h2.procs[1].pc == Done(Running(0));
  }

  lemma {:induction false} BootReachable(file: PidFile)
    ensures Reachable(Boot(file))
  {
    assert Run(Boot(file), []) == Boot(file);
  }

  lemma {:induction false} ReachableStep(h: Host, ev: Event)
    requires Reachable(h)
    ensures Reachable(Apply(h, ev))
  {
    var file, evs :| h == Run(Boot(file), evs);
    assert (evs + [ev])[..|evs|] == evs;
    assert Run(Boot(file), evs + [ev]) == Apply(h, ev);
  }

  /** A live process that holds the lock although no live daemon of its call does. */
  ghost predicate HoldsWithoutDaemon(h: Host, q: nat) {
    q < |h.procs| && h.procs[q].life.Alive? && Locked(h.procs[q].pc)
    && match h.procs[q].role
       case Start => h.procs[q].child.None? || !LiveDaemon(h, h.procs[q].child.value)
       case Child(_) => false
       case Grandchild(parent) => !LiveDaemon(h, parent)
       case _ => true
  }

  /**
   The exact condition under which a probe is wrong: it finds the lock held although no
   daemon is alive if and only if a stop or status call is working under the lock, or a
   start is whose child is not there yet or not any more, or a copy that a dead daemon
   forked has not reached its own program.
   */
  lemma {:induction false} ProbeIsWrongIff(h: Host)
    requires Reachable(h)
    ensures (h.owner.Some? && forall q: nat :: !LiveDaemon(h, q)) <==> exists q: nat :: HoldsWithoutDaemon(h, q)
  {
    ReachableInv(h);
    if h.owner.Some? && forall q: nat :: !LiveDaemon(h, q) {
      var w :| 0 <= w < |h.procs| && h.procs[w].fd == h.owner;
      assert ProcOk(h, w);
      assert h.procs[w].role.Child? ==> LiveDaemon(h, w);
      assert HoldsWithoutDaemon(h, w);
    }
    if q: nat :| HoldsWithoutDaemon(h, q) {
      HolderHasNoDaemon(h, q);
    }
  }

  lemma {:induction false} HolderHasNoDaemon(h: Host, q: nat)
    requires Inv(h) && HoldsWithoutDaemon(h, q)
    ensures h.owner.Some? && forall d: nat :: !LiveDaemon(h, d)
  {
    assert ProcOk(h, q);
    forall d: nat ensures !LiveDaemon(h, d) {
      if LiveDaemon(h, d) {
        DaemonWithItsCall(h, q, d);
      }
    }
  }

  /** Whoever holds the lock beside a live daemon is the start that spawned it or a copy it forked. */
  lemma {:induction false} DaemonWithItsCall(h: Host, q: nat, d: nat)
    requires Inv(h) && LiveDaemon(h, d) && q < |h.procs| && h.procs[q].life.Alive? && Locked(h.procs[q].pc) && q != d
    ensures h.procs[q].child == Some(d) || h.procs[q].role == Grandchild(d)
  {
    assert ProcOk(h, d) && ProcOk(h, q);
    LockedIsFamily(h, q, d);
    var f := h.procs[d].role.parent;
    assert ProcOk(h, f);
    if h.procs[q].role.Grandchild? {
      assert ProcOk(h, h.procs[q].role.parent);
    }
  }

  /** So the probe is right whenever no other call has the lock file open and no forked copy is left. */
  lemma {:induction false} ProbeIsExactWhenAlone(h: Host, p: nat)
    requires Reachable(h) && p < |h.procs| && h.procs[p].life.Alive? && !Locked(h.procs[p].pc)
    requires forall q :: 0 <= q < |h.procs| && q != p && h.procs[q].life.Alive? ==>
               !h.procs[q].pc.Forked? && (IsCall(h.procs[q].role) ==> !HasFd(h.procs[q].pc))
    ensures h.owner.Some? <==> exists q: nat :: LiveDaemon(h, q)
  {
    ReachableInv(h);
    ProbeIsWrongIff(h);
    forall q: nat | q < |h.procs| ensures !HoldsWithoutDaemon(h, q) {
      assert ProcOk(h, q);
    }
    if q: nat :| LiveDaemon(h, q) {
      assert ProcOk(h, q);
    }
  }

  // ---------- "Not running" beside a live daemon ----------

  /** A host after each event of a short run, given one by one. */
  lemma {:induction false} RunOn(h: Host, ev: Event, next: Host)
    requires Reachable(h) && Apply(h, ev) == next
    ensures Reachable(next)
  {
    ReachableStep(h, ev);
  }

  /** A start that has spawned its child, which has not written its PID yet. */
  function Spawned(): Host {
    var start := NewProc(Start, 1, Starting(Await), Some(0)).(child := Some(1));
    Host([start, NewProc(Child(0), 2, Serving(Prepare), Some(0))], Absent, [0], Some(0))
  }

  /** Beside it, a stop that has found the lock held. */
  function StopAsks(): Host {
    var s := Spawned();
    Host(s.procs + [NewProc(Stop, 3, Probing(BusyRead), None).(sawBusy := true)], Absent, [0, 2], Some(0))
  }

  /** The start with the lock in hand. */
  function Inside(): Host {
    Host([NewProc(Start, 1, Probing(Remove), Some(0))], Absent, [0], Some(0))
  }

  lemma {:induction false} InsideReachable()
    ensures Reachable(Inside())
  {
    BootReachable(Absent);
    var p0 := NewProc(Start, 1, Probing(Open), None);
    var h0 := Host([p0], Absent, [], None);
    RunOn(Boot(Absent), Launch(Start, 1), h0);
    var h1 := Host([p0.(pc := Probing(Probe), fd := Some(0))], Absent, [0], None);
    RunOn(h0, Act(0, true, 0), h1);
    RunOn(h1, Act(0, true, 0), Inside());
  }

  lemma {:induction false} SpawnedReachable()
    ensures Reachable(Spawned())
  {
    InsideReachable();
    var h := Inside();
    var h1 := h.(procs := [h.procs[0].(pc := Starting(Setup))]);
    RunOn(h, Act(0, true, 0), h1);
    var h2 := h.(procs := [h.procs[0].(pc := Starting(Spawn))]);
    RunOn(h1, Act(0, true, 0), h2);
    RunOn(h2, Act(0, true, 2), Spawned());
  }

  lemma {:induction false} StopAsksReachable()
    ensures Reachable(StopAsks())
  {
    SpawnedReachable();
    var s := Spawned();
    var p0 := NewProc(Stop, 3, Probing(Open), None);
    var h0 := Host(s.procs + [p0], Absent, [0], Some(0));
    RunOn(s, Launch(Stop, 3), h0);
    var p1 := p0.(pc := Probing(Probe), fd := Some(1));
    var h1 := Host(s.procs + [p1], Absent, [0, 2], Some(0));
    RunOn(h0, Act(2, true, 0), h1);
    var p2 := p1.(pc := Probing(Drop(true)), sawBusy := true);
    var h2 := Host(s.procs + [p2], Absent, [0, 2], Some(0));
    RunOn(h1, Act(2, true, 0), h2);
    RunOn(h2, Act(2, true, 0), StopAsks());
  }

  /** While a daemon starts up, or with its PID file gone, a stop may answer "not running" although it is alive. */
  lemma {:induction false} NotRunningBesideDaemon()
    ensures exists h, p: nat, d: nat :: Reachable(h) && AnswersNotRunning(h, p) && LiveDaemon(h, d)
  {
    StopAsksReachable();
    var h := StopAsks();
    var h' := h.(procs := h.procs[2 := h.procs[2].(pc := Done(NoPid))]);
    RunOn(h, Act(2, true, 0), h');
    assert AnswersNotRunning(h', 2) && LiveDaemon(h', 1);
  }

  // ---------- A forked copy that outlives the daemon and its start ----------

  /** The start, its child and a copy the child has forked, all with the one description. */
  function WithCopy(start: Proc, child: Proc): Host {
    var copy := NewProc(Grandchild(1), 3, Forked, Some(0)).(cloexec := true);
    Host([start, child, copy], Absent, [0], Some(0))
  }

  /** The child was about to load its state when it forked. */
  function Loading(): Proc { NewProc(Child(0), 2, Serving(Load), Some(0)).(cloexec := true) }

  function Killed(life: Life): Proc { Loading().(life := life, fd := None) }

  /** The start at one of its program points. */
  function StartAt(pc: Pc): Proc {
    var kills := !pc.Starting? || pc.start.Reap?;
    NewProc(Start, 1, pc, Some(0)).(child := Some(1), killed := if kills then Some(2) else None)
  }

  /** The start has timed out and sent SIGKILL; its child has just forked. */
  lemma {:induction false} CopyForked()
    ensures Reachable(WithCopy(StartAt(Starting(Reap)), Loading()))
  {
    hide ProbeProgram, StopProgram;
    SpawnedReachable();
    var start := StartAt(Starting(Await));
    var h1 := Host([start, Loading()], Absent, [0], Some(0));
    RunOn(Spawned(), Act(1, true, 0), h1);
    RunOn(h1, SpawnOther(1, 3), WithCopy(start, Loading()));
    RunOn(WithCopy(start, Loading()), Act(0, false, 0), WithCopy(StartAt(Starting(Kill)), Loading()));
    RunOn(WithCopy(StartAt(Starting(Kill)), Loading()), Act(0, true, 0), WithCopy(StartAt(Starting(Reap)), Loading()));
  }

  /** The child is dead and waited for, and the start is about to return. */
  lemma {:induction false} CopyLeft()
    ensures Reachable(WithCopy(StartAt(Leave(NotReady(2))), Killed(Reaped)))
  {
    CopyForked();
    var h := WithCopy(StartAt(Starting(Reap)), Loading());
    assert h.procs[2].fd == Some(0);
    assert HeldBeside(h.procs, 1, Some(0));
    RunOn(h, Die(1), WithCopy(StartAt(Starting(Reap)), Killed(Zombie)));
    RunOn(WithCopy(StartAt(Starting(Reap)), Killed(Zombie)), Act(0, true, 0),
          WithCopy(StartAt(Owned(2)), Killed(Reaped)));
    RunOn(WithCopy(StartAt(Owned(2)), Killed(Reaped)), Act(0, true, 0),
          WithCopy(StartAt(Leave(NotReady(2))), Killed(Reaped)));
  }

  /** The start after its return, and after it has gone. */
  function Returned(life: Life): Host {
    WithCopy(StartAt(Done(NotReady(2))).(fd := None, life := life), Killed(Reaped))
  }

  lemma {:induction false} ReturnedReachable()
    ensures Reachable(Returned(Alive)) && Reachable(Returned(Zombie))
  {
    CopyLeft();
    var h := WithCopy(StartAt(Leave(NotReady(2))), Killed(Reaped));
    assert h.procs[2].fd == Some(0);
    assert HeldBeside(h.procs, 0, Some(0));
    RunOn(h, Act(0, true, 0), Returned(Alive));
    RunOn(Returned(Alive), Die(0), Returned(Zombie));
  }

  /**
   The exception of `FailedStartLeavesNothing` does occur: a start has reported that its
   child was not ready, the child is dead and waited for, and the lock is still owned, by the
   copy the child had forked.
   */
  lemma {:induction false} FailedStartMayLeaveTheLock()
    ensures exists h, p: nat, c: nat, q: nat ::
              && Reachable(h) && p < |h.procs| && c < |h.procs| && h.procs[p].life.Alive?
              && h.procs[p].pc == Done(NotReady(h.procs[c].pid)) && h.procs[p].child == Some(c)
              && h.procs[c].life.Reaped? && CopyBy(h, q, c) && h.owner.Some?
  {
    ReturnedReachable();
    var h := Returned(Alive);
    assert CopyBy(h, 2, 1);
    assert h.procs[0].pc == Done(NotReady(h.procs[1].pid)) && h.procs[0].child == Some(1);
  }

  /**
   With the start gone too, nobody but a process spawned by the dead daemon is alive, and the
   lock is owned until that process execs; a probe made meanwhile is wrong.
   */
  lemma {:induction false} OrphanMayHoldTheLock()
    ensures exists h, q: nat ::
              && Reachable(h) && h.owner.Some? && HoldsWithoutDaemon(h, q)
              && (forall p :: 0 <= p < |h.procs| && h.procs[p].life.Alive? ==> h.procs[p].role.Grandchild?)
              && Apply(h, Act(q, true, 0)).owner.None?
  {
    ReturnedReachable();
    var h := Returned(Zombie);
    assert HoldsWithoutDaemon(h, 2);
    assert !HeldBeside(h.procs, 2, Some(0));
    assert Apply(h, Act(2, true, 0)).owner.None?;
  }

  // ---------- Runs in which nothing goes wrong ----------

  /** No I/O error, no deadline, nobody killed. */
  predicate Smooth(ev: Event) {
    ev.Launch? || (ev.Act? && ev.ok)
  }

  /** Some order of smooth events leads from `a` to `b`. */
  ghost predicate LeadsTo(a: Host, b: Host) {
    exists evs :: Run(a, evs) == b && forall i :: 0 <= i < |evs| ==> Smooth(evs[i])
  }

  lemma {:induction false} LeadsNowhere(a: Host)
    ensures LeadsTo(a, a)
  {
    assert Run(a, []) == a;
  }

  lemma {:induction false} LeadsOn(a: Host, b: Host, ev: Event, next: Host)
    requires LeadsTo(a, b) && Smooth(ev) && Apply(b, ev) == next
    ensures LeadsTo(a, next)
  {
    var evs :| Run(a, evs) == b && forall i :: 0 <= i < |evs| ==> Smooth(evs[i]);
    assert (evs + [ev])[..|evs|] == evs;
    assert Run(a, evs + [ev]) == next;
  }

  /** A call launched on a host where nothing runs. */
  function Alone(role: Role, pc: Pc): Proc { NewProc(role, 1, pc, None) }

  /** With the lock. */
  function AloneInside(role: Role, pc: Pc): Proc { NewProc(role, 1, pc, Some(0)) }

  function Within(role: Role, pc: Pc, file: PidFile): Host {
    Host([AloneInside(role, pc)], file, [0], Some(0))
  }

  lemma {:induction false} GetsInside(role: Role, file: PidFile)
    requires IsCall(role)
    ensures LeadsTo(Boot(file), Within(role, Probing(Remove), file))
  {
    OpensAlone(role, file);
    hide StartProgram, StopProgram, ServeProgram;
    var h1 := Host([AloneInside(role, Probing(Probe))], file, [0], None);
    LeadsOn(Boot(file), h1, Act(0, true, 0), Within(role, Probing(Remove), file));
  }

  lemma {:induction false} OpensAlone(role: Role, file: PidFile)
    requires IsCall(role)
    ensures LeadsTo(Boot(file), Host([AloneInside(role, Probing(Probe))], file, [0], None))
  {
    hide StartProgram, StopProgram, ServeProgram;
    LeadsNowhere(Boot(file));
    var h0 := Host([Alone(role, Probing(Open))], file, [], None);
    LeadsOn(Boot(file), Boot(file), Launch(role, 1), h0);
    LeadsOn(Boot(file), h0, Act(0, true, 0), Host([AloneInside(role, Probing(Probe))], file, [0], None));
  }

  /** On a host where nothing runs a stop and a status say so, and a stale PID file is gone afterwards. */
  lemma {:induction false} NothingRuns(role: Role, file: PidFile)
    requires role.Stop? || role.Status?
    ensures LeadsTo(Boot(file), Host([Alone(role, Done(NotRunning))], Absent, [0], None))
  {
    GetsInside(role, file);
    NothingToRemove(role, file);
    hide ProbeProgram, StartProgram, StopProgram, ServeProgram;
    var h := Within(role, Leave(NotRunning), Absent);
    assert !HeldBeside(h.procs, 0, Some(0));
    LeadsOn(Boot(file), h, Act(0, true, 0), Host([Alone(role, Done(NotRunning))], Absent, [0], None));
  }

  lemma {:induction false} NothingToRemove(role: Role, file: PidFile)
    requires role.Stop? || role.Status?
    requires LeadsTo(Boot(file), Within(role, Probing(Remove), file))
    ensures LeadsTo(Boot(file), Within(role, Leave(NotRunning), Absent))
  {
    hide StartProgram, StopProgram, ServeProgram;
    LeadsOn(Boot(file), Within(role, Probing(Remove), file), Act(0, true, 0), Within(role, Leave(NotRunning), Absent));
  }

  /** A start that has spawned its child. */
  function Parent(pc: Pc): Proc { AloneInside(Start, pc).(child := Some(1)) }

  /** The child, with the marks of what it has done by then. */
  function ChildAt(at: ServePoint): Proc {
    var up := at.Signal? || at.ClosePipe? || at.Serve?;
    NewProc(Child(0), 2, Serving(at), Some(0)).(
      cloexec := !at.Prepare?, bound := up || at.Truncate? || at.Write?, wrote := up, signalled := up && !at.Signal?)
  }

  function Booting(at: ServePoint, file: PidFile): Host {
    Host([Parent(Starting(Await)), ChildAt(at)], file, [0], Some(0))
  }

  /** The start has reported success, and its child serves. */
  function Up(): Host {
    Host([Parent(Done(Started(2))).(fd := None), ChildAt(Serve)], Names(2), [0], Some(0))
  }

  /** Whatever PID file was left behind, a start of which nothing fails succeeds, and its child serves with the lock. */
  lemma {:induction false} StartSucceeds(file: PidFile)
    ensures LeadsTo(Boot(file), Up())
  {
    hide ProbeProgram, StopProgram, ServeProgram;
    ChildSpawned(file);
    ChildComesUp(file);
    var h1 := Booting(Serve, Names(2));
    var h2 := h1.(procs := [Parent(Leave(Started(2))), ChildAt(Serve)]);
    LeadsOn(Boot(file), h1, Act(0, true, 0), h2);
    assert h2.procs[1].fd == h2.owner;
    assert HeldBeside(h2.procs, 0, h2.owner);
    LeadsOn(Boot(file), h2, Act(0, true, 0), Up());
  }

  lemma {:induction false} ChildSpawned(file: PidFile)
    ensures LeadsTo(Boot(file), Booting(Prepare, Absent))
  {
    GetsInside(Start, file);
    StartSetsUp(file);
    hide ProbeProgram, StopProgram, ServeProgram;
    LeadsOn(Boot(file), Within(Start, Starting(Setup), Absent), Act(0, true, 0),
            Within(Start, Starting(Spawn), Absent));
    ForksChild(file);
  }

  lemma {:induction false} StartSetsUp(file: PidFile)
    requires LeadsTo(Boot(file), Within(Start, Probing(Remove), file))
    ensures LeadsTo(Boot(file), Within(Start, Starting(Setup), Absent))
  {
    hide StartProgram, StopProgram, ServeProgram;
    LeadsOn(Boot(file), Within(Start, Probing(Remove), file), Act(0, true, 0), Within(Start, Starting(Setup), Absent));
  }

  lemma {:induction false} ForksChild(file: PidFile)
    requires LeadsTo(Boot(file), Within(Start, Starting(Spawn), Absent))
    ensures LeadsTo(Boot(file), Booting(Prepare, Absent))
  {
    hide ProbeProgram, StopProgram, ServeProgram;
    var h := Within(Start, Starting(Spawn), Absent);
    assert PidFree(h, 2);
    var m := Move(Starting(Await), Absent, Fork);
    assert Program(h.procs[0], Absent, false, Kid(h, 0), true) == m;
    hide StartProgram;
    LeadsOn(Boot(file), h, Act(0, true, 2), Booting(Prepare, Absent));
  }

  lemma {:induction false} ChildComesUp(file: PidFile)
    requires LeadsTo(Boot(file), Booting(Prepare, Absent))
    ensures LeadsTo(Boot(file), Booting(Serve, Names(2)))
  {
    hide LeadsTo, Booting;
    ChildStep(file, Prepare, Absent, Load, Absent);
    ChildStep(file, Load, Absent, Listen, Absent);
    ChildStep(file, Listen, Absent, Truncate, Absent);
    ChildStep(file, Truncate, Absent, Write, Garbled);
    ChildStep(file, Write, Garbled, Signal, Names(2));
    ChildStep(file, Signal, Names(2), ClosePipe, Names(2));
    ChildStep(file, ClosePipe, Names(2), Serve, Names(2));
  }

  lemma {:induction false} ChildStep(file: PidFile, at: ServePoint, was: PidFile, next: ServePoint, now: PidFile)
    requires LeadsTo(Boot(file), Booting(at, was)) && !at.Serve? && !at.Release?
    requires ServeProgram(2, at, was, true) == Move(Serving(next), now, Nothing)
    requires Advance(ChildAt(at), Move(Serving(next), now, Nothing), was, true) == ChildAt(next)
    ensures LeadsTo(Boot(file), Booting(next, now))
  {
    LeadsOn(Boot(file), Booting(at, was), Act(1, true, 0), Booting(next, now));
  }

  /** A call beside the daemon. */
  function Beside(call: Proc, descs: seq<nat>): Host {
    Host(Up().procs + [call], Names(2), descs, Some(0))
  }

  /** A call that has found the lock held. */
  function Asking(role: Role): Proc { NewProc(role, 3, Probing(BusyRead), None).(sawBusy := true) }

  lemma {:induction false} FindsLockHeld(role: Role)
    requires IsCall(role)
    ensures LeadsTo(Up(), Beside(Asking(role), [0, 2]))
  {
    OpensBeside(role);
    hide StartProgram, StopProgram, ServeProgram;
    var p1 := NewProc(role, 3, Probing(Probe), Some(1));
    var p2 := Asking(role).(pc := Probing(Drop(true)), fd := Some(1));
    LeadsOn(Up(), Beside(p1, [0, 2]), Act(2, true, 0), Beside(p2, [0, 2]));
    LeadsOn(Up(), Beside(p2, [0, 2]), Act(2, true, 0), Beside(Asking(role), [0, 2]));
  }

  lemma {:induction false} OpensBeside(role: Role)
    requires IsCall(role)
    ensures LeadsTo(Up(), Beside(NewProc(role, 3, Probing(Probe), Some(1)), [0, 2]))
  {
    hide StartProgram, StopProgram, ServeProgram;
    LeadsNowhere(Up());
    var p0 := NewProc(role, 3, Probing(Open), None);
    assert PidFree(Up(), 3);
    LeadsOn(Up(), Up(), Launch(role, 3), Beside(p0, [0]));
    var p1 := NewProc(role, 3, Probing(Probe), Some(1));
    LeadsOn(Up(), Beside(p0, [0]), Act(2, true, 0), Beside(p1, [0, 2]));
  }

  /** Beside the daemon a status call and a second start give its pid. */
  lemma {:induction false} DaemonIsReported()
    ensures LeadsTo(Up(), Beside(Asking(Status).(pc := Done(Running(2)), saw := Names(2)), [0, 2]))
    ensures LeadsTo(Up(), Beside(Asking(Start).(pc := Done(AlreadyRunning(2)), saw := Names(2)), [0, 2]))
  {
    FindsLockHeld(Status);
    LeadsOn(Up(), Beside(Asking(Status), [0, 2]), Act(2, true, 0),
            Beside(Asking(Status).(pc := Done(Running(2)), saw := Names(2)), [0, 2]));
    FindsLockHeld(Start);
    LeadsOn(Up(), Beside(Asking(Start), [0, 2]), Act(2, true, 0),
            Beside(Asking(Start).(pc := Done(AlreadyRunning(2)), saw := Names(2)), [0, 2]));
  }

  /** The stop that goes on with the pid it read. */
  function StopAt(pc: Pc, fd: Option<nat>): Proc {
    Asking(Stop).(pc := pc, fd := fd, saw := Names(2), termed := Some(2))
  }

  lemma {:induction false} TermSent()
    ensures LeadsTo(Up(), Beside(StopAt(Stopping(PollOpen(false), 2), None), [0, 2]))
  {
    hide StartProgram, ServeProgram;
    FindsLockHeld(Stop);
    var h1 := Beside(StopAt(Stopping(Terminate, 2), None).(termed := None), [0, 2]);
    LeadsOn(Up(), Beside(Asking(Stop), [0, 2]), Act(2, true, 0), h1);
    LeadsOn(Up(), h1, Act(2, true, 0), Beside(StopAt(Stopping(PollOpen(false), 2), None), [0, 2]));
  }

  /** The host while the daemon cleans up and after it has gone. */
  function GoingDown(child: Proc, stop: Proc, file: PidFile, descs: seq<nat>, owner: Option<nat>): Host {
    Host([Up().procs[0], child, stop], file, descs, owner)
  }

  /** The daemon heeds the signal: it removes its PID file and then releases the lock. */
  lemma {:induction false} DaemonCleansUp()
    ensures LeadsTo(Up(), GoingDown(ChildAt(Serve).(pc := Exit, fd := None),
                                    StopAt(Stopping(PollOpen(false), 2), None), Absent, [0, 2], None))
  {
    DaemonUnlinks();
    hide ProbeProgram, StartProgram, StopProgram;
    var stop := StopAt(Stopping(PollOpen(false), 2), None);
    var kid := ChildAt(Serve);
    var h := GoingDown(kid.(pc := Serving(Release)), stop, Absent, [0, 2], Some(0));
    assert !HeldBeside(h.procs, 1, Some(0));
    LeadsOn(Up(), h, Act(1, true, 0), GoingDown(kid.(pc := Exit, fd := None), stop, Absent, [0, 2], None));
  }

  lemma {:induction false} DaemonUnlinks()
    ensures LeadsTo(Up(), GoingDown(ChildAt(Serve).(pc := Serving(Release)),
                                    StopAt(Stopping(PollOpen(false), 2), None), Absent, [0, 2], Some(0)))
  {
    TermSent();
    hide ProbeProgram, StartProgram, StopProgram;
    var stop := StopAt(Stopping(PollOpen(false), 2), None);
    var kid := ChildAt(Serve);
    var h0 := GoingDown(kid, stop, Names(2), [0, 2], Some(0));
    assert h0 == Beside(stop, [0, 2]);
    var h1 := GoingDown(kid.(pc := Owned(2)), stop, Names(2), [0, 2], Some(0));
    LeadsOn(Up(), h0, Act(1, true, 0), h1);
    var h2 := GoingDown(kid.(pc := Unlink(2)), stop, Names(2), [0, 2], Some(0));
    LeadsOn(Up(), h1, Act(1, true, 0), h2);
    var h3 := GoingDown(kid.(pc := Serving(Release)), stop, Absent, [0, 2], Some(0));
    LeadsOn(Up(), h2, Act(1, true, 0), h3);
  }

  /** A daemon that heeds SIGTERM is stopped without SIGKILL, and neither PID file nor lock is left. */
  lemma {:induction false} StopSucceeds()
    ensures LeadsTo(Up(), GoingDown(ChildAt(Serve).(pc := Exit, fd := None),
                                    StopAt(Done(Stopped(2)), None), Absent, [0, 2, 2], None))
  {
    hide ProbeProgram, StartProgram, ServeProgram;
    DaemonCleansUp();
    var kid := ChildAt(Serve).(pc := Exit, fd := None);
    var h0 := GoingDown(kid, StopAt(Stopping(PollOpen(false), 2), None), Absent, [0, 2], None);
    var h1 := GoingDown(kid, StopAt(Stopping(PollProbe(false), 2), Some(2)), Absent, [0, 2, 2], None);
    LeadsOn(Up(), h0, Act(2, true, 0), h1);
    var h2 := GoingDown(kid, StopAt(Owned(2), Some(2)), Absent, [0, 2, 2], Some(2));
    LeadsOn(Up(), h1, Act(2, true, 0), h2);
    var h3 := GoingDown(kid, StopAt(Leave(Stopped(2)), Some(2)), Absent, [0, 2, 2], Some(2));
    LeadsOn(Up(), h2, Act(2, true, 0), h3);
    assert !HeldBeside(h3.procs, 2, Some(2));
    LeadsOn(Up(), h3, Act(2, true, 0), GoingDown(kid, StopAt(Done(Stopped(2)), None), Absent, [0, 2, 2], None));
  }

  /** The stop has found the lock still held and is about to see that its time is up. */
  function TimeIsUp(): Host { Beside(StopAt(Stopping(PollDrop(false, true), 2), Some(2)), [0, 2, 2]) }

  /** It has sent SIGKILL. */
  function KillSent(): Host {
    Beside(StopAt(Stopping(PollOpen(true), 2), None).(killed := Some(2)), [0, 2, 2])
  }

  /** The stop that killed the daemon, and what is left of that. */
  function Ending(pc: Pc, fd: Option<nat>, file: PidFile, owner: Option<nat>): Host {
    GoingDown(ChildAt(Serve).(life := Zombie, fd := None), StopAt(pc, fd).(killed := Some(2)), file,
              if pc == Stopping(PollOpen(true), 2) then [0, 2, 2] else [0, 2, 2, 2], owner)
  }

  /**
   A daemon that does not heed SIGTERM is killed once the time is up, and it is the stop that
   then removes the PID file the daemon has left.
   */
  lemma {:induction false} StopForces()
    ensures LeadsTo(Up(), TimeIsUp())
    ensures LeadsTo(Apply(TimeIsUp(), Act(2, false, 0)), KillSent())
    ensures LeadsTo(Apply(KillSent(), Die(1)), Ending(Done(Stopped(2)), None, Absent, None))
  {
    hide ProbeProgram, StartProgram, ServeProgram;
    TermSent();
    var h0 := Beside(StopAt(Stopping(PollOpen(false), 2), None), [0, 2]);
    var h1 := Beside(StopAt(Stopping(PollProbe(false), 2), Some(2)), [0, 2, 2]);
    LeadsOn(Up(), h0, Act(2, true, 0), h1);
    LeadsOn(Up(), h1, Act(2, true, 0), TimeIsUp());
    LateStopKills();
    ForcedStopEnds();
  }

  lemma {:induction false} LateStopKills()
    ensures LeadsTo(Apply(TimeIsUp(), Act(2, false, 0)), KillSent())
  {
    hide ProbeProgram, StartProgram, ServeProgram;
    var late := Apply(TimeIsUp(), Act(2, false, 0));
    assert late == Beside(StopAt(Stopping(ForceKill, 2), None), [0, 2, 2]);
    LeadsNowhere(late);
    LeadsOn(late, late, Act(2, true, 0), KillSent());
  }

  lemma {:induction false} ForcedStopEnds()
    ensures LeadsTo(Apply(KillSent(), Die(1)), Ending(Done(Stopped(2)), None, Absent, None))
  {
    hide ProbeProgram, StartProgram, ServeProgram;
    var dead := Apply(KillSent(), Die(1));
    assert dead == Ending(Stopping(PollOpen(true), 2), None, Names(2), None);
    LeadsNowhere(dead);
    var h1 := Ending(Stopping(PollProbe(true), 2), Some(3), Names(2), None);
    LeadsOn(dead, dead, Act(2, true, 0), h1);
    var h2 := Ending(Owned(2), Some(3), Names(2), Some(3));
    LeadsOn(dead, h1, Act(2, true, 0), h2);
    UnlinksAndLeaves(dead);
  }

  lemma {:induction false} UnlinksAndLeaves(from: Host)
    requires LeadsTo(from, Ending(Owned(2), Some(3), Names(2), Some(3)))
    ensures LeadsTo(from, Ending(Done(Stopped(2)), None, Absent, None))
  {
    hide ProbeProgram, StartProgram, StopProgram, ServeProgram;
    var h1 := Ending(Unlink(2), Some(3), Names(2), Some(3));
    LeadsOn(from, Ending(Owned(2), Some(3), Names(2), Some(3)), Act(2, true, 0), h1);
    var h2 := Ending(Leave(Stopped(2)), Some(3), Absent, Some(3));
    LeadsOn(from, h1, Act(2, true, 0), h2);
    assert !HeldBeside(h2.procs, 2, Some(3));
    LeadsOn(from, h2, Act(2, true, 0), Ending(Done(Stopped(2)), None, Absent, None));
  }
}
