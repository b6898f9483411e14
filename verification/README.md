# Verified model of oh-my-terminal

oh-my-terminal is a web terminal: a Go server that keeps tmux sessions in workspaces, and a browser client that shows
them in a tree of panes. This project models the six parts of it that hold state, concurrency or arithmetic, and proves
what each is relied upon for. `dafny verify dfyconfig.toml` checks everything.

## How the model is laid out

| files | component |
|---|---|
| `Daemon.dfy` | `--daemon`, `--stop`, `--status` and the detached child, as processes that interleave over an advisory lock, a PID file and a readiness pipe |
| `Reconnect.dfy`, `WsConnection.dfy` | the reconnecting WebSocket client: its value model with every run, and the class that updates the closure's variables |
| `Utf8.dfy`, `PtyStream.dfy` | UTF-8 well-formedness (section 4 of RFC 3629) and the loop that cuts PTY output into text frames |
| `PaneTree.dfy`, `Geometry.dfy` | the pane tree's surgery, and the rectangles a tree of panes is drawn in |
| `LayoutBlob.dfy`, `Layout.dfy`, `LayoutHook.dfy` | validation of a stored layout, the layout store over every run, and the class with its mutable fields |
| `Auth.dfy`, `SessionStore.dfy` | login sessions and the failure limiter over every run, and the class over its maps and records |
| `WorkspaceState.dfy`, `WorkspaceStore.dfy` | the workspace store as a value, and on the heap with slices that share buffers |
| `TerminalNames.dfy` | default terminal names |

A stateful component comes twice: as functions on a value, about which the theorems are proved over all runs, and as a
class with the program's fields whose methods are proved to do exactly what those functions say (`View() == ...`). The
daemon is the exception: its state is spread over several processes, so each program is a function from a process's
next step to a system call (`Daemon.ProbeProgram`, `StartProgram`, `StopProgram`, `ServeProgram`), the kernel is
`Perform`, and a run is any sequence of launches, steps, kills and reapings. A process the daemon spawns is first a
forked copy that shares the lock and runs its own program in a later step.

What the environment decides is a parameter: whether a call fails, what tmux answers, which token or id is drawn, when
a timer fires, which close code is declined, what the clock says. Time is in whole units; the layout's ratios are reals.

Facts worth knowing that came out of it:

- "Running" does not imply a daemon (`Daemon.RunningWithoutDaemon`). A probe finds the lock held with no daemon alive
  exactly when a call works under the lock without a live child, or a copy forked by a dead daemon has not reached its
  own program (`Daemon.ProbeIsWrongIff`).
- "Not running" does not imply that there is no daemon either (`Daemon.NotRunningBesideDaemon`). A stop that finds the
  lock held and then reads a PID file without a pid reports "reading daemon pid: oh-my-terminal is not running", an error
  that wraps `ErrNotRunning` (internal/daemon/daemon_unix.go:116-119). The answer is true exactly when the call's probe
  found the lock free (`Daemon.NotRunningIsTrueIffProbeWasFree`), and the other one is never given beside a daemon that
  is ready (`Daemon.NoPidMeansNotReady`).
- A start that fails releases the lock on return unless its child was killed between a fork and the exec after it; then
  the copy holds the lock until that exec (`Daemon.FailedStartLeavesNothing`). That host is reachable
  (`Daemon.FailedStartMayLeaveTheLock`), and so is the one in which nobody but such a copy is left
  (`Daemon.OrphanMayHoldTheLock`).
- The overflow branch of the PTY loop loses bytes of input that is not UTF-8 (`PtyStream.InvalidInputLosesBytes`). The
  output is the whole input exactly when, counted from the last character that ended in good order, no more than 65536
  bytes follow (`PtyStream.LosslessIff`).
- The awaiting-pong branch of the ping timer runs exactly when timers run in another order than that in which they are
  due (`Reconnect.AwaitingBranchIff`), which a suspended page may bring about (`Reconnect.AwaitingBranchReached`).
- A stored layout is accepted although ids repeat, and assigning a session to such a pane shows it twice
  (`Layout.DuplicateIdsAreAccepted`). A pane of a restored layout works exactly when no other node has its id
  (`Layout.RestoredPaneWorksIff`).
- The purge drops the partial failure count of an address that is not banned, so the failure accounting has a term for
  it (`Auth.FailuresAreAccounted`).
- The thousand candidate names are distinct exactly when the trimmed folder name has at most 59 bytes
  (`TerminalNames.CandidatesDistinctIff`), and only then do fewer than 1000 names in use always leave one free
  (`TerminalNames.SearchGuaranteeIff`). With 64 bytes or more a single name exhausts the search
  (`TerminalNames.OneNameExhausts`).
- The comment on `RenameWorkspace` promises nothing about copies, and its result indeed shares the store's buffer
  (`WorkspaceStore.RenamedIsShared`, `WorkspaceStore.SharedAfterOne`), unlike that of the three readers (`WorkspaceStore.SnapshotsStay`) and that of
  `DeleteWorkspace` (`WorkspaceStore.DeletedStays`).

## Model

| member | source | states |
|---|---|---|
| Daemon.ApplyKeeps | internal/daemon/daemon_unix.go:25-245 | every launch, system call, kill, reaping, fork and exec, in any order, keeps the protocol invariant: who may have the lock open where, what the PID file holds at each program point, what each answer says about the past, distinct pids |
| Daemon.RunKeeps | cmd/server/main.go:53-71 | the invariant holds after every run, from any PID file an earlier crash left behind |
| Daemon.NoRace | internal/daemon/daemon_unix.go:179-188 | no two live processes are ever both at a step that may change the PID file |
| Daemon.PidFileChangesOnlyUnderLock | internal/daemon/paths.go:43-82 | whichever event changes the PID file is a step of a live process that holds the lock |
| Daemon.LockHoldersAreOneFamily | internal/daemon/lock_unix.go:25-38 | processes that share the lock belong to one call: a start, the child it spawned, and copies the child forked that have not reached their own program |
| Daemon.AtMostOneDaemon | internal/daemon/daemon_unix.go:25-94 | two daemon children between spawn and lock release are the same one, and it holds the lock |
| Daemon.ReadyDaemonOwnsPidFile | internal/daemon/daemon_unix.go:208-221 | from its readiness signal to its own clean-up or death a child has bound its listener and the PID file names exactly it, even if its parent gave up waiting |
| Daemon.StartedMeansReady | internal/api/run.go:41-52 | a start that reports success has a child that had bound its listener, written its PID and signalled |
| Daemon.FailedStartLeavesNothing | internal/daemon/daemon_unix.go:84-92 | a start that gave up on its child still holds the lock when the child has been sent SIGKILL, is dead and waited for and the PID file does not name it; its return frees the lock if and only if no copy the child forked is still to exec |
| Daemon.StoppedMeansReleased | internal/daemon/daemon_unix.go:96-138 | stop reports success only while it holds the lock itself, with no daemon alive, for the pid that it read in the PID file, sent SIGTERM to and no longer finds there |
| Daemon.StopAimsIff | internal/daemon/daemon_unix.go:116-120 | for every reachable host and event: a stop turns against a process exactly by reading, after a probe that found the lock held, a PID file that names it |
| Daemon.RunningIff | internal/daemon/daemon_unix.go:140-161 | a status call answers "running" with a pid exactly by reading it there, and without one exactly if that read finds none |
| Daemon.AlreadyRunningIff | internal/daemon/daemon_unix.go:34-43 | so does a start that found the lock held |
| Daemon.ReadyDaemonIsFound | internal/daemon/daemon_unix.go:116-119 | if a daemon is ready at that read, the pid found is the daemon's |
| Daemon.SawIff | internal/daemon/daemon_unix.go:116-119 | what a call remembers of the PID file is what the file held at that read, for good |
| Daemon.StopSticksToIt | internal/daemon/daemon_unix.go:116-138 | through all of its polling, its clean-up and its answer a stop has one target, the pid it read; it has sent SIGTERM to that one before it polls, and SIGKILL to nobody else |
| Daemon.StopKeepsTarget | internal/daemon/daemon_unix.go:120-138 | no event changes the target, until the stop answers with that pid or with an error |
| Daemon.ErredIff | internal/daemon/daemon_unix.go:25-161 | a process is marked as thwarted exactly by a failed call, or a last deadline that passes, at a point where that is fatal |
| Daemon.FailedIff | internal/daemon/daemon_unix.go:25-161 | a call answers with an error if and only if it was thwarted, and a daemon that was is at its clean-up or gone |
| Daemon.StartedIff | internal/daemon/daemon_unix.go:84-94 | a start that waits reports success exactly on reading, in time, the byte its child has sent; otherwise it sets about killing the child |
| Daemon.NothingRuns | internal/daemon/daemon_unix.go:105-115 | on a host where nothing runs, with any stale PID file, a stop and a status of which nothing fails say "not running" and leave no PID file |
| Daemon.StartSucceeds | internal/daemon/daemon_unix.go:25-94 | with any stale PID file, a start of which nothing fails reports its child, which then serves, holds the lock and is named by the PID file |
| Daemon.DaemonIsReported | internal/daemon/daemon_unix.go:34-43 | beside that daemon a status call and a second start give its pid |
| Daemon.StopSucceeds | internal/daemon/daemon_unix.go:96-138 | a daemon that heeds SIGTERM is stopped without SIGKILL, and neither PID file nor lock is left |
| Daemon.StopForces | internal/daemon/daemon_unix.go:123-137 | one that does not is sent SIGKILL when the time is up, and the stop then removes the PID file it left |
| Daemon.NotRunningMeansNoDaemon | internal/daemon/daemon_unix.go:109-115 | the "not running" of a call that got the lock is given while holding it, with the PID file gone and no daemon alive |
| Daemon.NotRunningIsTrueIffProbeWasFree | internal/daemon/daemon_unix.go:105-119 | of all answers that say "not running", those given while holding the lock with the PID file gone and no daemon alive are exactly those of calls whose probe found it free; the others come from a stop |
| Daemon.NoPidIff | internal/daemon/daemon_unix.go:116-119 | a stop gives the other answer exactly by reading, after a probe that found the lock held, a PID file that names no pid |
| Daemon.SawBusyIff | internal/daemon/lock_unix.go:25-38 | a call has seen the lock held exactly if somebody owned it at the step that probed it |
| Daemon.NoPidMeansNotReady | internal/daemon/daemon_unix.go:116-119 | the other answer is never given while a daemon is ready |
| Daemon.NotRunningBesideDaemon | internal/daemon/daemon_unix.go:116-119 | a reachable host on which a stop answered "not running" beside a live daemon |
| Daemon.OrphansHoldTheLockOnlyUntilExec | internal/daemon/daemon_unix.go:163-189 | with only processes spawned by daemons left alive, however many and whenever spawned, the lock is free if and only if each of them runs its own program by now |
| Daemon.FailedStartMayLeaveTheLock | internal/daemon/daemon_unix.go:84-92 | a reachable host on which a start has reported that its child was not ready, the child is dead and waited for, and a copy it forked owns the lock |
| Daemon.OrphanMayHoldTheLock | internal/daemon/daemon_unix.go:179-188 | a reachable host on which only a process spawned by a dead daemon is alive and owns the lock, until its exec frees it |
| Daemon.LockFreeIffNobodyInside | internal/daemon/lock_unix.go:25-63 | the lock is free if and only if no live process is at a program point between its acquisition and its release, or between a fork and its exec |
| Daemon.RunningWithoutDaemon | internal/daemon/lock_unix.go:25-38 | a reachable host on which status answered "running" although only status calls were ever made |
| Daemon.ProbeIsWrongIff | internal/daemon/lock_unix.go:25-38 | the lock is held with no daemon alive if and only if a stop or status call works under it, or a start without a live child, or a copy forked by a dead daemon |
| Daemon.ProbeIsExactWhenAlone | internal/daemon/lock_unix.go:44-63 | so with no other call at the lock file and no copy left, a probe finds the lock held if and only if a daemon is alive |
| Utf8.LongestMaximal | internal/api/ws.go:174-186 | the longest complete-character prefix is at least as long as every valid prefix |
| Utf8.LongestConcat | internal/api/ws.go:145-158 | behind a valid prefix, the complete characters of a longer stream continue with those of the rest |
| Utf8.ExtensibleTail | internal/api/ws.go:174-186 | a stream that can still become valid ends in at most three bytes of an incomplete character |
| Utf8.CharLenIff | internal/api/ws.go:174-186 | a character of n bytes is at the head of a byte string if and only if those are the UTF-8 form of a Unicode scalar value, computed arithmetically from 0 to U+D7FF and U+E000 to U+10FFFF |
| Utf8.ValidIff | internal/api/ws.go:174-186 | a byte string is valid if and only if it is the concatenation of the UTF-8 forms of a sequence of scalar values |
| PtyStream.ValidUtf8Prefix | internal/api/ws.go:174-186 | the index loop returns the largest valid cut among the last three bytes and the end, or 0 |
| PtyStream.CutIsLongest | internal/api/ws.go:174-186 | the cut is valid, no longer prefix is valid when it is positive, and it is 0 only if no valid prefix reaches the last three bytes |
| PtyStream.PipePtyToSocket | internal/api/ws.go:143-172 | the loop sends exactly the frames of the reads it handled and holds back exactly their rest; it ends with the input, at the first read error, or at the first frame the socket refuses |
| PtyStream.FedIsFeedAll | internal/api/ws.go:145-172 | what the loop has done after k reads depends only on the bytes of those reads |
| PtyStream.Lossless | internal/api/ws.go:145-186 | however a stream that can still become valid is cut into reads, the frames are exactly its complete characters, the pending bytes exactly the rest, at most three, and nothing is dropped |
| PtyStream.ChunkingIndependent | internal/api/ws.go:145-172 | two ways to cut such a stream into reads give the same text and the same pending bytes |
| PtyStream.AnyStream | internal/api/ws.go:148-172 | for any bytes every frame is non-empty valid UTF-8, frames and pending bytes are a subsequence of the input with every missing byte counted, and at most 65536 bytes are pending |
| PtyStream.LosslessIff | internal/api/ws.go:145-172 | for any reads that fit the buffer, frames and pending bytes are the whole input if and only if at most 65536 bytes follow the complete characters of the reads before the first that leaves more than three bytes incomplete |
| PtyStream.InvalidInputLosesBytes | internal/api/ws.go:154-158 | n full reads of 0xFF come out whole if and only if n is at most 2 |
| PtyStream.OverflowKeepsThreeBytes | internal/api/ws.go:154-155 | three such reads leave three bytes and no frame |
| Reconnect.StepKeeps | frontend/src/lib/ws.ts:40-167 | every browser event, timer (however late), visibility change and user call keeps the connection's invariant on sockets, timers and heartbeat |
| Reconnect.RunKeeps | frontend/src/lib/ws.ts:40-167 | the invariant holds throughout every run of events, in a page that is suspended at will |
| Reconnect.NeverStuckNeverForked | frontend/src/lib/ws.ts:58-111 | unless closed or vetoed, the newest socket is either not CLOSED with its handlers and no retry pending, or CLOSED with exactly one; every earlier socket is detached and closing or closed |
| Reconnect.RetryReconnects | frontend/src/lib/ws.ts:58-63 | when the pending retry fires, a new socket is created |
| Reconnect.LostConnectionRetriesSoon | frontend/src/lib/ws.ts:78-82 | a socket that was open and is lost is retried after exactly 1 s, however long the waits before it were |
| Reconnect.ForegroundReconnects | frontend/src/lib/ws.ts:134-142 | a visibility event creates a new socket, with the backoff reset and the old socket retired, if and only if the page is visible, the connection neither closed nor vetoed, and its socket not open; otherwise it changes nothing |
| Reconnect.EndedIsFinal | frontend/src/lib/ws.ts:100-110 | after a close or a veto, no event of any later run creates a socket or a timer |
| Reconnect.CloseEndsAll | frontend/src/lib/ws.ts:154-165 | a user who closes, from outside or in any callback, leaves no timer, no listener and no current socket, and the last socket closing or closed and not heard any more |
| Reconnect.HeartbeatBound | frontend/src/lib/ws.ts:114-131 | after every run in which no timer became overdue, an OPEN socket has not gone more than 30 s without having opened or answered |
| Reconnect.HeartbeatClosesOnlySilentSockets | frontend/src/lib/ws.ts:114-131 | however late it runs, a timer closes an open socket if and only if it is one of the heartbeat and nothing has answered the last ping, which is then at least 10 s old; the pong timer is due exactly 10 s after that ping |
| Reconnect.AwaitingBranchIff | frontend/src/lib/ws.ts:117-122 | the ping timer of an open socket finds the last ping unanswered if and only if a timer is pending that was due before it |
| Reconnect.AwaitingBranchReached | frontend/src/lib/ws.ts:117-122 | a run, in a page suspended for 20 s, in which the ping timer runs first and closes the socket |
| Reconnect.PongCalms | frontend/src/lib/ws.ts:83-90 | a pong ends the waiting for it: its timer is gone, every other one stays, and no socket changes |
| Reconnect.PingArms | frontend/src/lib/ws.ts:114-129 | the ping timer of an open socket that has answered leaves exactly two timers: a pong timer due in 10 s and a ping timer due in 20 s |
| Reconnect.OneTimerOfEachKind | frontend/src/lib/ws.ts:52-56 | at most one ping timer and one pong timer are pending |
| Reconnect.Backoff | frontend/src/lib/ws.ts:58-63 | since the last reset the k-th retry waited min(1000 * 2^k, 10000) ms, the waits never decrease and lie between 1 s and 10 s |
| Reconnect.CloseVerdict | frontend/src/lib/ws.ts:100-110 | over every run, a close event of the current socket ends the connection if the user closes in its callback, is final if it is declined, and otherwise leaves one timer, a retry due exactly min(1000 * 2^k, 10000) ms later, where k counts, from the events alone, the retries since the last open or return to the foreground |
| Reconnect.RetryDueAfterDelay | frontend/src/lib/ws.ts:58-63 | every pending retry is due at the time it was armed plus the last wait |
| Reconnect.SumOfDelays | frontend/src/lib/ws.ts:58-63 | k failed retries wait 1000 * (2^min(k,4) - 1) + 10000 * max(0, k-4) ms in all |
| WsConnection.Connection.constructor | frontend/src/lib/ws.ts:40-50 | a new connection has the initial variables, its listener and its first socket |
| WsConnection.Connection.Schedule | frontend/src/lib/ws.ts:58-63 | arms the one retry timer with the present delay, unless closed |
| WsConnection.Connection.Open | frontend/src/lib/ws.ts:65-76 | detaches and closes the socket in flight before it creates the next |
| WsConnection.Connection.OnOpen | frontend/src/lib/ws.ts:78-82 | what an open event does, including a user who closes in the callback |
| WsConnection.Connection.OnMessage | frontend/src/lib/ws.ts:83-96 | what a pong and any other message do |
| WsConnection.Connection.OnClose | frontend/src/lib/ws.ts:100-110 | what a close event does: nothing more if closed, the veto, or the next retry |
| WsConnection.Connection.Tick | frontend/src/lib/ws.ts:116-129 | what the ping timer does |
| WsConnection.Connection.OnTimer | frontend/src/lib/ws.ts:114-131 | what each pending timer does when it fires |
| WsConnection.Connection.OnVisibility | frontend/src/lib/ws.ts:134-142 | returning to the foreground reopens a socket that is not open, with the backoff reset |
| WsConnection.Connection.Close | frontend/src/lib/ws.ts:154-165 | no timer, listener or socket survives the user's close |
| WsConnection.Connection.Send | frontend/src/lib/ws.ts:148-153 | sending succeeds if and only if the current socket is open |
| WsConnection.Connection.Dispatch | frontend/src/lib/ws.ts:40-167 | any event on the object is the step of the run model and keeps its invariant |
| PaneTree.FirstLeafId | frontend/src/features/split/paneTree.ts:125-129 | the loop ends at the leftmost leaf |
| PaneTree.FirstLeafFound | frontend/src/features/split/paneTree.ts:125-129 | that leaf is the first one in the order of leaves |
| PaneTree.PlacedSessionIds | frontend/src/features/split/paneTree.ts:39-51 | the walk collects exactly the sessions shown in the tree |
| PaneTree.FindLeafIn | frontend/src/features/split/paneTree.ts:53-56 | a leaf is found if and only if the tree has a leaf with that id |
| PaneTree.ReplaceAbsent | frontend/src/features/split/paneTree.ts:58-65 | replacing an id that is not there returns the same tree |
| PaneTree.ReplaceLeaf | frontend/src/features/split/paneTree.ts:58-65 | replacing a leaf by a tree with new ids exchanges exactly those ids and leaves and keeps ids distinct |
| PaneTree.ReplaceKeepsOrder | frontend/src/features/split/paneTree.ts:58-65 | the replacement's leaves take the place of the leaf in the order of leaves, and every other split keeps its place, direction and ratio |
| PaneTree.SetLeafSessions | frontend/src/features/split/paneTree.ts:79-83 | showing a new session in a leaf gains that session, loses the one displaced, and shows no session twice |
| PaneTree.RemoveAnswers | frontend/src/features/split/paneTree.ts:67-77 | removal returns null exactly for the root and the unchanged tree exactly for an unknown id |
| PaneTree.RemoveDeletesExactly | frontend/src/features/split/paneTree.ts:67-77 | removing any other node deletes it with its parent split and nothing else: every other leaf in order, every other split with its direction and ratio |
| PaneTree.CloseUndoesSplit | frontend/src/features/split/paneTree.ts:67-97 | closing the pane a split created returns exactly the tree before the split |
| PaneTree.SplitInsertsBehind | frontend/src/features/split/paneTree.ts:85-97 | splitting puts one empty leaf right behind the leaf that was split and changes no other leaf or split |
| PaneTree.SplitSessions | frontend/src/features/split/paneTree.ts:85-97 | splitting a pane changes no session and adds an empty leaf |
| PaneTree.RemoveLeaf | frontend/src/features/split/paneTree.ts:67-77 | removing a leaf other than the root removes it from the list of leaves and exactly its session from those shown |
| PaneTree.ShowWorksIff | frontend/src/features/split/paneTree.ts:58-83 | in any tree, showing a session in a pane puts it into one leaf and keeps all panes if and only if no other node has the pane's id |
| PaneTree.SetRatioSetsOne | frontend/src/features/split/paneTree.ts:99-110 | exactly the split named gets the ratio, moved to the nearest bound if it is outside 0.1 to 0.9 |
| PaneTree.SetRatioShape | frontend/src/features/split/paneTree.ts:99-110 | moving a divider changes ratios only |
| PaneTree.SameShapeObserves | frontend/src/features/split/paneTree.ts:99-110 | trees that differ in ratios only have the same ids, leaves and sessions |
| PaneTree.RemoveSessionOnly | frontend/src/features/split/paneTree.ts:112-123 | unplacing a session empties its leaf, keeps every other leaf and split in order, and returns the same tree if it was not shown |
| Geometry.LeavesTile | frontend/src/features/split/SplitView.tsx:120-137 | a point lies in the rectangle of exactly one leaf if it is in the area and of none otherwise, for all ratios in (0, 1) |
| Geometry.ChildRects | frontend/src/features/split/SplitView.tsx:120-137 | "h" puts the children side by side, the first one left, and "v" stacks them, the first one on top, with the ratio as the first one's share |
| Geometry.LeafAreaIsWhole | frontend/src/features/split/SplitView.tsx:120-137 | the areas of the leaves add up to the whole |
| Geometry.SplitHalvesOne | frontend/src/features/split/paneTree.ts:85-97 | splitting halves the leaf's own rectangle and moves no other pane |
| Geometry.CloseGrowsSibling | frontend/src/features/split/paneTree.ts:67-77 | closing gives the parent's rectangle to the sibling subtree and moves no other pane |
| Geometry.RatioMovesOnlyBelow | frontend/src/features/split/paneTree.ts:99-110 | a divider moves only what is below its split |
| Geometry.SetRatioDraggable | frontend/src/features/split/paneTree.ts:16-19 | whatever number a divider is dragged to, ratios stay between 0.1 and 0.9 |
| Geometry.NoPaneCollapses | frontend/src/features/split/paneTree.ts:8-19 | a pane at depth d keeps at least 0.1^d of the area |
| LayoutBlob.ParseOfEncode | frontend/src/features/split/useLayout.ts:187-206 | validating the blob of any tree gives that tree |
| LayoutBlob.AcceptedIsFixedPoint | frontend/src/features/split/useLayout.ts:187-206 | what an accepted blob was normalized to is accepted again, unchanged |
| LayoutBlob.RejectedIffMalformed | frontend/src/features/split/useLayout.ts:187-206 | a blob is rejected if and only if a node at some depth is malformed |
| LayoutBlob.FieldsSay | frontend/src/features/split/useLayout.ts:187-206 | an accepted object says in the named fields what its node is: leaf or split, id, session, direction, ratio (a half if there is none) and children |
| Layout.StepKeeps | frontend/src/features/split/useLayout.ts:84-156 | every layout action and every well-formed restore keeps ids distinct, the focus on a leaf, the placed set in step and sessions in one leaf |
| Layout.LayoutAgrees | frontend/src/features/split/useLayout.ts:44-49 | after every run the rendered tree is the committed one, the focus names one of its leaves, and the placed set is its sessions |
| Layout.AssignPlacesExactly | frontend/src/features/split/useLayout.ts:100-111 | assigning to a live pane adds exactly the session, drops exactly the one displaced, empties the leaf that showed the session before, keeps every other leaf and split, and focuses the pane; to a missing pane it changes nothing |
| Layout.CloseUnplacesExactly | frontend/src/features/split/useLayout.ts:120-127 | closing a live pane removes it and unplaces exactly its session, and the focus stays unless it was on that pane; closing the root leaves one empty focused leaf |
| Layout.FocusSessionFinds | frontend/src/features/split/useLayout.ts:143-156 | focusing a placed session focuses the one leaf showing it, unless that leaf's id is empty |
| Layout.EditsDoExactly | frontend/src/features/split/useLayout.ts:94-141 | over every run: splitting puts one empty leaf behind the pane and keeps the focus, a divider's ratio is set and clamped, unplacing empties exactly that session's leaf, and focusing moves the focus only |
| Layout.EveryEditSaves | frontend/src/features/split/useLayout.ts:75-92 | every assign to a live pane and every split, close, ratio and unplace leaves exactly one pending save, which carries the new committed tree |
| Layout.NothingIsLost | frontend/src/features/split/useLayout.ts:75-92 | over every run without a restore, the committed tree is the initial leaf, or what the one pending save carries, or, with none pending, what the server holds |
| Layout.ReloadShowsTheSame | frontend/src/features/split/useLayout.ts:54-92 | so a page that is restored once no save is pending shows the tree that was on the screen and its placed set |
| Layout.RestoreShowsIff | frontend/src/features/split/useLayout.ts:54-73 | a blob with a malformed node changes nothing; any other one replaces what is shown, with the focus on its first leaf, and leaves server and pending save alone |
| Layout.SaveCarriesNewest | frontend/src/features/split/useLayout.ts:75-92 | at most one save is pending and it carries the newest committed tree |
| Layout.RestoreGivesNewestCommit | frontend/src/features/split/useLayout.ts:54-92 | once no save is pending, restoring on any page gives back the newest committed tree and its placed set |
| Layout.RestoredPaneWorksIff | frontend/src/features/split/useLayout.ts:54-111 | after restoring any accepted blob, assigning a session to one of its panes shows it in exactly one leaf and loses no pane if and only if no other node has that pane's id |
| Layout.DuplicateIdsAreAccepted | frontend/src/features/split/useLayout.ts:187-206 | a blob with one id twice is accepted, and a session assigned to that pane is then shown in two leaves |
| Layout.RatiosStayDraggable | frontend/src/features/split/paneTree.ts:16-19 | ratios stay between 0.1 and 0.9 over every run whose restored layouts have such ratios |
| LayoutHook.Hook.constructor | frontend/src/features/split/useLayout.ts:44-49 | the hook starts with one focused empty leaf |
| LayoutHook.Hook.Persist | frontend/src/features/split/useLayout.ts:75-82 | replaces the pending save |
| LayoutHook.Hook.Commit | frontend/src/features/split/useLayout.ts:84-92 | sets tree, rendered tree and placed set together and schedules the save |
| LayoutHook.Hook.HasPane | frontend/src/features/split/useLayout.ts:98-98 | in any state, true if and only if the committed tree has a leaf with that id |
| LayoutHook.Hook.FocusPane | frontend/src/features/split/useLayout.ts:94-96 | moves the focus only |
| LayoutHook.Hook.AssignSession | frontend/src/features/split/useLayout.ts:100-111 | acts as the action the theorems on assigning are about |
| LayoutHook.Hook.SplitAt | frontend/src/features/split/useLayout.ts:113-118 | acts as the split action of the run model |
| LayoutHook.Hook.ClosePane | frontend/src/features/split/useLayout.ts:120-127 | acts as the close action: the root becomes a new leaf, a vanished focus moves to the first leaf |
| LayoutHook.Hook.ChangeRatio | frontend/src/features/split/useLayout.ts:129-134 | acts as the ratio action of the run model |
| LayoutHook.Hook.UnplaceSession | frontend/src/features/split/useLayout.ts:136-141 | acts as the unplace action of the run model |
| LayoutHook.Hook.FocusSession | frontend/src/features/split/useLayout.ts:143-156 | acts as the focus action and reports whether a leaf was found |
| LayoutHook.Hook.Restore | frontend/src/features/split/useLayout.ts:54-73 | a rejected blob changes nothing, an accepted one replaces tree, focus and placed set |
| LayoutHook.Hook.FireSave | frontend/src/features/split/useLayout.ts:75-82 | the timer puts the tree it carries on the server |
| LayoutHook.Hook.Dispatch | frontend/src/features/split/useLayout.ts:44-171 | any action on the object is the step of the run model and keeps its invariant |
| Auth.LiveIffUnbroken | internal/auth/auth.go:60-95 | over every run a token is live if and only if it was created, not revoked since, and no gap between its creation, its validations and now exceeds 24 h; purging makes no difference |
| Auth.ValidateIsExact | internal/auth/auth.go:73-88 | a validation answers true if and only if that history is unbroken |
| Auth.PurgeIsUnobservable | internal/auth/auth.go:142-150 | any interleaving with the purge gives the answers of never purging |
| Auth.PurgeLeavesOnly | internal/auth/auth.go:142-156 | a purge with the present time leaves exactly the tokens still alive; any purge leaves exactly the failure records whose ban has not ended by the time it read |
| Auth.FailuresAreAccounted | internal/auth/auth.go:97-156 | admitted failures are ten times the bans, plus the current count, plus counts dropped by successes and purges, each at most nine |
| Auth.BanHolds | internal/auth/auth.go:104-108 | until a ban ends every attempt is rejected, even with the right password, and the record stays untouched whatever else happens |
| Auth.AcceptedIff | internal/auth/auth.go:97-127 | over every timed history an attempt is accepted if and only if the password is correct and no ban of the address that began less than an hour earlier is in force; it is refused if only the password is wrong |
| Auth.TenthFailureBans | internal/auth/auth.go:116-126 | over every history an event starts a ban if and only if it is an admitted failure after nine in a row, that is after nine not yet answered by a ban nor dropped by a success or purge; from then on every attempt is rejected for exactly an hour |
| Auth.FailureRateIsBounded | internal/auth/auth.go:97-156 | in any window of length W at most 10 * (floor(W / 1 h) + 1) failures are admitted, plus those that successes and purges forgot, at most nine each time |
| Auth.RateWithoutResets | internal/auth/auth.go:100-127 | without such resets at most 10 * (floor(W / 1 h) + 1) |
| Auth.DropsAreCounted | internal/auth/auth.go:111-114 | every dropped count is the work of one purge or one successful login of the address |
| Auth.GuessingRate | internal/auth/auth.go:97-156 | with purges ten minutes apart, a window of length W admits at most 10 * (floor(W / 1 h) + 1) + 9 * (floor(W / 10 min) + 1 + successful logins) failures |
| SessionStore.Sessions.constructor | internal/auth/auth.go:49-58 | a new store knows no token and no failure |
| SessionStore.Sessions.Create | internal/auth/auth.go:60-71 | acts on the token map as the creation of the run model |
| SessionStore.Sessions.Validate | internal/auth/auth.go:73-88 | answers whether the token is known and not past its time, extends it by 24 h from then if so, and forgets it if not |
| SessionStore.Sessions.Revoke | internal/auth/auth.go:90-95 | acts on the token map as the revocation of the run model |
| SessionStore.Sessions.Authenticate | internal/auth/auth.go:97-127 | reports a ban if and only if the record's has not ended, accepts if and only if the password is correct and there is none, and leaves the records, updated in place, as the run model says |
| SessionStore.FailureRecord.Fail | internal/auth/auth.go:120-125 | the tenth failure starts a ban of an hour and counts anew, any other adds one, as the run model says |
| SessionStore.Sessions.AddFailure | internal/auth/auth.go:116-125 | makes or finds the record of the address and changes that one only |
| SessionStore.Sessions.PurgeExpired | internal/auth/auth.go:142-156 | drops exactly the expired tokens and the records that are not banned |
| WorkspaceState.RemoveDeletesFirst | internal/store/terminal.go:47-70 | removing a terminal deletes the first one with that id, keeps the order of the rest, and the id is gone afterwards if and only if no later terminal had it too |
| WorkspaceState.OpsAreLocal | internal/store/terminal.go:20-90 | with distinct ids, the answer to every lookup after an operation is the one before it, except for what the operation names |
| WorkspaceState.WorkspaceOps | internal/store/store.go:156-236 | the same for lookups of whole workspaces: create, delete and rename touch the one they name |
| WorkspaceState.RepliesAreHonest | internal/store/store.go:131-262 | the reply is "not found" exactly if what was named is not there, and then, as after invalid bytes, memory and file are as before; otherwise it says whether the write succeeded, and the file is the new memory or as before |
| WorkspaceState.RunKeepsWellFormed | internal/store/store.go:185-236 | over every run with fresh ids, workspace ids and the terminal ids within a workspace stay distinct |
| WorkspaceState.RemoveUndoesAdd | internal/store/terminal.go:35-70 | removing the terminal just added restores the store exactly |
| WorkspaceState.DeleteUndoesCreate | internal/store/store.go:185-221 | deleting the workspace just created restores the store exactly |
| WorkspaceState.AliveExactly | internal/store/store.go:101-129 | a terminal survives start-up exactly as often as tmux was asked about it and did not report its session gone |
| WorkspaceState.AliveAppend | internal/store/store.go:101-129 | pruning keeps the order: it distributes over concatenation |
| WorkspaceState.AliveTwice | internal/store/store.go:101-129 | a second start-up keeps everything the first one kept if and only if it finds no more sessions gone |
| WorkspaceState.PruneIsLocal | internal/store/store.go:101-129 | after start-up every lookup answers as before, except that a terminal tmux reported gone when asked about it is not found |
| WorkspaceStore.FindTerminalIn | internal/store/terminal.go:11-18 | finds the first terminal with that id, or none |
| WorkspaceStore.Append | internal/store/terminal.go:42-42 | appends in place while there is room, else in a new buffer; no other element of the old buffer changes |
| WorkspaceStore.ShiftLeft | internal/store/terminal.go:60-62 | shifting in place deletes exactly one element and leaves every slot from the last one on as it was |
| WorkspaceStore.RemoveAt | internal/store/terminal.go:59-64 | the removal in the same buffer deletes exactly the element at that place; the old slice then shows the shifted tail with its last element twice |
| WorkspaceStore.RenameAt | internal/store/terminal.go:83-85 | writing through the pointer changes two fields of one element |
| WorkspaceStore.PruneSlice | internal/store/store.go:105-123 | the filter that overwrites the buffer it reads leaves exactly the surviving terminals in order and reports whether any was dropped, whatever tmux answers each time |
| WorkspaceStore.CopyWorkspace | internal/store/store.go:178-183 | the copy has equal contents in a buffer of its own |
| WorkspaceStore.Store.Flush | internal/store/store.go:131-145 | the state file holds the memory state after a successful write and is unchanged after a failed one |
| WorkspaceStore.Store.FindWorkspaceAt | internal/store/store.go:158-165 | finds the first workspace with that id, or none |
| WorkspaceStore.Store.GetTerminal | internal/store/terminal.go:20-33 | returns what the lookup finds, or not found |
| WorkspaceStore.Store.GetWorkspace | internal/store/store.go:167-176 | returns the workspace in fresh memory, or not found |
| WorkspaceStore.Store.ListWorkspaces | internal/store/store.go:147-156 | returns all workspaces in fresh memory, no two sharing a buffer |
| WorkspaceStore.Store.CreateWorkspace | internal/store/store.go:185-199 | new memory state, reply and state file are those of the value model; the backing array may grow |
| WorkspaceStore.Store.DeleteWorkspace | internal/store/store.go:201-221 | as the value model says, in place; the buffer of what it returns belongs to no live workspace |
| WorkspaceStore.Store.RenameWorkspace | internal/store/store.go:223-236 | as the value model says; the result is the stored struct itself |
| WorkspaceStore.Store.AddTerminal | internal/store/terminal.go:35-45 | new memory state, reply and state file are those of the value model; older copies of the structs show no change |
| WorkspaceStore.Store.RemoveTerminal | internal/store/terminal.go:47-70 | as the value model says; returns the terminal a lookup found before |
| WorkspaceStore.Store.RenameTerminal | internal/store/terminal.go:72-90 | as the value model says; returns the terminal a lookup finds afterwards |
| WorkspaceStore.Store.PruneDead | internal/store/store.go:101-129 | every workspace is filtered in place, and the state file is written only if something was dropped |
| WorkspaceStore.Store.GetLayout | internal/store/store.go:238-248 | returns the stored bytes in fresh memory, or nothing if there are none |
| WorkspaceStore.Store.SetLayout | internal/store/store.go:250-262 | stores a copy of valid bytes, so the caller's buffer is not kept; invalid bytes change nothing |
| WorkspaceStore.Store.Perform | internal/store/store.go:185-262 | any operation does to memory, reply and state file what the value model says, writes only to the store's own memory, and changes what older copies of the structs show exactly as in-place renames and shifts do |
| WorkspaceStore.SnapshotsStay | internal/store/store.go:147-183 | what the three readers returned still shows the old state after any sequence of later operations |
| WorkspaceStore.DeletedStays | internal/store/store.go:201-221 | what a deletion returned still shows the deleted workspace after any sequence of later operations |
| WorkspaceStore.ScribbleOnSnapshot | internal/store/store.go:147-156 | a caller that overwrites every terminal and every workspace of the list it got does not reach the store |
| WorkspaceStore.RenamedIsShared | internal/store/store.go:223-236 | the workspace a rename returned shows a terminal name that was changed later |
| WorkspaceStore.SharedAfterOne | internal/store/store.go:223-236 | what it shows after any one later operation: renames of its terminals at once, a removal as a shift with the last terminal twice, anything else not at all |
| TerminalNames.CandidateShape | internal/tmux/tmux.go:13-23 | a candidate is the trimmed and dashed folder name, a dash and the number, cut to 64 bytes |
| TerminalNames.SpaceLenIff | internal/tmux/tmux.go:15-23 | the white space that trimming knows is the UTF-8 form of exactly the code points with Unicode's White_Space property |
| TerminalNames.TrimIsExact | internal/tmux/tmux.go:15-23 | trimming takes a run of white space from each end and leaves none to take |
| TerminalNames.SanitizedIsSafe | internal/tmux/tmux.go:13-23 | a sanitized name is the trimmed one cut to 64 bytes with a dash for each dot, colon and blank, so it has none of them |
| TerminalNames.NameReads | internal/store/terminal.go:97-114 | for a folder name without these bytes, and with room, the n-th candidate reads "<folder>-<n>" |
| TerminalNames.NamelessReads | internal/store/terminal.go:98-114 | for the base names "", "." and "/" it reads "terminal-<n>" |
| TerminalNames.CandidatesDistinctIff | internal/store/terminal.go:112-114 | the candidates for 1 to 1000 are pairwise distinct if and only if the trimmed folder name leaves room for "-1000" |
| TerminalNames.LongFolderHasOneCandidate | internal/tmux/tmux.go:15-23 | if the trimmed folder name has 64 bytes or more, all candidates are equal |
| TerminalNames.CollectTaken | internal/store/terminal.go:102-110 | the loops collect exactly the session names in the store |
| TerminalNames.DefaultTerminalName | internal/store/terminal.go:97-129 | ends at the least number that neither the store nor, when asked, tmux uses, with its name or with tmux's error; it gives up if and only if all thousand are in use |
| TerminalNames.CandidatesCount | internal/store/terminal.go:112-114 | with room, the candidates for 1 to k are k different names |
| TerminalNames.SearchSucceeds | internal/store/terminal.go:112-129 | with room and fewer than 1000 names in use, the search cannot give up |
| TerminalNames.SearchMayGiveUp | internal/store/terminal.go:112-129 | without room, fewer than 1000 names in use can make it give up, whatever tmux answers |
| TerminalNames.SearchGuaranteeIff | internal/store/terminal.go:112-129 | fewer than 1000 names in use always leave a candidate free if and only if the folder name leaves room for "-1000" |
| TerminalNames.OneNameExhausts | internal/store/terminal.go:112-129 | if the trimmed folder name has 64 bytes or more, one name in use makes the search give up |

## Left out

- The daemon is modelled on values as a step system, not as imperative code, because its processes interleave at every system call. One step is one system call, except that the fork and exec of a start's own child are one, as the copy does nothing of its own in between; a write that is cut short by a crash shows as a PID file that names nobody.
- Which process a stop's SIGKILL reaches when the pid was reused, and a forged `TH_DAEMON_CHILD` variable: the program accepts the one and does not guard against the other.
- Time in the daemon: deadlines and poll intervals may pass at any step, so that a start or stop comes to an end is not stated.
- Parsing of the PID file's text: a file either names a positive pid or does not.
- React rendering, the pixel width of dividers, HTTP routing and the WebSocket upgrade, tmux, the PTY, file uploads and system statistics.
- Object identity in the pane tree: trees are values, so that an unchanged subtree is the very same object is not stated; `removeNode`'s answer "the tree I was given" is kept apart from the others.
- JSON text: messages and layouts are values, so byte equality of the stored layout after a server restart is not stated.
- Password hashing and randomness: a comparison result, fresh tokens and fresh ids are inputs. That drawing an id can fail is not modelled.
- Ratios that are NaN or infinite: ratios are reals.
- The length of the layout's debounce delay: a pending save goes out some time later.
- Layout.RestoreGivesNewestCommit: asks that no save is pending, and a save reaches the server when its timer fires, because the client guards neither against a restore that overtakes a pending save nor against two saves overtaking each other on the network.
- Reconnect.HeartbeatBound: asks for timers that run when they are due, which a browser that suspends a page does not keep to; all other results on the connection do without.
- Recovery after a failed write of the state file: memory is then ahead of the file, and nothing is claimed until the next successful write.
- Reading the state file at start-up: the store starts empty or from the state a caller has.
- TerminalNames.DefaultTerminalName: only names already in the store when the search begins count as taken, because the lock is released before tmux is asked.
- Reconnect.NeverStuckNeverForked: user callbacks do not throw. An `onClose` that throws leaves the close handler before the retry is scheduled (frontend/src/lib/ws.ts:100-110).
- WsConnection.Connection.OnClose: likewise, the user's `onClose` returns.
- Layout.LayoutAgrees: the model renders in the step that commits, so a rendering that lags behind the committed tree is not covered; `HasPane` is about the committed tree and does not depend on it.
- Auth.GuessingRate: takes it that purges are at least ten minutes apart, as the janitor's ticker means them to be; a purge delayed past the next tick may be followed by another one sooner.
- Whether `SanitizeSessionName` is idempotent: it is not when the cut at 64 bytes leaves white space other than a blank at the end.
- The mutexes of the stores and the login limiter: each method is one atomic step; the purge may use a time read before it got the lock.
- Capacities: the growth policy of `append` is any larger capacity, and slots behind a slice's length hold arbitrary values.
- Message payloads, `onError` and the close codes the client sends: they do not influence the connection's state.
