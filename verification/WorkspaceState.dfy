/**
 The workspace store as a value: what each operation does to the list of workspaces, and
 what a later lookup finds.  The heap version, with Go's slices, is in WorkspaceStore.dfy.
 */
module WorkspaceState {
  import opened Wrappers
  import opened Utf8

  datatype Terminal = Terminal(id: string, name: string, session: string)
  datatype Entry = Entry(id: string, name: string, path: string, terminals: seq<Terminal>)
  datatype State = State(workspaces: seq<Entry>, layout: seq<byte>)

  /** What tmux answers about a session: it exists, it does not, or the call failed. */
  datatype Presence = Present | Gone | Unknown

  datatype Op =
    | CreateWorkspace(id: string, name: string, path: string)
    | DeleteWorkspace(ws: string)
    | RenameWorkspace(ws: string, name: string)
    | AddTerminal(ws: string, terminal: Terminal)
    | RemoveTerminal(ws: string, tm: string)
    | RenameTerminal(ws: string, tm: string, name: string, session: string)
    | SetLayout(raw: seq<byte>, valid: bool)

  datatype Reply = Done | NotFound | InvalidLayout | FlushFailed

  // ---------- Searching ----------

  /** The position of the first terminal with this id, or the length. */
  function TerminalIndex(ts: seq<Terminal>, id: string): (i: nat)
    ensures i <= |ts|
    ensures i < |ts| ==> ts[i].id == id
    ensures forall j :: 0 <= j < i ==> ts[j].id != id
  {
    if |ts| == 0 || ts[0].id == id then 0 else 1 + TerminalIndex(ts[1..], id)
  }

  function WorkspaceIndex(ws: seq<Entry>, id: string): (i: nat)
    ensures i <= |ws|
    ensures i < |ws| ==> ws[i].id == id
    ensures forall j :: 0 <= j < i ==> ws[j].id != id
  {
    if |ws| == 0 || ws[0].id == id then 0 else 1 + WorkspaceIndex(ws[1..], id)
  }

  function Without<T>(s: seq<T>, i: nat): (t: seq<T>)
    requires i < |s|
    ensures |t| == |s| - 1
  {
    s[..i] + s[i + 1..]
  }

  function FindTerminal(ts: seq<Terminal>, id: string): Option<Terminal> {
    var i := TerminalIndex(ts, id);
    if i < |ts| then Some(ts[i]) else None
  }

  function FindWorkspace(ws: seq<Entry>, id: string): Option<Entry> {
    var i := WorkspaceIndex(ws, id);
    if i < |ws| then Some(ws[i]) else None
  }

  /** What a read of one terminal finds. */
  function Lookup(ws: seq<Entry>, wsId: string, tmId: string): Option<Terminal> {
    match FindWorkspace(ws, wsId)
    case None => None
    case Some(w) => FindTerminal(w.terminals, tmId)
  }

  // ---------- Operations ----------

  /** What a removal at `k` leaves in the buffer: the shifted tail, and the last element still in its old place. */
  function Shifted(ts: seq<Terminal>, k: nat): (r: seq<Terminal>)
    requires k < |ts|
    ensures |r| == |ts|
  {
    Without(ts, k) + [ts[|ts| - 1]]
  }

  function WithTerminals(ws: seq<Entry>, i: nat, ts: seq<Terminal>): (r: seq<Entry>)
    requires i < |ws|
    ensures |r| == |ws|
  {
    ws[i := ws[i].(terminals := ts)]
  }

  /**
   What the first `|ts|` places of a terminal buffer hold after an operation in place: a
   removal shifts the tail and leaves the last element standing twice.
   */
  function InPlace(ts: seq<Terminal>, op: Op): (r: seq<Terminal>)
    ensures |r| == |ts|
  {
    match op
    case RemoveTerminal(_, tm) =>
      var k := TerminalIndex(ts, tm);
      if k < |ts| then Shifted(ts, k) else ts
    case RenameTerminal(_, tm, name, session) =>
      var k := TerminalIndex(ts, tm);
      if k < |ts| then ts[k := ts[k].(name := name, session := session)] else ts
    case _ => ts
  }

  /** What the workspace structs from before an operation show after it, in the buffers they name. */
  function InBuffers(ws: seq<Entry>, op: Op): (r: seq<Entry>)
    ensures |r| == |ws|
  {
    if op.RemoveTerminal? || op.RenameTerminal? then
      var i := WorkspaceIndex(ws, op.ws);
      if i < |ws| then WithTerminals(ws, i, InPlace(ws[i].terminals, op)) else ws
    else ws
  }

  function OnTerminals(ts: seq<Terminal>, op: Op): seq<Terminal> {
    match op
    case AddTerminal(_, t) => ts + [t]
    case RemoveTerminal(_, tm) =>
      var k := TerminalIndex(ts, tm);
      if k < |ts| then Without(ts, k) else ts
    case RenameTerminal(_, tm, name, session) =>
      var k := TerminalIndex(ts, tm);
      if k < |ts| then ts[k := ts[k].(name := name, session := session)] else ts
    case _ => ts
  }

  function OnWorkspaces(ws: seq<Entry>, op: Op): seq<Entry> {
    if op.CreateWorkspace? then ws + [Entry(op.id, op.name, op.path, [])]
    else if op.SetLayout? || WorkspaceIndex(ws, op.ws) == |ws| then ws
    else
      var i := WorkspaceIndex(ws, op.ws);
      if op.DeleteWorkspace? then Without(ws, i)
      else if op.RenameWorkspace? then ws[i := ws[i].(name := op.name)]
      else ws[i := ws[i].(terminals := OnTerminals(ws[i].terminals, op))]
  }

  function Apply(s: State, op: Op): State {
    State(OnWorkspaces(s.workspaces, op),
          if op.SetLayout? && op.valid then op.raw else s.layout)
  }

  /** What the caller is told; `io` is whether the write of the state file succeeds. */
  function ReplyOf(s: State, op: Op, io: bool): Reply {
    if op.SetLayout? && !op.valid then InvalidLayout
    else if op.SetLayout? || op.CreateWorkspace? then Flushed(io)
    else
      match FindWorkspace(s.workspaces, op.ws)
      case None => NotFound
      case Some(w) =>
        if (op.RemoveTerminal? || op.RenameTerminal?) && FindTerminal(w.terminals, op.tm).None? then NotFound
        else Flushed(io)
  }

  function Flushed(io: bool): Reply { if io then Done else FlushFailed }

  /** The state file afterwards: memory if the write happened and succeeded, else what it was. */
  function DiskAfter(s: State, disk: State, op: Op, io: bool): State {
    if ReplyOf(s, op, io).Done? then Apply(s, op) else disk
  }

  /**
   The terminals kept on start-up: those tmux has or could not be asked about.  Every
   terminal is asked about in turn, and `answers[k]` is what tmux said about number `k`.
   */
  function Alive(ts: seq<Terminal>, answers: seq<Presence>): (r: seq<Terminal>)
    requires |answers| == |ts|
    ensures |r| <= |ts|
    ensures |r| == |ts| ==> r == ts
  {
    if |ts| == 0 then ts
    else
      var n := |ts| - 1;
      Alive(ts[..n], answers[..n]) + Kept(ts[n], answers[n])
  }

  function Kept(t: Terminal, answer: Presence): seq<Terminal> { if answer.Gone? then [] else [t] }

  /** One list of answers for each workspace, one answer for each of its terminals. */
  predicate Fits(ws: seq<Entry>, answers: seq<seq<Presence>>) {
    |answers| == |ws| && forall i :: 0 <= i < |ws| ==> |answers[i]| == |ws[i].terminals|
  }

  function Pruned(ws: seq<Entry>, answers: seq<seq<Presence>>): (r: seq<Entry>)
    requires Fits(ws, answers)
    ensures |r| == |ws|
    ensures forall i :: 0 <= i < |ws| ==> r[i] == ws[i].(terminals := Alive(ws[i].terminals, answers[i]))
  {
    seq(|ws|, i requires 0 <= i < |ws| => ws[i].(terminals := Alive(ws[i].terminals, answers[i])))
  }

  // ---------- Distinct ids ----------

  predicate DistinctTerminals(ts: seq<Terminal>) {
    forall i, j :: 0 <= i < j < |ts| ==> ts[i].id != ts[j].id
  }

  predicate DistinctWorkspaces(ws: seq<Entry>) {
    forall i, j :: 0 <= i < j < |ws| ==> ws[i].id != ws[j].id
  }

  predicate WellFormed(ws: seq<Entry>) {
    DistinctWorkspaces(ws) && forall i :: 0 <= i < |ws| ==> DistinctTerminals(ws[i].terminals)
  }

  /** New ids are not in use. */
  predicate Fresh(ws: seq<Entry>, op: Op) {
    match op
    case CreateWorkspace(id, _, _) => FindWorkspace(ws, id).None?
    case AddTerminal(w, t) => Lookup(ws, w, t.id).None?
    case _ => true
  }

  /** The index of an element whose id is at `k` and at no earlier place is `k`. */
  lemma {:induction false} TerminalIndexIs(ts: seq<Terminal>, k: nat, id: string)
    requires k <= |ts| && (k < |ts| ==> ts[k].id == id)
    requires forall j :: 0 <= j < k ==> ts[j].id != id
    ensures TerminalIndex(ts, id) == k
  {
    hide TerminalIndex;
    assert TerminalIndex(ts, id) <= k;
  }

  lemma {:induction false} WorkspaceIndexIs(ws: seq<Entry>, k: nat, id: string)
    requires k <= |ws| && (k < |ws| ==> ws[k].id == id)
    requires forall j :: 0 <= j < k ==> ws[j].id != id
    ensures WorkspaceIndex(ws, id) == k
  {
    hide WorkspaceIndex;
    assert WorkspaceIndex(ws, id) <= k;
  }

  lemma {:induction false} WrittenIf(s: State, disk: State, op: Op, io: bool)
    ensures ReplyOf(s, op, io) == Flushed(io) ==> DiskAfter(s, disk, op, io) == if io then Apply(s, op) else disk
    ensures ReplyOf(s, op, io) == NotFound ==> DiskAfter(s, disk, op, io) == disk
  {
  }

  predicate EditsTerminals(op: Op) { op.AddTerminal? || op.RemoveTerminal? || op.RenameTerminal? }

  /** What an operation names is there, as far as it has to be. */
  ghost predicate Addressed(ws: seq<Entry>, op: Op) {
    if op.CreateWorkspace? || op.SetLayout? then true
    else if op.RemoveTerminal? || op.RenameTerminal? then Lookup(ws, op.ws, op.tm).Some?
    else exists i :: 0 <= i < |ws| && ws[i].id == op.ws
  }

  /**
   The caller is told the truth: "not found" exactly if what it named is not there, and then, as
   after invalid bytes, neither memory nor file changes.  A failed write leaves the change in
   memory only.
   */
  lemma {:induction false} RepliesAreHonest(s: State, disk: State, op: Op, io: bool)
    ensures var r, file := ReplyOf(s, op, io), DiskAfter(s, disk, op, io);
            && (r == InvalidLayout <==> op.SetLayout? && !op.valid)
            && (r == NotFound <==> !Addressed(s.workspaces, op))
            && (r == Done || r == FlushFailed ==> (r == Done <==> io))
            && (r == Done ==> file == Apply(s, op))
            && (r != Done ==> file == disk)
            && (r == NotFound || r == InvalidLayout ==> Apply(s, op) == s)
            && Apply(s, op).layout == if op.SetLayout? && op.valid then op.raw else s.layout
  {
    if EditsTerminals(op) && !Addressed(s.workspaces, op) {
      NotThere(s, op, io);
    }
  }

  /** An operation on a terminal that is not there, for want of the workspace or of the terminal. */
  lemma {:induction false} NotThere(s: State, op: Op, io: bool)
    requires EditsTerminals(op)
    requires var i := WorkspaceIndex(s.workspaces, op.ws);
             || i == |s.workspaces|
             || (!op.AddTerminal? && FindTerminal(s.workspaces[i].terminals, op.tm).None?)
    ensures Apply(s, op) == s && ReplyOf(s, op, io) == NotFound && InBuffers(s.workspaces, op) == s.workspaces
  {
    var i := WorkspaceIndex(s.workspaces, op.ws);
    if i < |s.workspaces| {
      assert s.workspaces[i := s.workspaces[i]] == s.workspaces;
    }
  }

  lemma {:induction false} AdditionAt(s: State, wsId: string, t: Terminal, io: bool, i: nat)
    requires i == WorkspaceIndex(s.workspaces, wsId) < |s.workspaces|
    ensures var w, op := s.workspaces[i], AddTerminal(wsId, t);
            && Apply(s, op) == s.(workspaces := WithTerminals(s.workspaces, i, w.terminals + [t]))
            && ReplyOf(s, op, io) == Flushed(io) && InBuffers(s.workspaces, op) == s.workspaces
  {
  }

  /** A removal at place `k` of workspace `i`, in the lists and in the buffers below them. */
  lemma {:induction false} RemovalAt(s: State, wsId: string, tm: string, io: bool, i: nat, k: nat)
    requires i == WorkspaceIndex(s.workspaces, wsId) < |s.workspaces|
    requires k == TerminalIndex(s.workspaces[i].terminals, tm) < |s.workspaces[i].terminals|
    ensures var w, op := s.workspaces[i], RemoveTerminal(wsId, tm);
            && Apply(s, op) == s.(workspaces := WithTerminals(s.workspaces, i, Without(w.terminals, k)))
            && ReplyOf(s, op, io) == Flushed(io) && Lookup(s.workspaces, wsId, tm) == Some(w.terminals[k])
            && InBuffers(s.workspaces, op) == WithTerminals(s.workspaces, i, Shifted(w.terminals, k))
  {
  }

  /** The same for a rename, which the lists and the buffers show alike. */
  lemma {:induction false} RenamingAt(
      s: State, wsId: string, tm: string, name: string, session: string, io: bool, i: nat, k: nat)
    requires i == WorkspaceIndex(s.workspaces, wsId) < |s.workspaces|
    requires k == TerminalIndex(s.workspaces[i].terminals, tm) < |s.workspaces[i].terminals|
    ensures var w, op := s.workspaces[i], RenameTerminal(wsId, tm, name, session);
            var t := w.terminals[k].(name := name, session := session);
            && Apply(s, op) == s.(workspaces := WithTerminals(s.workspaces, i, w.terminals[k := t]))
            && ReplyOf(s, op, io) == Flushed(io) && Lookup(Apply(s, op).workspaces, wsId, tm) == Some(t)
            && InBuffers(s.workspaces, op) == Apply(s, op).workspaces
  {
    hide WorkspaceIndex, TerminalIndex;
    LookupAt(Apply(s, RenameTerminal(wsId, tm, name, session)).workspaces, wsId, tm, i, k);
  }

  lemma {:induction false} CreateAppends(s: State, id: string, name: string, path: string, io: bool)
    ensures Apply(s, CreateWorkspace(id, name, path)) == s.(workspaces := s.workspaces + [Entry(id, name, path, [])])
    ensures ReplyOf(s, CreateWorkspace(id, name, path), io) == Flushed(io)
  {
  }

  lemma {:induction false} DeleteAt(s: State, id: string, io: bool, i: nat)
    requires i == WorkspaceIndex(s.workspaces, id)
    ensures i == |s.workspaces| ==> Apply(s, DeleteWorkspace(id)) == s
    ensures i == |s.workspaces| ==> ReplyOf(s, DeleteWorkspace(id), io) == NotFound
    ensures i < |s.workspaces| ==> Apply(s, DeleteWorkspace(id)) == s.(workspaces := Without(s.workspaces, i))
    ensures i < |s.workspaces| ==> ReplyOf(s, DeleteWorkspace(id), io) == Flushed(io)
  {
  }

  lemma {:induction false} LookupAt(ws: seq<Entry>, wsId: string, tmId: string, i: nat, k: nat)
    requires i < |ws| && ws[i].id == wsId && forall j :: 0 <= j < i ==> ws[j].id != wsId
    requires k < |ws[i].terminals| && ws[i].terminals[k].id == tmId
    requires forall j :: 0 <= j < k ==> ws[i].terminals[j].id != tmId
    ensures Lookup(ws, wsId, tmId) == Some(ws[i].terminals[k])
  {
    WorkspaceIndexIs(ws, i, wsId);
    TerminalIndexIs(ws[i].terminals, k, tmId);
  }

  /** What one operation does to the buffer of the first workspace called `wsId`, which may just have been renamed. */
  lemma {:induction false} BufferOfRenamed(ws: seq<Entry>, wsId: string, name: string, op: Op)
    requires FindWorkspace(ws, wsId).Some?
    ensures var renamed := OnWorkspaces(ws, RenameWorkspace(wsId, name));
            var i := WorkspaceIndex(renamed, wsId);
            var w := FindWorkspace(ws, wsId).value.(name := name);
            && i < |renamed| && renamed[i] == w
            && InBuffers(renamed, op)[i] == w.(terminals := SharedAfter(w.terminals, wsId, op))
  {
    hide WorkspaceIndex, InPlace;
    var i := WorkspaceIndex(ws, wsId);
    var renamed := OnWorkspaces(ws, RenameWorkspace(wsId, name));
    WorkspaceIndexIs(renamed, i, wsId);
    if op.RemoveTerminal? || op.RenameTerminal? {
      assert WorkspaceIndex(renamed, op.ws) == i <==> op.ws == wsId;
    }
  }

  /**
   The terminals somebody sees who shares the buffer of workspace `wsId`: renames at once,
   removals as a shift that leaves the last element standing twice, anything else not at all.
   */
  function SharedAfter(ts: seq<Terminal>, wsId: string, op: Op): seq<Terminal> {
    if (op.RemoveTerminal? || op.RenameTerminal?) && op.ws == wsId then InPlace(ts, op) else ts
  }

  // ---------- Removal ----------

  /**
   Removing a terminal deletes one element, the first with that id, and keeps the order of
   the rest; the id is gone afterwards exactly when no later terminal carried it too.
   */
  lemma {:induction false} RemoveDeletesFirst(ts: seq<Terminal>, ws: string, tm: string)
    requires FindTerminal(ts, tm).Some?
    ensures var k := TerminalIndex(ts, tm); var r := OnTerminals(ts, RemoveTerminal(ws, tm));
            && |r| == |ts| - 1 && r[..k] == ts[..k] && r[k..] == ts[k + 1..]
            && (FindTerminal(r, tm).None? <==> forall j :: k < j < |ts| ==> ts[j].id != tm)
  {
    hide TerminalIndex;
    var k := TerminalIndex(ts, tm);
    var r := OnTerminals(ts, RemoveTerminal(ws, tm));
    if FindTerminal(r, tm).None? {
      forall j | k < j < |ts| ensures ts[j].id != tm {
        assert r[j - 1] == ts[j];
      }
    }
    if forall j :: k < j < |ts| ==> ts[j].id != tm {
      assert forall j :: 0 <= j < |r| ==> r[j].id != tm;
      TerminalIndexIs(r, |r|, tm);
    }
  }

  /** What a terminal operation does to the terminals of its workspace, as lookups see it. */
  function TerminalAnswer(ts: seq<Terminal>, op: Op, id: string): Option<Terminal> {
    var before := FindTerminal(ts, id);
    match op
    case AddTerminal(_, t) => if before.None? && id == t.id then Some(t) else before
    case RemoveTerminal(_, tm) => if id == tm then None else before
    case RenameTerminal(_, tm, name, session) =>
      if id == tm && before.Some? then Some(before.value.(name := name, session := session)) else before
    case _ => before
  }

  lemma {:induction false} TerminalOps(ts: seq<Terminal>, op: Op, id: string)
    requires DistinctTerminals(ts)
    ensures FindTerminal(OnTerminals(ts, op), id) == TerminalAnswer(ts, op, id)
  {
    hide TerminalIndex;
    var r := OnTerminals(ts, op);
    var i := TerminalIndex(ts, id);
    match op
    case AddTerminal(_, t) =>
      TerminalIndexIs(r, if i < |ts| || id == t.id then i else |r|, id);
    case RemoveTerminal(_, tm) =>
      var k := TerminalIndex(ts, tm);
      if k < |ts| {
        if id == tm || i == |ts| {
          TerminalIndexIs(r, |r|, id);
        } else {
          TerminalIndexIs(r, if i < k then i else i - 1, id);
        }
      }
    case RenameTerminal(_, tm, _, _) =>
      TerminalIndexIs(r, i, id);
    case _ =>
  }

  /** What any operation does to a lookup of one workspace. */
  function WorkspaceAnswer(ws: seq<Entry>, op: Op, id: string): Option<Entry> {
    var before := FindWorkspace(ws, id);
    match op
    case CreateWorkspace(w, name, path) =>
      if before.None? && id == w then Some(Entry(w, name, path, [])) else before
    case DeleteWorkspace(w) => if id == w then None else before
    case RenameWorkspace(w, name) =>
      if id == w && before.Some? then Some(before.value.(name := name)) else before
    case SetLayout(_, _) => before
    case _ =>
      if id == op.ws && before.Some?
      then Some(before.value.(terminals := OnTerminals(before.value.terminals, op)))
      else before
  }

  lemma {:induction false} DeleteForgetsOne(ws: seq<Entry>, k: nat, id: string)
    requires DistinctWorkspaces(ws) && k < |ws|
    ensures FindWorkspace(Without(ws, k), id) == if id == ws[k].id then None else FindWorkspace(ws, id)
  {
    hide WorkspaceIndex;
    var r := Without(ws, k);
    var i := WorkspaceIndex(ws, id);
    if id == ws[k].id || i == |ws| {
      WorkspaceIndexIs(r, |r|, id);
    } else {
      WorkspaceIndexIs(r, if i < k then i else i - 1, id);
    }
  }

  lemma {:induction false} UpdateChangesOne(ws: seq<Entry>, k: nat, w: Entry, id: string)
    requires DistinctWorkspaces(ws) && k < |ws| && w.id == ws[k].id
    ensures FindWorkspace(ws[k := w], id) == if id == w.id then Some(w) else FindWorkspace(ws, id)
  {
    hide WorkspaceIndex;
    WorkspaceIndexIs(ws[k := w], if id == w.id then k else WorkspaceIndex(ws, id), id);
  }

  lemma {:induction false} CreateFindsOne(ws: seq<Entry>, w: Entry, id: string)
    ensures var before := FindWorkspace(ws, id);
            FindWorkspace(ws + [w], id) == if before.None? && id == w.id then Some(w) else before
  {
    hide WorkspaceIndex;
    var i := WorkspaceIndex(ws, id);
    WorkspaceIndexIs(ws + [w], if i < |ws| || id == w.id then i else |ws| + 1, id);
  }

  lemma {:induction false} WorkspaceOps(ws: seq<Entry>, op: Op, id: string)
    requires DistinctWorkspaces(ws)
    ensures FindWorkspace(OnWorkspaces(ws, op), id) == WorkspaceAnswer(ws, op, id)
  {
    hide WorkspaceIndex, OnTerminals;
    if op.CreateWorkspace? {
      CreateFindsOne(ws, Entry(op.id, op.name, op.path, []), id);
    } else if !op.SetLayout? {
      var k := WorkspaceIndex(ws, op.ws);
      if k < |ws| {
        if op.DeleteWorkspace? {
          DeleteForgetsOne(ws, k, id);
        } else {
          UpdateChangesOne(ws, k, OnWorkspaces(ws, op)[k], id);
        }
      }
    }
  }

  /** The terminal a lookup finds after an operation, in terms of the lookups before it. */
  function LookupAnswer(ws: seq<Entry>, op: Op, wsId: string, tmId: string): Option<Terminal> {
    var before := Lookup(ws, wsId, tmId);
    var known := FindWorkspace(ws, wsId).Some?;
    match op
    case DeleteWorkspace(w) => if wsId == w then None else before
    case AddTerminal(w, t) => if wsId == w && tmId == t.id && known && before.None? then Some(t) else before
    case RemoveTerminal(w, tm) => if wsId == w && tmId == tm then None else before
    case RenameTerminal(w, tm, name, session) =>
      if wsId == w && tmId == tm && before.Some? then Some(before.value.(name := name, session := session)) else before
    case _ => before
  }

  /**
   Every operation changes the lookups it names and no other: in a well-formed store the
   answer to every possible read after an operation follows from the answer before it.
   */
  lemma {:induction false} OpsAreLocal(ws: seq<Entry>, op: Op, wsId: string, tmId: string)
    requires WellFormed(ws)
    ensures Lookup(OnWorkspaces(ws, op), wsId, tmId) == LookupAnswer(ws, op, wsId, tmId)
  {
    hide WorkspaceIndex, TerminalIndex, OnTerminals, OnWorkspaces;
    WorkspaceOps(ws, op, wsId);
    match FindWorkspace(ws, wsId)
    case Some(w) => TerminalOps(w.terminals, op, tmId);
    case None =>
  }

  // ---------- Runs ----------

  function Run(ws: seq<Entry>, ops: seq<Op>): seq<Entry> {
    if |ops| == 0 then ws else OnWorkspaces(Run(ws, ops[..|ops| - 1]), ops[|ops| - 1])
  }

  /** Every id handed out in the run was unused at that point. */
  ghost predicate FreshRun(ws: seq<Entry>, ops: seq<Op>) {
    forall k :: 0 <= k < |ops| ==> Fresh(Run(ws, ops[..k]), ops[k])
  }

  lemma {:induction false} TerminalsStayDistinct(ts: seq<Terminal>, op: Op)
    requires DistinctTerminals(ts)
    requires op.AddTerminal? ==> FindTerminal(ts, op.terminal.id).None?
    ensures DistinctTerminals(OnTerminals(ts, op))
  {
    hide TerminalIndex;
  }

  lemma {:induction false} OpKeepsWellFormed(ws: seq<Entry>, op: Op)
    requires WellFormed(ws) && Fresh(ws, op)
    ensures WellFormed(OnWorkspaces(ws, op))
  {
    hide WorkspaceIndex, TerminalIndex, OnTerminals;
    if !op.CreateWorkspace? && !op.SetLayout? {
      var i := WorkspaceIndex(ws, op.ws);
      if i < |ws| {
        TerminalsStayDistinct(ws[i].terminals, op);
      }
    }
  }

  /** Over every run with fresh ids, ids stay distinct, so the locality of every operation applies throughout. */
  lemma {:induction false} RunKeepsWellFormed(ws: seq<Entry>, ops: seq<Op>)
    requires WellFormed(ws) && FreshRun(ws, ops)
    ensures WellFormed(Run(ws, ops))
    decreases |ops|
  {
    hide WellFormed, Fresh, OnWorkspaces;
    if |ops| == 0 {
    } else {
      var n := |ops| - 1;
      var front := ops[..n];
      assert FreshRun(ws, front) by {
        forall k | 0 <= k < n ensures Fresh(Run(ws, front[..k]), front[k]) {
          assert front[..k] == ops[..k];
        }
      }
      RunKeepsWellFormed(ws, front);
      assert Fresh(Run(ws, front), ops[n]);
      OpKeepsWellFormed(Run(ws, front), ops[n]);
    }
  }

  /** Removing what was just added, or deleting what was just created, restores the store exactly. */
  lemma {:induction false} RemoveUndoesAdd(ws: seq<Entry>, wsId: string, t: Terminal)
    requires FindWorkspace(ws, wsId).Some? && Lookup(ws, wsId, t.id).None?
    ensures OnWorkspaces(OnWorkspaces(ws, AddTerminal(wsId, t)), RemoveTerminal(wsId, t.id)) == ws
  {
    hide WorkspaceIndex, TerminalIndex;
    var i := WorkspaceIndex(ws, wsId);
    var ts := ws[i].terminals;
    var added := OnWorkspaces(ws, AddTerminal(wsId, t));
    WorkspaceIndexIs(added, i, wsId);
    TerminalIndexIs(ts + [t], |ts|, t.id);
    assert Without(ts + [t], |ts|) == ts;
    assert added[i := ws[i]] == ws;
  }

  lemma {:induction false} DeleteUndoesCreate(ws: seq<Entry>, id: string, name: string, path: string)
    requires FindWorkspace(ws, id).None?
    ensures OnWorkspaces(OnWorkspaces(ws, CreateWorkspace(id, name, path)), DeleteWorkspace(id)) == ws
  {
    hide WorkspaceIndex;
    var made := OnWorkspaces(ws, CreateWorkspace(id, name, path));
    WorkspaceIndexIs(made, |ws|, id);
    assert Without(made, |ws|) == ws;
  }

  // ---------- Pruning ----------

  lemma {:induction false} AliveNone(ts: seq<Terminal>, answers: seq<Presence>)
    requires |answers| == |ts| == 0
    ensures Alive(ts, answers) == []
  {
  }

  lemma {:induction false} AliveLast(ts: seq<Terminal>, answers: seq<Presence>)
    requires |answers| == |ts| > 0
    ensures Alive(ts, answers) == Alive(ts[..|ts| - 1], answers[..|ts| - 1]) + Kept(ts[|ts| - 1], answers[|ts| - 1])
  {
  }

  /** Pruning keeps the order: what it makes of a list is what it makes of the parts, one after the other. */
  lemma {:induction false} AliveAppend(a: seq<Terminal>, b: seq<Terminal>, x: seq<Presence>, y: seq<Presence>)
    requires |x| == |a| && |y| == |b|
    ensures Alive(a + b, x + y) == Alive(a, x) + Alive(b, y)
    decreases |b|
  {
    hide Alive;
    if |b| == 0 {
      assert a + b == a && x + y == x;
      AliveNone(b, y);
    } else {
      var n := |b| - 1;
      assert (a + b)[..|a + b| - 1] == a + b[..n] && (x + y)[..|x + y| - 1] == x + y[..n];
      AliveAppend(a, b[..n], x, y[..n]);
      AliveLast(a + b, x + y);
      AliveLast(b, y);
    }
  }

  /** The places at which terminal `t` stands and tmux did not report its session gone. */
  function Survivals(ts: seq<Terminal>, answers: seq<Presence>, t: Terminal): set<int>
    requires |answers| == |ts|
  {
    set k | 0 <= k < |ts| && ts[k] == t && !answers[k].Gone?
  }

  /** Every terminal survives exactly as often as tmux did not report its session gone. */
  lemma {:induction false} AliveExactly(ts: seq<Terminal>, answers: seq<Presence>, t: Terminal)
    requires |answers| == |ts|
    ensures multiset(Alive(ts, answers))[t] == |Survivals(ts, answers, t)|
  {
    hide Alive, Kept;
    if |ts| == 0 {
      AliveNone(ts, answers);
    } else {
      hide Survivals;
      var n := |ts| - 1;
      AliveExactly(ts[..n], answers[..n], t);
      AliveLast(ts, answers);
      CountAppend(Alive(ts[..n], answers[..n]), Kept(ts[n], answers[n]), t);
      SurvivalsStep(ts, answers, t);
    }
  }

  lemma {:induction false} CountAppend(a: seq<Terminal>, b: seq<Terminal>, t: Terminal)
    ensures multiset(a + b)[t] == multiset(a)[t] + multiset(b)[t]
  {
  }

  lemma {:induction false} SurvivalsStep(ts: seq<Terminal>, answers: seq<Presence>, t: Terminal)
    requires |answers| == |ts| > 0
    ensures var n := |ts| - 1;
            |Survivals(ts, answers, t)| == |Survivals(ts[..n], answers[..n], t)| + multiset(Kept(ts[n], answers[n]))[t]
  {
    var n := |ts| - 1;
    var front := Survivals(ts[..n], answers[..n], t);
    if ts[n] == t && !answers[n].Gone? {
      assert Survivals(ts, answers, t) == front + {n};
    } else {
      assert Survivals(ts, answers, t) == front;
    }
  }

  lemma {:induction false} NoneGone(ts: seq<Terminal>, answers: seq<Presence>)
    requires |answers| == |ts| && forall k :: 0 <= k < |answers| ==> !answers[k].Gone?
    ensures Alive(ts, answers) == ts
  {
    if |ts| == 0 {
    } else {
      NoneGone(ts[..|ts| - 1], answers[..|ts| - 1]);
    }
  }

  /** A second start-up that finds no more sessions gone keeps what the first one kept. */
  lemma {:induction false} AliveTwice(ts: seq<Terminal>, first: seq<Presence>, second: seq<Presence>)
    requires |first| == |ts| && |second| == |Alive(ts, first)|
    ensures (forall k :: 0 <= k < |second| ==> !second[k].Gone?) <==>
            Alive(Alive(ts, first), second) == Alive(ts, first)
  {
    var kept := Alive(ts, first);
    if forall k :: 0 <= k < |second| ==> !second[k].Gone? {
      NoneGone(kept, second);
    } else {
      SomeGone(kept, second);
    }
  }

  lemma {:induction false} SomeGone(ts: seq<Terminal>, answers: seq<Presence>)
    requires |answers| == |ts| && exists k :: 0 <= k < |answers| && answers[k].Gone?
    ensures |Alive(ts, answers)| < |ts|
  {
    var n := |ts| - 1;
    if !answers[n].Gone? {
      var k :| 0 <= k < |answers| && answers[k].Gone?;
      assert answers[..n][k].Gone?;
      SomeGone(ts[..n], answers[..n]);
    }
  }

  /** Appending a terminal with an id of its own does not disturb the other lookups. */
  lemma {:induction false} FindAppend(ts: seq<Terminal>, t: Terminal, id: string)
    requires FindTerminal(ts, t.id).None?
    ensures FindTerminal(ts + [t], id) == if id == t.id then Some(t) else FindTerminal(ts, id)
  {
    hide TerminalIndex;
    var i := TerminalIndex(ts, id);
    TerminalIndexIs(ts + [t], if i < |ts| || id == t.id then i else |ts| + 1, id);
  }

  lemma {:induction false} LastIsNew(ts: seq<Terminal>)
    requires |ts| > 0 && DistinctTerminals(ts)
    ensures FindTerminal(ts[..|ts| - 1], ts[|ts| - 1].id) == None
  {
    TerminalIndexIs(ts[..|ts| - 1], |ts| - 1, ts[|ts| - 1].id);
  }

  /** The terminal with this id, unless tmux reported its session gone. */
  function AliveAnswer(ts: seq<Terminal>, answers: seq<Presence>, id: string): Option<Terminal>
    requires |answers| == |ts|
  {
    var k := TerminalIndex(ts, id);
    if k < |ts| && !answers[k].Gone? then Some(ts[k]) else None
  }

  lemma {:induction false} AnswerStep(ts: seq<Terminal>, answers: seq<Presence>, id: string)
    requires |answers| == |ts| > 0 && DistinctTerminals(ts)
    ensures var n := |ts| - 1;
            AliveAnswer(ts, answers, id) == if id == ts[n].id then (if answers[n].Gone? then None else Some(ts[n]))
                                            else AliveAnswer(ts[..n], answers[..n], id)
  {
    hide TerminalIndex;
    var n := |ts| - 1;
    var k := TerminalIndex(ts[..n], id);
    if id == ts[n].id {
      TerminalIndexIs(ts, n, id);
    } else {
      TerminalIndexIs(ts, if k < n then k else |ts|, id);
    }
  }

  lemma {:induction false} AliveFinds(ts: seq<Terminal>, answers: seq<Presence>, id: string)
    requires |answers| == |ts| && DistinctTerminals(ts)
    ensures FindTerminal(Alive(ts, answers), id) == AliveAnswer(ts, answers, id)
  {
    hide TerminalIndex;
    if |ts| == 0 {
      TerminalIndexIs(ts, 0, id);
    } else {
      hide FindTerminal, AliveAnswer;
      var n := |ts| - 1;
      AliveFinds(ts[..n], answers[..n], id);
      AliveFinds(ts[..n], answers[..n], ts[n].id);
      NewLastAnswer(ts, answers);
      AnswerStep(ts, answers, id);
      var kept := Alive(ts[..n], answers[..n]);
      if answers[n].Gone? {
        assert kept + [] == kept;
      } else {
        FindAppend(kept, ts[n], id);
      }
    }
  }

  lemma {:induction false} NewLastAnswer(ts: seq<Terminal>, answers: seq<Presence>)
    requires |answers| == |ts| > 0 && DistinctTerminals(ts)
    ensures AliveAnswer(ts[..|ts| - 1], answers[..|ts| - 1], ts[|ts| - 1].id) == None
  {
    LastIsNew(ts);
  }

  /**
   After start-up every lookup answers as before, except that a terminal whose session tmux
   reported gone is not found.
   */
  lemma {:induction false} PruneIsLocal(ws: seq<Entry>, answers: seq<seq<Presence>>, wsId: string, tmId: string)
    requires WellFormed(ws) && Fits(ws, answers)
    ensures var i := WorkspaceIndex(ws, wsId);
            Lookup(Pruned(ws, answers), wsId, tmId) ==
              if i < |ws| then AliveAnswer(ws[i].terminals, answers[i], tmId) else None
  {
    hide WorkspaceIndex, TerminalIndex, Alive;
    var i := WorkspaceIndex(ws, wsId);
    WorkspaceIndexIs(Pruned(ws, answers), i, wsId);
    if i < |ws| {
      AliveFinds(ws[i].terminals, answers[i], tmId);
    }
  }
}
