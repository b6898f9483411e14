/**
 The workspace store on the heap.  A Go slice is a buffer and a length (its capacity is the
 buffer's length); `append` writes in place while there is room and copies otherwise, and
 removal shifts elements to the left in the same buffer.  Every operation is proved against
 the value model in WorkspaceState.dfy.
 */
module WorkspaceStore {
  import opened Wrappers
  import opened Utf8
  import opened WorkspaceState

  datatype Slice = Slice(buf: array<Terminal>, len: nat) {
    predicate Ok() { len <= buf.Length }

    function Items(): (s: seq<Terminal>)
      requires Ok()
      reads buf
      ensures |s| == len
    {
      buf[..len]
    }
  }

  datatype Workspace = Workspace(id: string, name: string, path: string, terms: Slice)

  function ValueOf(w: Workspace): Entry
    requires w.terms.Ok()
    reads w.terms.buf
  {
    Entry(w.id, w.name, w.path, w.terms.Items())
  }

  /** The live part of a workspace list: lengths fit and no two workspaces share a buffer. */
  predicate Separate(ws: seq<Workspace>) {
    && (forall i :: 0 <= i < |ws| ==> ws[i].terms.Ok())
    && (forall i, j :: 0 <= i < j < |ws| ==> ws[i].terms.buf != ws[j].terms.buf)
  }

  ghost function Buffers(ws: seq<Workspace>): set<array<Terminal>> {
    set i | 0 <= i < |ws| :: ws[i].terms.buf
  }

  ghost function Values(ws: seq<Workspace>): (v: seq<Entry>)
    requires Separate(ws)
    reads Buffers(ws)
    ensures |v| == |ws| && forall i :: 0 <= i < |ws| ==> v[i] == ValueOf(ws[i])
  {
    seq(|ws|, i requires 0 <= i < |ws| reads Buffers(ws) => ValueOf(ws[i]))
  }

  /** Putting back a workspace whose buffer is its own keeps the list separate. */
  lemma {:induction false} SeparateUpdate(ws: seq<Workspace>, i: nat, w: Workspace)
    requires Separate(ws) && i < |ws| && w.terms.Ok()
    requires w.terms.buf == ws[i].terms.buf || w.terms.buf !in Buffers(ws)
    ensures Separate(ws[i := w]) && Buffers(ws[i := w]) <= Buffers(ws) + {w.terms.buf}
    ensures w.terms.buf == ws[i].terms.buf ==> Buffers(ws[i := w]) == Buffers(ws)
  {
    var next := ws[i := w];
    forall j, m | 0 <= j < m < |next| ensures next[j].terms.buf != next[m].terms.buf {
      assert ws[j].terms.buf in Buffers(ws) && ws[m].terms.buf in Buffers(ws);
    }
    forall b | b in Buffers(ws) && w.terms.buf == ws[i].terms.buf ensures b in Buffers(next) {
      var j :| 0 <= j < |ws| && ws[j].terms.buf == b;
      assert next[j].terms.buf == b;
    }
  }

  lemma {:induction false} AllOk(ws: seq<Workspace>)
    requires Separate(ws)
    ensures forall j :: 0 <= j < |ws| ==> ws[j].terms.Ok()
  {
  }

  /** The buffer of workspace `i` is nobody else's. */
  lemma {:induction false} Apart(ws: seq<Workspace>, i: nat)
    requires Separate(ws) && i < |ws|
    ensures ws[i].terms.Ok() && ws[i].terms.buf in Buffers(ws)
    ensures forall j :: 0 <= j < |ws| && j != i ==> ws[j].terms.Ok() && ws[j].terms.buf != ws[i].terms.buf
  {
  }

  lemma {:induction false} SeparatePush(ws: seq<Workspace>, w: Workspace)
    requires Separate(ws) && w.terms.Ok() && w.terms.buf !in Buffers(ws)
    ensures Separate(ws + [w]) && Buffers(ws + [w]) == Buffers(ws) + {w.terms.buf}
  {
    var next := ws + [w];
    forall j | 0 <= j < |ws| ensures ws[j].terms.buf in Buffers(next) {
      assert next[j].terms.buf in Buffers(next);
    }
    assert next[|ws|].terms.buf in Buffers(next);
  }

  lemma {:induction false} SeparateCut(ws: seq<Workspace>, i: nat)
    requires Separate(ws) && i < |ws|
    ensures Separate(Without(ws, i)) && Buffers(Without(ws, i)) == Buffers(ws) - {ws[i].terms.buf}
  {
    var next := Without(ws, i);
    forall j | 0 <= j < |ws| && j != i ensures ws[j].terms.buf in Buffers(next) {
      assert next[if j < i then j else j - 1].terms.buf in Buffers(next);
    }
  }

  // ---------- Slices of terminals ----------

  method FindTerminalIn(s: Slice, id: string) returns (k: nat)
    requires s.Ok()
    ensures k == TerminalIndex(s.Items(), id)
  {
    k := 0;
    while k < s.len && s.buf[k].id != id
      invariant k <= s.len
      invariant forall j :: 0 <= j < k ==> s.buf[j].id != id
    {
      k := k + 1;
    }
    TerminalIndexIs(s.Items(), k, id);
  }

  /** `append(s, t)`: in place when the capacity allows, else into a new buffer of some larger capacity. */
  method Append(s: Slice, t: Terminal) returns (r: Slice)
    requires s.Ok()
    modifies s.buf
    ensures r.Ok() && r.Items() == old(s.Items()) + [t]
    ensures if s.len < s.buf.Length then r.buf == s.buf else fresh(r.buf)
    ensures forall j :: 0 <= j < s.buf.Length && j != s.len ==> s.buf[j] == old(s.buf[j])
  {
    if s.len < s.buf.Length {
      s.buf[s.len] := t;
      r := Slice(s.buf, s.len + 1);
    } else {
      var capacity: nat :| s.len < capacity;
      var grown := new Terminal[capacity](_ => t);
      forall j | 0 <= j < s.len {
        grown[j] := s.buf[j];
      }
      r := Slice(grown, s.len + 1);
    }
  }

  /** The copying part of `append(a[:k], a[k+1:]...)`: shifts the tail of the first `n` elements to the left. */
  method ShiftLeft<T>(a: array<T>, k: nat, n: nat)
    requires k < n <= a.Length
    modifies a
    ensures a[..n - 1] == Without(old(a[..n]), k)
    ensures forall m :: n - 1 <= m < a.Length ==> a[m] == old(a[m])
  {
    var j := k;
    while j + 1 < n
      invariant k <= j < n
      invariant forall m :: 0 <= m < k ==> a[m] == old(a[m])
      invariant forall m :: k <= m < j ==> a[m] == old(a[m + 1])
      invariant forall m :: j <= m < a.Length ==> a[m] == old(a[m])
    {
      a[j] := a[j + 1];
      j := j + 1;
    }
  }

  method RemoveAt(s: Slice, k: nat) returns (r: Slice)
    requires s.Ok() && k < s.len
    modifies s.buf
    ensures r == Slice(s.buf, s.len - 1) && r.Items() == Without(old(s.Items()), k)
    ensures s.Items() == Shifted(old(s.Items()), k)
  {
    ShiftLeft(s.buf, k, s.len);
    r := Slice(s.buf, s.len - 1);
  }

  /** Writes two fields of an element through a pointer into the buffer. */
  method RenameAt(s: Slice, k: nat, name: string, session: string) returns (t: Terminal)
    requires s.Ok() && k < s.len
    modifies s.buf
    ensures t == old(s.buf[k]).(name := name, session := session)
    ensures s.Items() == old(s.Items())[k := t]
  {
    s.buf[k] := s.buf[k].(name := name, session := session);
    t := s.buf[k];
  }

  lemma {:induction false} AliveStep(ts: seq<Terminal>, answers: seq<Presence>, k: nat)
    requires k < |ts| == |answers|
    ensures Alive(ts[..k + 1], answers[..k + 1]) == Alive(ts[..k], answers[..k]) + Kept(ts[k], answers[k])
  {
    assert ts[..k + 1][..k] == ts[..k] && answers[..k + 1][..k] == answers[..k];
    AliveLast(ts[..k + 1], answers[..k + 1]);
  }

  /** The workspaces when the first `i` have been pruned. */
  ghost function PrunedTo(ws: seq<Entry>, answers: seq<seq<Presence>>, i: nat): (r: seq<Entry>)
    requires Fits(ws, answers) && i <= |ws|
    ensures |r| == |ws|
  {
    Pruned(ws[..i], answers[..i]) + ws[i..]
  }

  lemma {:induction false} PrunedEnds(ws: seq<Entry>, answers: seq<seq<Presence>>)
    requires Fits(ws, answers)
    ensures PrunedTo(ws, answers, 0) == ws && PrunedTo(ws, answers, |ws|) == Pruned(ws, answers)
  {
    assert ws[..|ws|] == ws && answers[..|ws|] == answers;
  }

  lemma {:induction false} PrunedStep(ws: seq<Entry>, answers: seq<seq<Presence>>, i: nat)
    requires Fits(ws, answers) && i < |ws|
    ensures var a, b := PrunedTo(ws, answers, i), PrunedTo(ws, answers, i + 1);
            var next := ws[i].(terminals := Alive(ws[i].terminals, answers[i]));
            && a[i] == ws[i] && b == a[i := next] && (b == ws <==> a == ws && next == ws[i])
  {
    hide Alive;
    var a, b := PrunedTo(ws, answers, i), PrunedTo(ws, answers, i + 1);
    assert b == a[i := b[i]];
    if b == ws {
      assert a == b[i := ws[i]];
    }
  }

  /**
   The in-place filter of start-up: `alive` reuses the buffer that is being read.  It never
   passes the reading position, so no terminal is overwritten before it has been looked at.
   `answers[k]` is what tmux says when it is asked about terminal number `k`.
   */
  method PruneSlice(s: Slice, answers: seq<Presence>) returns (alive: Slice, changed: bool)
    requires s.Ok() && |answers| == s.len
    modifies s.buf
    ensures alive.buf == s.buf && alive.Ok() && alive.Items() == Alive(old(s.Items()), answers)
    ensures changed <==> Alive(old(s.Items()), answers) != old(s.Items())
  {
    hide Alive;
    ghost var was := s.Items();
    AliveNone(was[..0], answers[..0]);
    var n, k := 0, 0;
    changed := false;
    while k < s.len
      invariant n <= k <= s.len
      invariant s.buf[..n] == Alive(was[..k], answers[..k])
      invariant forall j :: k <= j < s.len ==> s.buf[j] == was[j]
      invariant changed <==> n < k
    {
      var t := s.buf[k];
      AliveStep(was, answers, k);
      if answers[k].Gone? {
        changed := true;
      } else {
        s.buf[n] := t;
        n := n + 1;
      }
      k := k + 1;
    }
    assert was[..s.len] == was && answers[..s.len] == answers;
    alive := Slice(s.buf, n);
  }

  /** A copy with a buffer of its own. */
  method CopyWorkspace(w: Workspace) returns (c: Workspace)
    requires w.terms.Ok()
    ensures c.terms.Ok() && fresh(c.terms.buf) && ValueOf(c) == ValueOf(w)
  {
    var terms: array<Terminal>;
    if w.terms.len == 0 {
      terms := new Terminal[0];
    } else {
      var s := w.terms;
      terms := new Terminal[s.len](_ => Terminal("", "", ""));
      forall j | 0 <= j < s.len {
        terms[j] := s.buf[j];
      }
    }
    c := w.(terms := Slice(terms, w.terms.len));
  }

  method CopyAll(ws: seq<Workspace>) returns (out: array<Workspace>)
    requires Separate(ws)
    ensures fresh(out) && Separate(out[..]) && fresh(Buffers(out[..]))
    ensures Values(out[..]) == Values(ws)
  {
    hide Values, ValueOf;
    var none := new Terminal[0];
    out := new Workspace[|ws|](_ => Workspace("", "", "", Slice(none, 0)));
    for i := 0 to |ws|
      invariant forall j :: 0 <= j < i ==> out[j].terms.Ok() && fresh(out[j].terms.buf)
      invariant forall j, m :: 0 <= j < m < i ==> out[j].terms.buf != out[m].terms.buf
      invariant forall j :: 0 <= j < i ==> ValueOf(out[j]) == ValueOf(ws[j])
    {
      var c := CopyWorkspace(ws[i]);
      out[i] := c;
    }
    assert forall j :: 0 <= j < |ws| ==> out[..][j] == out[j];
    AllApart(out[..]);
  }

  lemma {:induction false} AllApart(ws: seq<Workspace>)
    requires forall j :: 0 <= j < |ws| ==> ws[j].terms.Ok()
    requires forall j, m :: 0 <= j < m < |ws| ==> ws[j].terms.buf != ws[m].terms.buf
    ensures Separate(ws)
  {
  }

  // ---------- The store ----------

  class Store {
    var workspaces: array<Workspace>
    var count: nat
    var layout: array<byte>
    /** What the state file holds. */
    ghost var disk: State

    ghost predicate Valid()
      reads this, workspaces
    {
      count <= workspaces.Length && Separate(workspaces[..count])
    }

    ghost function Live(): set<array<Terminal>>
      requires Valid()
      reads this, workspaces
    {
      Buffers(workspaces[..count])
    }

    /** Everything the store can write to. */
    ghost function Footprint(): set<object>
      requires Valid()
      reads this, workspaces
    {
      {this, workspaces} + Live()
    }

    ghost function View(): (s: State)
      requires Valid()
      reads this, workspaces, layout, Live()
      ensures |s.workspaces| == count && s.layout == layout[..]
    {
      State(Values(workspaces[..count]), layout[..])
    }

    constructor ()
      ensures Valid() && fresh(Footprint())
      ensures View() == State([], []) && disk == State([], [])
    {
      var buf := new Terminal[0];
      workspaces := new Workspace[0](_ => Workspace("", "", "", Slice(buf, 0)));
      count := 0;
      layout := new byte[0];
      disk := State([], []);
    }

    /** Replaces the state file; the replacement is atomic, so a failed write leaves the old file. */
    method Flush(io: bool) returns (r: Reply)
      requires Valid()
      modifies this`disk
      ensures r == Flushed(io)
      ensures disk == if io then View() else old(disk)
    {
      if io {
        disk := View();
      }
      r := Flushed(io);
    }

    method FindWorkspaceAt(id: string) returns (i: nat)
      requires Valid()
      ensures i == WorkspaceIndex(View().workspaces, id) && i <= count
    {
      i := 0;
      while i < count && workspaces[i].id != id
        invariant i <= count
        invariant forall j :: 0 <= j < i ==> workspaces[j].id != id
      {
        i := i + 1;
      }
      WorkspaceIndexIs(View().workspaces, i, id);
    }

    // ---------- Readers ----------

    method GetTerminal(wsId: string, tmId: string) returns (r: Option<Terminal>)
      requires Valid()
      ensures r == Lookup(View().workspaces, wsId, tmId)
    {
      var i := FindWorkspaceAt(wsId);
      if i == count {
        return None;
      }
      var s := workspaces[i].terms;
      var k := FindTerminalIn(s, tmId);
      if k == s.len {
        return None;
      }
      return Some(s.buf[k]);
    }

    method GetWorkspace(id: string) returns (r: Option<Workspace>)
      requires Valid()
      ensures r.Some? ==> r.value.terms.Ok() && fresh(r.value.terms.buf)
      ensures FindWorkspace(View().workspaces, id) == if r.Some? then Some(ValueOf(r.value)) else None
    {
      var i := FindWorkspaceAt(id);
      if i == count {
        return None;
      }
      var w := CopyWorkspace(workspaces[i]);
      return Some(w);
    }

    method ListWorkspaces() returns (out: array<Workspace>)
      requires Valid()
      ensures fresh(out) && Separate(out[..]) && fresh(Buffers(out[..]))
      ensures Values(out[..]) == View().workspaces
    {
      hide Values, Separate;
      out := CopyAll(workspaces[..count]);
    }

    // ---------- Operations ----------

    /** Stores a changed workspace back into its slot and writes the state file. */
    method Replace(i: nat, w: Workspace, io: bool, ghost before: State) returns (r: Reply)
      requires count <= workspaces.Length && i < count == |before.workspaces|
      requires Separate(workspaces[..count][i := w])
      requires w.terms.Ok() && forall j :: 0 <= j < count && j != i ==>
        workspaces[j].terms.Ok() && ValueOf(workspaces[j]) == before.workspaces[j]
      requires layout[..] == before.layout
      modifies this`disk, workspaces
      ensures Valid() && Live() == old(Buffers(workspaces[..count][i := w]))
      ensures View() == before.(workspaces := before.workspaces[i := ValueOf(w)])
      ensures r == Flushed(io) && disk == if io then View() else old(disk)
      ensures forall j :: 0 <= j < count ==> workspaces[j] == if j == i then w else old(workspaces[j])
    {
      workspaces[i] := w;
      assert workspaces[..count] == old(workspaces[..count])[i := w];
      r := Flush(io);
    }

    /** Returns the stored value itself: the result shares its terminal buffer with the store. */
    method RenameWorkspace(id: string, name: string, io: bool) returns (r: Reply, renamed: Option<Workspace>)
      requires Valid()
      modifies this`disk, workspaces
      ensures Valid() && View() == Apply(old(View()), Op.RenameWorkspace(id, name))
      ensures r == ReplyOf(old(View()), Op.RenameWorkspace(id, name), io)
      ensures disk == DiskAfter(old(View()), old(disk), Op.RenameWorkspace(id, name), io)
      ensures Live() == old(Live())
      ensures renamed.Some? <==> r.Done?
      ensures renamed.Some? ==> renamed.value.terms.Ok() && WorkspaceIndex(View().workspaces, id) < count
      ensures renamed.Some? ==> workspaces[WorkspaceIndex(View().workspaces, id)] == renamed.value
    {
      hide WorkspaceIndex;
      renamed := None;
      var i := FindWorkspaceAt(id);
      if i == count {
        return NotFound, None;
      }
      var w := workspaces[i].(name := name);
      SeparateUpdate(workspaces[..count], i, w);
      r := Replace(i, w, io, View());
      if r.Done? {
        renamed := Some(w);
        WorkspaceIndexIs(View().workspaces, i, id);
      }
    }

    method AddTerminal(wsId: string, t: Terminal, io: bool) returns (r: Reply)
      requires Valid()
      modifies this`disk, workspaces, Live()
      ensures Valid() && View() == Apply(old(View()), Op.AddTerminal(wsId, t))
      ensures r == ReplyOf(old(View()), Op.AddTerminal(wsId, t), io)
      ensures disk == DiskAfter(old(View()), old(disk), Op.AddTerminal(wsId, t), io)
      ensures forall b <- Live() :: b in old(Live()) || fresh(b)
      ensures Values(old(workspaces[..count])) == InBuffers(old(View()).workspaces, Op.AddTerminal(wsId, t))
    {
      hide Values, Separate, WorkspaceIndex, Apply, ReplyOf, InBuffers, WithTerminals;
      ghost var before := View();
      var i := FindWorkspaceAt(wsId);
      if i == count {
        NotThere(before, Op.AddTerminal(wsId, t), io);
        return NotFound;
      }
      AdditionAt(before, wsId, t, io, i);
      r := AddAt(i, t, io);
    }

    method AddAt(i: nat, t: Terminal, io: bool) returns (r: Reply)
      requires Valid() && i < count
      modifies this`disk, workspaces, Live()
      ensures Valid() && forall b <- Live() :: b in old(Live()) || fresh(b)
      ensures var ws := old(View()).workspaces;
              View() == old(View()).(workspaces := WithTerminals(ws, i, ws[i].terminals + [t]))
      ensures r == Flushed(io) && disk == if io then View() else old(disk)
      ensures Values(old(workspaces[..count])) == old(View()).workspaces
    {
      hide Values, Separate;
      ghost var before := View();
      ghost var was := workspaces[..count];
      AllOk(was);
      Apart(was, i);
      var w := workspaces[i];
      var terms := Append(w.terms, t);
      assert forall j :: 0 <= j < count ==> ValueOf(was[j]) == before.workspaces[j];
      assert Values(was) == before.workspaces;
      w := w.(terms := terms);
      SeparateUpdate(was, i, w);
      r := Replace(i, w, io, before);
    }

    method RemoveTerminal(wsId: string, tmId: string, io: bool) returns (r: Reply, removed: Option<Terminal>)
      requires Valid()
      modifies this`disk, workspaces, Live()
      ensures Valid() && View() == Apply(old(View()), Op.RemoveTerminal(wsId, tmId))
      ensures r == ReplyOf(old(View()), Op.RemoveTerminal(wsId, tmId), io)
      ensures disk == DiskAfter(old(View()), old(disk), Op.RemoveTerminal(wsId, tmId), io)
      ensures Live() == old(Live())
      ensures removed == if r.Done? then Lookup(old(View()).workspaces, wsId, tmId) else None
      ensures Values(old(workspaces[..count])) == InBuffers(old(View()).workspaces, Op.RemoveTerminal(wsId, tmId))
    {
      hide Values, Separate, WorkspaceIndex, TerminalIndex;
      hide Apply, ReplyOf, DiskAfter, Lookup, InBuffers, OnTerminals, Without, Shifted, WithTerminals;
      ghost var before := View();
      WrittenIf(before, disk, Op.RemoveTerminal(wsId, tmId), io);
      var i := FindWorkspaceAt(wsId);
      if i == count {
        NotThere(before, Op.RemoveTerminal(wsId, tmId), io);
        return NotFound, None;
      }
      Apart(workspaces[..count], i);
      var terms := workspaces[i].terms;
      var k := FindTerminalIn(terms, tmId);
      assert terms.Items() == before.workspaces[i].terminals;
      if k == terms.len {
        NotThere(before, Op.RemoveTerminal(wsId, tmId), io);
        return NotFound, None;
      }
      RemovalAt(before, wsId, tmId, io, i, k);
      var t;
      r, t := RemoveTerminalAt(i, k, io);
      removed := if r.Done? then Some(t) else None;
    }

    method RemoveTerminalAt(i: nat, k: nat, io: bool) returns (r: Reply, t: Terminal)
      requires Valid() && i < count && k < |View().workspaces[i].terminals|
      modifies this`disk, workspaces, Live()
      ensures Valid() && Live() == old(Live())
      ensures t == old(View()).workspaces[i].terminals[k]
      ensures var ws := old(View()).workspaces;
              && View() == old(View()).(workspaces := WithTerminals(ws, i, Without(ws[i].terminals, k)))
              && Values(old(workspaces[..count])) == WithTerminals(ws, i, Shifted(ws[i].terminals, k))
      ensures r == Flushed(io) && disk == if io then View() else old(disk)
    {
      hide Values, Separate, Without, Shifted;
      ghost var before := View();
      ghost var was := workspaces[..count];
      AllOk(was);
      Apart(was, i);
      var w := workspaces[i];
      t := w.terms.buf[k];
      var terms := RemoveAt(w.terms, k);
      assert Values(was) == WithTerminals(before.workspaces, i, Shifted(before.workspaces[i].terminals, k));
      w := w.(terms := terms);
      SeparateUpdate(was, i, w);
      r := Replace(i, w, io, before);
    }

    /** Writes the two fields in the stored terminal itself. */
    method RenameTerminal(wsId: string, tmId: string, name: string, session: string, io: bool)
      returns (r: Reply, renamed: Option<Terminal>)
      requires Valid()
      modifies this`disk, workspaces, Live()
      ensures Valid() && View() == Apply(old(View()), Op.RenameTerminal(wsId, tmId, name, session))
      ensures r == ReplyOf(old(View()), Op.RenameTerminal(wsId, tmId, name, session), io)
      ensures disk == DiskAfter(old(View()), old(disk), Op.RenameTerminal(wsId, tmId, name, session), io)
      ensures Live() == old(Live())
      ensures renamed == if r.Done? then Lookup(View().workspaces, wsId, tmId) else None
      ensures forall j :: 0 <= j < count ==> workspaces[j] == old(workspaces[j])
      ensures Values(old(workspaces[..count])) ==
                InBuffers(old(View()).workspaces, Op.RenameTerminal(wsId, tmId, name, session))
    {
      hide Values, Separate, WorkspaceIndex, TerminalIndex;
      hide Apply, ReplyOf, DiskAfter, Lookup, InBuffers, OnTerminals, WithTerminals;
      ghost var before := View();
      WrittenIf(before, disk, Op.RenameTerminal(wsId, tmId, name, session), io);
      var i := FindWorkspaceAt(wsId);
      if i == count {
        NotThere(before, Op.RenameTerminal(wsId, tmId, name, session), io);
        return NotFound, None;
      }
      Apart(workspaces[..count], i);
      var terms := workspaces[i].terms;
      var k := FindTerminalIn(terms, tmId);
      assert terms.Items() == before.workspaces[i].terminals;
      if k == terms.len {
        NotThere(before, Op.RenameTerminal(wsId, tmId, name, session), io);
        return NotFound, None;
      }
      RenamingAt(before, wsId, tmId, name, session, io, i, k);
      var t;
      r, t := RenameTerminalAt(i, k, name, session, io);
      assert workspaces[..count] == old(workspaces[..count]);
      renamed := if r.Done? then Some(t) else None;
    }

    method RenameTerminalAt(i: nat, k: nat, name: string, session: string, io: bool) returns (r: Reply, t: Terminal)
      requires Valid() && i < count && k < |View().workspaces[i].terminals|
      modifies this`disk, workspaces, Live()
      ensures Valid() && Live() == old(Live())
      ensures t == old(View()).workspaces[i].terminals[k].(name := name, session := session)
      ensures var ws := old(View()).workspaces;
              View() == old(View()).(workspaces := WithTerminals(ws, i, ws[i].terminals[k := t]))
      ensures r == Flushed(io) && disk == if io then View() else old(disk)
      ensures forall j :: 0 <= j < count ==> workspaces[j] == old(workspaces[j])
    {
      hide Values, Separate;
      ghost var before := View();
      AllOk(workspaces[..count]);
      Apart(workspaces[..count], i);
      var w := workspaces[i];
      t := RenameAt(w.terms, k, name, session);
      SeparateUpdate(workspaces[..count], i, w);
      r := Replace(i, w, io, before);
    }

    /** Appends to the list, in place or in a new backing array. */
    method CreateWorkspace(id: string, name: string, path: string, io: bool) returns (r: Reply, made: Option<Workspace>)
      requires Valid()
      modifies this, workspaces
      ensures Valid() && View() == Apply(old(View()), Op.CreateWorkspace(id, name, path))
      ensures r == ReplyOf(old(View()), Op.CreateWorkspace(id, name, path), io)
      ensures disk == DiskAfter(old(View()), old(disk), Op.CreateWorkspace(id, name, path), io)
      ensures workspaces == old(workspaces) || fresh(workspaces)
      ensures layout == old(layout) && forall b <- Live() :: b in old(Live()) || fresh(b)
      ensures made.Some? <==> r.Done?
      ensures made.Some? ==> made.value.terms.Ok() && ValueOf(made.value) == Entry(id, name, path, [])
    {
      hide Values, Separate, Apply, ReplyOf, DiskAfter;
      ghost var before := View();
      CreateAppends(before, id, name, path, io);
      WrittenIf(before, disk, Op.CreateWorkspace(id, name, path), io);
      var buf := new Terminal[0];
      var w := Workspace(id, name, path, Slice(buf, 0));
      PushWorkspace(w);
      assert ValueOf(w) == Entry(id, name, path, []);
      r := Flush(io);
      made := if r.Done? then Some(w) else None;
    }

    /** `append` on the workspace list. */
    method PushWorkspace(w: Workspace)
      requires Valid() && w.terms.Ok() && w.terms.buf !in Live()
      modifies this`workspaces, this`count, workspaces
      ensures Valid() && Live() == old(Live()) + {w.terms.buf}
      ensures workspaces == old(workspaces) || fresh(workspaces)
      ensures View() == old(View()).(workspaces := old(View()).workspaces + [ValueOf(w)])
    {
      hide Values;
      ghost var was := workspaces[..count];
      SeparatePush(was, w);
      if count < workspaces.Length {
        workspaces[count] := w;
      } else {
        var capacity: nat :| count < capacity;
        var grown := new Workspace[capacity](_ => w);
        forall j | 0 <= j < count {
          grown[j] := workspaces[j];
        }
        workspaces := grown;
      }
      count := count + 1;
      assert workspaces[..count] == was + [w];
    }

    /**
     Shifts the later workspaces to the left; what is returned is the struct that was stored.
     The slot behind the new length keeps an old struct, but no live slot has its buffer.
     */
    method DeleteWorkspace(id: string, io: bool) returns (r: Reply, removed: Option<Workspace>)
      requires Valid()
      modifies this`count, this`disk, workspaces
      ensures Valid() && View() == Apply(old(View()), Op.DeleteWorkspace(id))
      ensures r == ReplyOf(old(View()), Op.DeleteWorkspace(id), io)
      ensures disk == DiskAfter(old(View()), old(disk), Op.DeleteWorkspace(id), io)
      ensures Live() <= old(Live())
      ensures removed.Some? <==> r.Done?
      ensures removed.Some? ==> removed.value.terms.Ok() && removed.value.terms.buf !in Live()
      ensures removed.Some? ==> FindWorkspace(old(View()).workspaces, id) == Some(ValueOf(removed.value))
    {
      hide Values, WorkspaceIndex, Apply, ReplyOf;
      removed := None;
      ghost var before := View();
      var i := FindWorkspaceAt(id);
      DeleteAt(before, id, io, i);
      if i == count {
        return NotFound, None;
      }
      var w := workspaces[i];
      CutWorkspace(i);
      r := Flush(io);
      if r.Done? {
        removed := Some(w);
      }
    }

    method CutWorkspace(i: nat)
      requires Valid() && i < count
      modifies this`count, workspaces
      ensures Valid() && Live() == old(Live()) - {old(workspaces[i].terms.buf)}
      ensures View() == old(View()).(workspaces := Without(old(View()).workspaces, i))
    {
      hide Values;
      ghost var was := workspaces[..count];
      SeparateCut(was, i);
      ShiftLeft(workspaces, i, count);
      count := count - 1;
      assert workspaces[..count] == Without(was, i);
    }

    /** Start-up: filters every workspace in place and writes the file only if something was dropped. */
    method PruneDead(answers: seq<seq<Presence>>, io: bool)
      requires Valid() && Fits(View().workspaces, answers)
      modifies this`disk, workspaces, Live()
      ensures Valid() && Live() == old(Live())
      ensures View() == old(View()).(workspaces := Pruned(old(View()).workspaces, answers))
      ensures disk == if View() != old(View()) && io then View() else old(disk)
    {
      hide Pruned, PrunedTo, Alive, Values, Separate, Buffers;
      ghost var ws := View().workspaces;
      ghost var live := Live();
      var changed := false;
      PrunedEnds(ws, answers);
      for i := 0 to count
        invariant Valid() && Live() == live && disk == old(disk)
        invariant View() == old(View()).(workspaces := PrunedTo(ws, answers, i))
        invariant changed <==> PrunedTo(ws, answers, i) != ws
      {
        PrunedStep(ws, answers, i);
        var dropped := PruneAt(i, answers[i]);
        changed := changed || dropped;
      }
      assert changed <==> View() != old(View());
      if changed {
        var _ := Flush(io);
      }
    }

    method PruneAt(i: nat, answers: seq<Presence>) returns (dropped: bool)
      requires Valid() && i < count && |answers| == |View().workspaces[i].terminals|
      modifies workspaces, Live()
      ensures Valid() && Live() == old(Live())
      ensures var w := old(View()).workspaces[i];
              var kept := Alive(w.terminals, answers);
              && View() == old(View()).(workspaces := old(View()).workspaces[i := w.(terminals := kept)])
              && (dropped <==> kept != w.terminals)
    {
      hide Alive;
      var w := workspaces[i];
      var alive;
      alive, dropped := PruneSlice(w.terms, answers);
      w := w.(terms := alive);
      SeparateUpdate(workspaces[..count], i, w);
      workspaces[i] := w;
      assert workspaces[..count] == old(workspaces[..count])[i := w];
    }

    // ---------- Layout ----------

    method GetLayout() returns (r: Option<array<byte>>)
      requires Valid()
      ensures r.None? <==> View().layout == []
      ensures r.Some? ==> fresh(r.value) && r.value[..] == View().layout
    {
      if layout.Length == 0 {
        return None;
      }
      var out := CopyBytes(layout);
      return Some(out);
    }

    method SetLayout(raw: array<byte>, valid: bool, io: bool) returns (r: Reply)
      requires Valid()
      modifies this`layout, this`disk
      ensures Valid() && View() == Apply(old(View()), Op.SetLayout(raw[..], valid))
      ensures r == ReplyOf(old(View()), Op.SetLayout(raw[..], valid), io)
      ensures disk == DiskAfter(old(View()), old(disk), Op.SetLayout(raw[..], valid), io)
      ensures layout == old(layout) || fresh(layout)
    {
      if !valid {
        return InvalidLayout;
      }
      layout := CopyBytes(raw);
      r := Flush(io);
    }

    /** Runs any one operation. */
    method Perform(op: Op, io: bool) returns (r: Reply)
      requires Valid()
      modifies Footprint()
      ensures Valid() && View() == Apply(old(View()), op)
      ensures r == ReplyOf(old(View()), op, io)
      ensures disk == DiskAfter(old(View()), old(disk), op, io)
      ensures forall o <- Footprint() :: o in old(Footprint()) || fresh(o)
      ensures Values(old(workspaces[..count])) == InBuffers(old(View()).workspaces, op)
    {
      hide Apply, ReplyOf, DiskAfter, Values, Separate, WorkspaceIndex;
      match op {
        case CreateWorkspace(id, name, path) =>
          var made;
          r, made := CreateWorkspace(id, name, path, io);
        case DeleteWorkspace(ws) =>
          var removed;
          r, removed := DeleteWorkspace(ws, io);
        case RenameWorkspace(ws, name) =>
          var renamed;
          r, renamed := RenameWorkspace(ws, name, io);
        case AddTerminal(ws, t) =>
          r := AddTerminal(ws, t, io);
        case RemoveTerminal(ws, tm) =>
          var removed;
          r, removed := RemoveTerminal(ws, tm, io);
        case RenameTerminal(ws, tm, name, session) =>
          var renamed;
          r, renamed := RenameTerminal(ws, tm, name, session, io);
        case SetLayout(raw, valid) =>
          var a := new byte[|raw|](i requires 0 <= i < |raw| => raw[i]);
          assert a[..] == raw;
          r := SetLayout(a, valid, io);
      }
    }
  }

  // ---------- Aliasing ----------

  /** Any sequence of operations; it writes nothing outside the store's own memory. */
  method PerformAll(store: Store, ops: seq<Op>, io: seq<bool>)
    requires store.Valid() && |io| == |ops|
    modifies store.Footprint()
    ensures store.Valid() && store.View().workspaces == Run(old(store.View()).workspaces, ops)
  {
    hide OnWorkspaces, Values, Separate, Buffers;
    ghost var ws := store.View().workspaces;
    for k := 0 to |ops|
      invariant store.Valid() && forall o <- store.Footprint() :: o in old(store.Footprint()) || fresh(o)
      invariant store.View().workspaces == Run(ws, ops[..k])
    {
      assert ops[..k + 1][..k] == ops[..k];
      var _ := store.Perform(ops[k], io[k]);
    }
    assert ops[..|ops|] == ops;
  }

  /** What a caller got from the three reading methods. */
  datatype Snapshot = Snapshot(all: array<Workspace>, one: Option<Workspace>, term: Option<Terminal>) {
    /** The memory the snapshot lives in. */
    ghost function Memory(): set<object>
      reads all
    {
      {all} + Buffers(all[..]) + Own()
    }

    ghost function Own(): set<object> { if one.Some? then {one.value.terms.buf} else {} }

    /** The snapshot shows the workspaces `ws`, and of them `wsId` and its terminal `tmId`. */
    ghost predicate Shows(ws: seq<Entry>, wsId: string, tmId: string)
      reads Memory()
    {
      && Separate(all[..]) && Values(all[..]) == ws
      && (one.Some? ==> one.value.terms.Ok())
      && FindWorkspace(ws, wsId) == (if one.Some? then Some(ValueOf(one.value)) else None)
      && Lookup(ws, wsId, tmId) == term
    }
  }

  method TakeSnapshot(store: Store, wsId: string, tmId: string) returns (snap: Snapshot)
    requires store.Valid()
    ensures fresh(snap.Memory()) && snap.Shows(store.View().workspaces, wsId, tmId)
  {
    hide Values, Separate, Lookup, FindWorkspace;
    ghost var ws := store.View().workspaces;
    var all := store.ListWorkspaces();
    assert store.View().workspaces == ws;
    var one := store.GetWorkspace(wsId);
    assert store.View().workspaces == ws;
    var term := store.GetTerminal(wsId, tmId);
    assert store.View().workspaces == ws;
    snap := Snapshot(all, one, term);
    assert snap.Shows(ws, wsId, tmId);
  }

  /**
   What `ListWorkspaces`, `GetWorkspace` and `GetTerminal` returned stays as it was through
   any sequence of later operations, however they rewrite the store's buffers in place.
   */
  method SnapshotsStay(store: Store, wsId: string, tmId: string, ops: seq<Op>, io: seq<bool>) returns (snap: Snapshot)
    requires store.Valid() && |io| == |ops|
    modifies store.Footprint()
    ensures snap.Shows(old(store.View()).workspaces, wsId, tmId)
    ensures store.Valid() && store.View().workspaces == Run(old(store.View()).workspaces, ops)
  {
    hide Snapshot.Shows, Run, Values, Separate;
    ghost var own := store.Footprint();
    snap := TakeSnapshot(store, wsId, tmId);
    ghost var mem := snap.Memory();
    assert mem !! own;
    label taken:
    PerformAll(store, ops, io);
    assert unchanged@taken(mem) && snap.Memory() == mem;
  }

  /**
   What `DeleteWorkspace` returned also stays as it was: a stale slot may still hold it, but
   no later operation writes to its buffer.
   */
  method DeletedStays(store: Store, id: string, ops: seq<Op>, io: seq<bool>) returns (removed: Option<Workspace>)
    requires store.Valid() && |io| == |ops|
    modifies store.Footprint()
    ensures removed.Some? ==> removed.value.terms.Ok()
    ensures FindWorkspace(old(store.View()).workspaces, id) ==
            if removed.Some? then Some(ValueOf(removed.value)) else None
  {
    hide Values, Separate, Run, WorkspaceIndex, OnWorkspaces;
    var r;
    r, removed := store.DeleteWorkspace(id, true);
    PerformAll(store, ops, io);
  }

  /** A caller that overwrites its snapshot, every terminal and every workspace of it, does not reach the store. */
  method ScribbleOnSnapshot(store: Store, junk: Terminal, rubbish: Workspace)
    requires store.Valid()
    ensures store.Valid() && store.View() == old(store.View())
  {
    hide Values, Separate;
    var all := store.ListWorkspaces();
    Ruin(all, junk, rubbish);
  }

  method Ruin(all: array<Workspace>, junk: Terminal, rubbish: Workspace)
    requires Separate(all[..])
    modifies all, Buffers(all[..])
    ensures forall j :: 0 <= j < all.Length ==> all[j] == rubbish
    ensures forall j, k :: 0 <= j < all.Length && 0 <= k < old(all[j]).terms.len ==> old(all[j]).terms.buf[k] == junk
  {
    ghost var was := all[..];
    for i := 0 to all.Length
      invariant forall j :: i <= j < all.Length ==> all[j] == was[j]
      invariant forall j :: 0 <= j < i ==> all[j] == rubbish
      invariant forall j, k :: 0 <= j < i && 0 <= k < was[j].terms.len ==> was[j].terms.buf[k] == junk
    {
      Overwrite(all[i].terms, junk);
      all[i] := rubbish;
    }
  }

  method Overwrite(s: Slice, junk: Terminal)
    requires s.Ok()
    modifies s.buf
    ensures forall k :: 0 <= k < s.len ==> s.buf[k] == junk
  {
    for k := 0 to s.len
      invariant forall m :: 0 <= m < k ==> s.buf[m] == junk
    {
      s.buf[k] := junk;
    }
  }

  /**
   The workspace `RenameWorkspace` returns is no snapshot: after a later rename of one of its
   terminals it shows the new name, because it shares the store's buffer.
   */
  method RenamedIsShared(store: Store, wsId: string, name: string, tmId: string, tmName: string, session: string)
    returns (shared: Option<Workspace>)
    requires store.Valid() && WellFormed(store.View().workspaces)
    requires Lookup(store.View().workspaces, wsId, tmId).Some?
    modifies store.Footprint()
    ensures shared.Some? && shared.value.terms.Ok() && store.Valid()
    ensures FindWorkspace(store.View().workspaces, wsId) == Some(ValueOf(shared.value))
    ensures FindTerminal(ValueOf(shared.value).terminals, tmId) == Some(Terminal(tmId, tmName, session))
  {
    hide WorkspaceIndex, TerminalIndex, OnWorkspaces, WellFormed, Lookup, FindTerminal, Values, Separate, Buffers;
    RenamesAreSeen(store.View().workspaces, wsId, name, tmId, tmName, session);
    var r;
    r, shared := store.RenameWorkspace(wsId, name, true);
    var _, renamed := store.RenameTerminal(wsId, tmId, tmName, session, true);
  }

  /** After both renames the workspace is found with its new terminal, at the place it had. */
  lemma {:induction false} RenamesAreSeen(
      ws: seq<Entry>, wsId: string, name: string, tmId: string, tmName: string, session: string)
    requires WellFormed(ws) && Lookup(ws, wsId, tmId).Some?
    ensures FindWorkspace(ws, wsId).Some?
    ensures var a := OnWorkspaces(ws, Op.RenameWorkspace(wsId, name));
            var b := OnWorkspaces(a, Op.RenameTerminal(wsId, tmId, tmName, session));
            && WorkspaceIndex(a, wsId) == WorkspaceIndex(b, wsId) < |a| == |b|
            && FindTerminal(b[WorkspaceIndex(b, wsId)].terminals, tmId) == Some(Terminal(tmId, tmName, session))
            && Lookup(a, wsId, tmId).Some?
  {
    var a := OnWorkspaces(ws, Op.RenameWorkspace(wsId, name));
    var b := OnWorkspaces(a, Op.RenameTerminal(wsId, tmId, tmName, session));
    OpKeepsWellFormed(ws, Op.RenameWorkspace(wsId, name));
    OpsAreLocal(ws, Op.RenameWorkspace(wsId, name), wsId, tmId);
    OpsAreLocal(a, Op.RenameTerminal(wsId, tmId, tmName, session), wsId, tmId);
    WorkspaceIndexIs(b, WorkspaceIndex(a, wsId), wsId);
  }

  /**
   What the workspace a rename returned shows after any one later operation.  A removal, for
   one, does not shorten it but leaves its last terminal in it twice, so that removing the
   last terminal cannot be seen at all.
   */
  method SharedAfterOne(store: Store, wsId: string, name: string, op: Op, io: bool) returns (shared: Option<Workspace>)
    requires store.Valid() && FindWorkspace(store.View().workspaces, wsId).Some?
    modifies store.Footprint()
    ensures shared.Some? && shared.value.terms.Ok()
    ensures var w := FindWorkspace(old(store.View()).workspaces, wsId).value;
            ValueOf(shared.value) == w.(name := name, terminals := SharedAfter(w.terminals, wsId, op))
  {
    hide Values, Separate, WorkspaceIndex, InBuffers, SharedAfter, OnWorkspaces;
    BufferOfRenamed(store.View().workspaces, wsId, name, op);
    var r;
    r, shared := store.RenameWorkspace(wsId, name, true);
    ghost var i := WorkspaceIndex(store.View().workspaces, wsId);
    ghost var was := store.workspaces[..store.count];
    assert was[i] == shared.value;
    r := store.Perform(op, io);
    assert ValueOf(was[i]) == Values(was)[i];
  }

  method CopyBytes(a: array<byte>) returns (b: array<byte>)
    ensures fresh(b) && b[..] == a[..]
  {
    b := new byte[a.Length](_ => 0);
    forall j | 0 <= j < a.Length {
      b[j] := a[j];
    }
  }
}
