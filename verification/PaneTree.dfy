/** The pane tree of the split view: leaves show a session or nothing, splits divide an area. */
module PaneTree {
  import opened Wrappers

  datatype Dir = H | V

  datatype Pane =
    | Leaf(id: string, session: Option<string>)
    | Split(id: string, dir: Dir, ratio: real, first: Pane, second: Pane)

  const DEFAULT_RATIO := 0.5
  const RATIO_MIN := 0.1
  const RATIO_MAX := 0.9

  // ---------- Observations ----------

  function Ids(t: Pane): set<string> {
    match t
    case Leaf(id, _) => {id}
    case Split(id, _, _, first, second) => {id} + Ids(first) + Ids(second)
  }

  function LeafIds(t: Pane): (s: set<string>)
    ensures s <= Ids(t)
  {
    match t
    case Leaf(id, _) => {id}
    case Split(_, _, _, first, second) => LeafIds(first) + LeafIds(second)
  }

  /** No two nodes share an id. */
  predicate Distinct(t: Pane) {
    match t
    case Leaf(_, _) => true
    case Split(id, _, _, first, second) =>
      && id !in Ids(first) && id !in Ids(second) && Ids(first) !! Ids(second)
      && Distinct(first) && Distinct(second)
  }

  function Sessions(t: Pane): set<string> {
    match t
    case Leaf(_, None) => {}
    case Leaf(_, Some(s)) => {s}
    case Split(_, _, _, first, second) => Sessions(first) + Sessions(second)
  }

  /** No session is shown in two leaves. */
  predicate Exclusive(t: Pane) {
    t.Split? ==> Sessions(t.first) !! Sessions(t.second) && Exclusive(t.first) && Exclusive(t.second)
  }

  /** The leaves from first to last, leaving out those whose id is in `gone`. */
  function LeavesBut(t: Pane, gone: set<string>): seq<Pane> {
    match t
    case Leaf(id, _) => if id in gone then [] else [t]
    case Split(_, _, _, first, second) => LeavesBut(first, gone) + LeavesBut(second, gone)
  }

  function Leaves(t: Pane): seq<Pane> { LeavesBut(t, {}) }

  /** A split without its subtrees. */
  datatype Mark = Mark(id: string, dir: Dir, ratio: real)

  /** The splits, outer before inner and first before second, leaving out those in `gone`. */
  function SplitsBut(t: Pane, gone: set<string>): seq<Mark> {
    match t
    case Leaf(_, _) => []
    case Split(id, dir, ratio, first, second) =>
      (if id in gone then [] else [Mark(id, dir, ratio)]) + SplitsBut(first, gone) + SplitsBut(second, gone)
  }

  function Splits(t: Pane): seq<Mark> { SplitsBut(t, {}) }

  /** The subtree at node `id`. */
  function NodeAt(t: Pane, id: string): (n: Pane)
    requires id in Ids(t)
    ensures n.id == id && Ids(n) <= Ids(t)
  {
    if t.id == id then t
    else if id in Ids(t.first) then NodeAt(t.first, id)
    else NodeAt(t.second, id)
  }

  /** The id of the split that node `id` is a child of. */
  function ParentOf(t: Pane, id: string): (p: string)
    requires id in Ids(t) && t.id != id
    ensures p in Ids(t)
  {
    if t.first.id == id || t.second.id == id then t.id
    else if id in Ids(t.first) then ParentOf(t.first, id)
    else ParentOf(t.second, id)
  }

  // ---------- The operations ----------

  function FindLeaf(t: Pane, id: string): Option<Pane> {
    match t
    case Leaf(i, _) => if i == id then Some(t) else None
    case Split(_, _, _, first, second) =>
      var f := FindLeaf(first, id);
      if f.Some? then f else FindLeaf(second, id)
  }

  predicate HasLeaf(t: Pane, id: string) { FindLeaf(t, id).Some? }

  /** An unchanged child means an unchanged tree, which is then returned itself. */
  function ReplaceNode(root: Pane, id: string, next: Pane): Pane {
    if root.id == id then next
    else if root.Leaf? then root
    else
      var first, second := ReplaceNode(root.first, id, next), ReplaceNode(root.second, id, next);
      if first == root.first && second == root.second then root
      else root.(first := first, second := second)
  }

  /** What `removeNode` returns: null, the very tree it was given, or another tree. */
  datatype Removal = Gone | Same | Other(tree: Pane)

  function RemoveNode(root: Pane, id: string): Removal {
    if root.id == id then Gone
    else if root.Leaf? then Same
    else if root.first.id == id then Other(root.second)
    else if root.second.id == id then Other(root.first)
    else
      match RemoveNode(root.first, id)
      case Gone => Other(root.second)
      case Other(first) => Other(root.(first := first))
      case Same =>
        match RemoveNode(root.second, id)
        case Gone => Other(root.first)
        case Other(second) => Other(root.(second := second))
        case Same => Same
  }

  function SetLeafSession(root: Pane, leafId: string, session: Option<string>): Pane {
    match FindLeaf(root, leafId)
    case None => root
    case Some(target) => ReplaceNode(root, leafId, Leaf(target.id, session))
  }

  /** `splitId` and `leafId'` are the ids drawn for the new split and the new leaf. */
  function SplitLeaf(root: Pane, leafId: string, dir: Dir, splitId: string, newId: string): Pane {
    match FindLeaf(root, leafId)
    case None => root
    case Some(target) =>
      ReplaceNode(root, leafId, Split(splitId, dir, DEFAULT_RATIO, target, Leaf(newId, None)))
  }

  function Clamp(ratio: real): (r: real)
    ensures 0.1 <= ratio <= 0.9 ==> r == ratio
    ensures ratio < 0.1 ==> r == 0.1
    ensures ratio > 0.9 ==> r == 0.9
  {
    var low := if ratio < RATIO_MIN then RATIO_MIN else ratio;
    if low > RATIO_MAX then RATIO_MAX else low
  }

  function SetRatio(t: Pane, splitId: string, ratio: real): Pane {
    if t.Leaf? then t
    else if t.id == splitId then t.(ratio := Clamp(ratio))
    else
      var first, second := SetRatio(t.first, splitId, ratio), SetRatio(t.second, splitId, ratio);
      if first == t.first && second == t.second then t
      else t.(first := first, second := second)
  }

  function RemoveSession(t: Pane, session: string): Pane {
    if t.Leaf? then (if t.session == Some(session) then t.(session := None) else t)
    else
      var first, second := RemoveSession(t.first, session), RemoveSession(t.second, session);
      if first == t.first && second == t.second then t
      else t.(first := first, second := second)
  }

  /** The id of the leaf the walk along first children ends in. */
  function FirstLeaf(t: Pane): string {
    if t.Leaf? then t.id else FirstLeaf(t.first)
  }

  method FirstLeafId(node: Pane) returns (id: string)
    ensures id == FirstLeaf(node)
  {
    var cur := node;
    while cur.Split?
      invariant FirstLeaf(cur) == FirstLeaf(node)
      decreases cur
    {
      cur := cur.first;
    }
    return cur.id;
  }

  /** Walks the tree, adding every session to a set. */
  method PlacedSessionIds(node: Pane) returns (out: set<string>)
    ensures out == Sessions(node)
  {
    out := {};
    out := Walk(node, out);
  }

  method Walk(n: Pane, seen: set<string>) returns (out: set<string>)
    ensures out == seen + Sessions(n)
    decreases n
  {
    out := seen;
    if n.Leaf? {
      if n.session.Some? {
        out := out + {n.session.value};
      }
      return;
    }
    out := Walk(n.first, out);
    out := Walk(n.second, out);
  }

  // ---------- Finding ----------

  /** `findLeaf` finds exactly the leaves of the tree. */
  lemma {:induction false} FindLeafIn(t: Pane, id: string)
    ensures HasLeaf(t, id) <==> id in LeafIds(t)
    ensures HasLeaf(t, id) ==> FindLeaf(t, id).value.Leaf? && FindLeaf(t, id).value.id == id
  {
    if t.Leaf? {
    } else {
      FindLeafIn(t.first, id);
      FindLeafIn(t.second, id);
    }
  }

  /** The walk along first children ends in the first of the leaves. */
  lemma {:induction false} FirstLeafFound(t: Pane)
    ensures FirstLeaf(t) in LeafIds(t) && |Leaves(t)| > 0 && Leaves(t)[0].id == FirstLeaf(t)
  {
    if t.Leaf? {
    } else {
      FirstLeafFound(t.first);
    }
  }

  lemma {:induction false} ReplaceAbsent(t: Pane, id: string, next: Pane)
    requires id !in Ids(t)
    ensures ReplaceNode(t, id, next) == t
  {
    if t.Leaf? {
    } else {
      ReplaceAbsent(t.first, id, next);
      ReplaceAbsent(t.second, id, next);
    }
  }

  lemma {:induction false} NewFirst(t: Pane, id: string, next: Pane, first: Pane)
    requires t.Split? && Distinct(t) && id in LeafIds(t.first) && Ids(next) !! (Ids(t) - {id})
    requires Distinct(first) && Ids(first) == Ids(t.first) - {id} + Ids(next)
    requires LeafIds(first) == LeafIds(t.first) - {id} + LeafIds(next)
    ensures var r := t.(first := first);
            && Distinct(r) && Ids(r) == Ids(t) - {id} + Ids(next)
            && LeafIds(r) == LeafIds(t) - {id} + LeafIds(next)
  {
  }

  lemma {:induction false} NewSecond(t: Pane, id: string, next: Pane, second: Pane)
    requires t.Split? && Distinct(t) && id in LeafIds(t.second) && Ids(next) !! (Ids(t) - {id})
    requires Distinct(second) && Ids(second) == Ids(t.second) - {id} + Ids(next)
    requires LeafIds(second) == LeafIds(t.second) - {id} + LeafIds(next)
    ensures var r := t.(second := second);
            && Distinct(r) && Ids(r) == Ids(t) - {id} + Ids(next)
            && LeafIds(r) == LeafIds(t) - {id} + LeafIds(next)
  {
  }

  /** Replacing a leaf changes exactly that leaf; the new nodes must not clash with the others. */
  lemma {:induction false} ReplaceLeaf(t: Pane, id: string, next: Pane)
    requires Distinct(t) && id in LeafIds(t) && Distinct(next) && Ids(next) !! (Ids(t) - {id})
    ensures var r := ReplaceNode(t, id, next);
            && Distinct(r) && Ids(r) == Ids(t) - {id} + Ids(next)
            && LeafIds(r) == LeafIds(t) - {id} + LeafIds(next)
  {
    if t.Leaf? {
    } else {
      if id in LeafIds(t.first) {
        ReplaceLeaf(t.first, id, next);
        ReplaceAbsent(t.second, id, next);
        assert ReplaceNode(t, id, next) == t.(first := ReplaceNode(t.first, id, next));
        NewFirst(t, id, next, ReplaceNode(t.first, id, next));
      } else {
        ReplaceLeaf(t.second, id, next);
        ReplaceAbsent(t.first, id, next);
        assert ReplaceNode(t, id, next) == t.(second := ReplaceNode(t.second, id, next));
        NewSecond(t, id, next, ReplaceNode(t.second, id, next));
      }
    }
  }

  /** A list of leaves with the one called `id` replaced by several. */
  function Plugged(ls: seq<Pane>, id: string, with: seq<Pane>): seq<Pane> {
    if |ls| == 0 then [] else (if ls[0].id == id then with else [ls[0]]) + Plugged(ls[1..], id, with)
  }

  lemma {:induction false} PluggedAppend(a: seq<Pane>, b: seq<Pane>, id: string, with: seq<Pane>)
    ensures Plugged(a + b, id, with) == Plugged(a, id, with) + Plugged(b, id, with)
  {
    if |a| == 0 {
      assert a + b == b;
    } else {
      assert (a + b)[1..] == a[1..] + b;
      PluggedAppend(a[1..], b, id, with);
    }
  }

  lemma {:induction false} PluggedAbsent(t: Pane, id: string, with: seq<Pane>)
    requires id !in LeafIds(t)
    ensures Plugged(Leaves(t), id, with) == Leaves(t)
  {
    if t.Leaf? {
    } else {
      PluggedAppend(Leaves(t.first), Leaves(t.second), id, with);
      PluggedAbsent(t.first, id, with);
      PluggedAbsent(t.second, id, with);
    }
  }

  /** The replacement takes the leaf's place in the order of leaves, and all other splits stay as they are. */
  lemma {:induction false} ReplaceKeepsOrder(t: Pane, id: string, next: Pane)
    requires Distinct(t) && id in LeafIds(t) && Ids(next) !! (Ids(t) - {id})
    ensures Leaves(ReplaceNode(t, id, next)) == Plugged(Leaves(t), id, Leaves(next))
    ensures SplitsBut(ReplaceNode(t, id, next), Ids(next)) == Splits(t)
  {
    match t
    case Leaf(_, _) =>
      assert Leaves(t) == [t];
      ButAll(next, Ids(next));
    case Split(_, _, _, first, second) =>
      PluggedAppend(Leaves(first), Leaves(second), id, Leaves(next));
      assert id != t.id && t.id !in Ids(next);
      if id in LeafIds(first) {
        ReplaceInFirst(t, id, next);
        ReplaceKeepsOrder(first, id, next);
      } else {
        ReplaceInSecond(t, id, next);
        ReplaceKeepsOrder(second, id, next);
      }
  }

  lemma {:induction false} ReplaceInFirst(t: Pane, id: string, next: Pane)
    requires t.Split? && Distinct(t) && id in LeafIds(t.first) && Ids(next) !! (Ids(t) - {id})
    ensures ReplaceNode(t, id, next) == t.(first := ReplaceNode(t.first, id, next))
    ensures Plugged(Leaves(t.second), id, Leaves(next)) == Leaves(t.second)
    ensures SplitsBut(t.second, Ids(next)) == Splits(t.second)
  {
    ReplaceAbsent(t.second, id, next);
    PluggedAbsent(t.second, id, Leaves(next));
    ButAbsent(t.second, Ids(next));
  }

  lemma {:induction false} ReplaceInSecond(t: Pane, id: string, next: Pane)
    requires t.Split? && Distinct(t) && id in LeafIds(t.second) && Ids(next) !! (Ids(t) - {id})
    ensures ReplaceNode(t, id, next) == t.(second := ReplaceNode(t.second, id, next))
    ensures Plugged(Leaves(t.first), id, Leaves(next)) == Leaves(t.first)
    ensures SplitsBut(t.first, Ids(next)) == Splits(t.first)
  {
    ReplaceAbsent(t.first, id, next);
    PluggedAbsent(t.first, id, Leaves(next));
    ButAbsent(t.first, Ids(next));
  }

  /** Splitting puts an empty leaf right behind the leaf that was split. */
  lemma {:induction false} SplitInsertsBehind(t: Pane, id: string, dir: Dir, splitId: string, newId: string)
    requires Distinct(t) && id in LeafIds(t)
    requires splitId !in Ids(t) && newId !in Ids(t) && splitId != newId
    ensures FindLeaf(t, id).Some?
    ensures var t' := SplitLeaf(t, id, dir, splitId, newId);
            && Leaves(t') == Plugged(Leaves(t), id, [FindLeaf(t, id).value, Leaf(newId, None)])
            && SplitsBut(t', {splitId, id, newId}) == Splits(t)
  {
    FindLeafIn(t, id);
    var target := FindLeaf(t, id).value;
    var next := Split(splitId, dir, DEFAULT_RATIO, target, Leaf(newId, None));
    assert Leaves(next) == [target, Leaf(newId, None)] by {
      assert Leaves(next.first) == [target];
      assert Leaves(next.second) == [Leaf(newId, None)];
    }
    assert Ids(next) == {splitId, id, newId};
    ReplaceKeepsOrder(t, id, next);
  }

  /** What `SetLeafSession` does to the sessions of a tree that does not show the new one. */
  lemma {:induction false} SetLeafSessions(t: Pane, id: string, s: string)
    requires Distinct(t) && id in LeafIds(t) && Exclusive(t) && s !in Sessions(t)
    ensures var r := ReplaceNode(t, id, Leaf(id, Some(s)));
            && Exclusive(r)
            && Sessions(r) == Sessions(t) - ShownAt(t, id) + {s} && ShownAt(t, id) <= Sessions(t)
  {
    FindLeafIn(t, id);
    if t.Leaf? {
    } else {
      FindLeafIn(t.first, id);
      FindLeafIn(t.second, id);
      if id in LeafIds(t.first) {
        SetLeafSessions(t.first, id, s);
        ReplaceAbsent(t.second, id, Leaf(id, Some(s)));
      } else {
        SetLeafSessions(t.second, id, s);
        ReplaceAbsent(t.first, id, Leaf(id, Some(s)));
      }
    }
  }

  /** The session that leaf `id` shows, as a set. */
  function ShownAt(t: Pane, id: string): set<string> {
    match FindLeaf(t, id)
    case Some(Leaf(_, Some(s))) => {s}
    case _ => {}
  }

  lemma {:induction false} RemoveSessionShown(t: Pane, id: string, s: string)
    ensures ShownAt(RemoveSession(t, s), id) == ShownAt(t, id) - {s}
    ensures HasLeaf(RemoveSession(t, s), id) == HasLeaf(t, id)
  {
    if t.Leaf? {
    } else {
      RemoveSessionShown(t.first, id, s);
      RemoveSessionShown(t.second, id, s);
    }
  }

  /** Splitting a leaf leaves the sessions alone. */
  lemma {:induction false} SplitSessions(t: Pane, id: string, dir: Dir, splitId: string, newId: string)
    requires Distinct(t) && id in LeafIds(t)
    ensures Sessions(SplitLeaf(t, id, dir, splitId, newId)) == Sessions(t)
    ensures Exclusive(t) ==> Exclusive(SplitLeaf(t, id, dir, splitId, newId))
  {
    FindLeafIn(t, id);
    if t.Leaf? {
    } else {
      FindLeafIn(t.first, id);
      FindLeafIn(t.second, id);
      var next := Split(splitId, dir, DEFAULT_RATIO, FindLeaf(t, id).value, Leaf(newId, None));
      if id in LeafIds(t.first) {
        SplitSessions(t.first, id, dir, splitId, newId);
        ReplaceAbsent(t.second, id, next);
      } else {
        SplitSessions(t.second, id, dir, splitId, newId);
        ReplaceAbsent(t.first, id, next);
      }
    }
  }

  // ---------- Removing ----------

  /** The three answers of `removeNode`, by where the node is. */
  lemma {:induction false} RemoveAnswers(t: Pane, id: string)
    ensures RemoveNode(t, id).Gone? <==> t.id == id
    ensures RemoveNode(t, id).Same? <==> id !in Ids(t)
  {
    if t.Leaf? {
    } else {
      RemoveAnswers(t.first, id);
      RemoveAnswers(t.second, id);
    }
  }

  lemma {:induction false} ButAbsent(t: Pane, gone: set<string>)
    requires Ids(t) !! gone
    ensures LeavesBut(t, gone) == Leaves(t) && SplitsBut(t, gone) == Splits(t)
  {
    if t.Leaf? {
    } else {
      ButAbsent(t.first, gone);
      ButAbsent(t.second, gone);
    }
  }

  lemma {:induction false} ButAll(t: Pane, gone: set<string>)
    requires Ids(t) <= gone
    ensures LeavesBut(t, gone) == [] && SplitsBut(t, gone) == []
  {
    if t.Leaf? {
    } else {
      ButAll(t.first, gone);
      ButAll(t.second, gone);
    }
  }

  /**
   Removing a node other than the root deletes exactly its subtree and its parent split:
   every other leaf and split stays, in the same order, with its direction and ratio.
   */
  lemma {:induction false} RemoveDeletesExactly(t: Pane, id: string)
    requires Distinct(t) && id in Ids(t) && t.id != id
    ensures RemoveNode(t, id).Other?
    ensures var r, gone := RemoveNode(t, id).tree, Ids(NodeAt(t, id)) + {ParentOf(t, id)};
            && Ids(r) == Ids(t) - gone && Distinct(r)
            && Leaves(r) == LeavesBut(t, gone) && Splits(r) == SplitsBut(t, gone)
            && ParentOf(t, id) !in Ids(NodeAt(t, id))
    decreases t, 1
  {
    if id in Ids(t.first) {
      RemoveInFirst(t, id);
    } else {
      RemoveInSecond(t, id);
    }
  }

  lemma {:induction false} RemoveInFirst(t: Pane, id: string)
    requires Distinct(t) && t.Split? && id in Ids(t.first) && t.id != id
    ensures RemoveNode(t, id).Other?
    ensures var r, gone := RemoveNode(t, id).tree, Ids(NodeAt(t, id)) + {ParentOf(t, id)};
            && Ids(r) == Ids(t) - gone && Distinct(r)
            && Leaves(r) == LeavesBut(t, gone) && Splits(r) == SplitsBut(t, gone)
            && ParentOf(t, id) !in Ids(NodeAt(t, id))
    decreases t, 0
  {
    var gone := Ids(NodeAt(t, id)) + {ParentOf(t, id)};
    ButAbsent(t.second, gone);
    if t.first.id == id {
      assert NodeAt(t, id) == t.first;
      ButAll(t.first, gone);
    } else {
      RemoveDeletesExactly(t.first, id);
    }
  }

  lemma {:induction false} RemoveInSecond(t: Pane, id: string)
    requires Distinct(t) && t.Split? && id in Ids(t.second) && t.id != id
    ensures RemoveNode(t, id).Other?
    ensures var r, gone := RemoveNode(t, id).tree, Ids(NodeAt(t, id)) + {ParentOf(t, id)};
            && Ids(r) == Ids(t) - gone && Distinct(r)
            && Leaves(r) == LeavesBut(t, gone) && Splits(r) == SplitsBut(t, gone)
            && ParentOf(t, id) !in Ids(NodeAt(t, id))
    decreases t, 0
  {
    RemoveAnswers(t.first, id);
    var gone := Ids(NodeAt(t, id)) + {ParentOf(t, id)};
    ButAbsent(t.first, gone);
    if t.second.id == id {
      assert NodeAt(t, id) == t.second;
      ButAll(t.second, gone);
    } else {
      RemoveDeletesExactly(t.second, id);
    }
  }

  /** Closing the pane a split created gives back exactly the tree before the split. */
  lemma {:induction false} CloseUndoesSplit(t: Pane, id: string, dir: Dir, splitId: string, newId: string)
    requires Distinct(t) && id in LeafIds(t)
    requires splitId !in Ids(t) && newId !in Ids(t) && splitId != newId
    ensures RemoveNode(SplitLeaf(t, id, dir, splitId, newId), newId) == Other(t)
  {
    FindLeafIn(t, id);
    if t.Leaf? {
    } else {
      FindLeafIn(t.first, id);
      FindLeafIn(t.second, id);
      var next := Split(splitId, dir, DEFAULT_RATIO, FindLeaf(t, id).value, Leaf(newId, None));
      if id in LeafIds(t.first) {
        CloseUndoesSplit(t.first, id, dir, splitId, newId);
        ReplaceAbsent(t.second, id, next);
      } else {
        CloseUndoesSplit(t.second, id, dir, splitId, newId);
        ReplaceAbsent(t.first, id, next);
        RemoveAnswers(t.first, newId);
      }
    }
  }

  lemma {:induction false} RemoveSessions(t: Pane, id: string)
    requires RemoveNode(t, id).Other?
    ensures var r := RemoveNode(t, id).tree;
            && Sessions(r) <= Sessions(t) && (Exclusive(t) ==> Exclusive(r))
            && LeafIds(r) <= LeafIds(t)
  {
    if t.first.id != id && t.second.id != id {
      if RemoveNode(t.first, id).Other? {
        RemoveSessions(t.first, id);
      } else if RemoveNode(t.first, id).Same? && RemoveNode(t.second, id).Other? {
        RemoveSessions(t.second, id);
      }
    }
  }

  /** Removing a leaf other than the root takes it from the leaves and its session from those shown, and no more. */
  lemma {:induction false} RemoveLeaf(t: Pane, id: string)
    requires Distinct(t) && id in LeafIds(t) && t.id != id
    ensures RemoveNode(t, id).Other?
    ensures var r := RemoveNode(t, id).tree;
            && Leaves(r) == LeavesBut(t, {id}) && LeafIds(r) == LeafIds(t) - {id}
            && (Exclusive(t) ==> Sessions(r) == Sessions(t) - ShownAt(t, id))
  {
    FindLeafIn(t.first, id);
    FindLeafIn(t.second, id);
    if id in LeafIds(t.first) {
      ButAbsent(t.second, {id});
      ShownIsThere(t.first, id);
      if t.first.id == id {
        ButAll(t.first, {id});
      } else {
        RemoveLeaf(t.first, id);
      }
    } else {
      ButAbsent(t.first, {id});
      ShownIsThere(t.second, id);
      RemoveAnswers(t.first, id);
      if t.second.id == id {
        ButAll(t.second, {id});
      } else {
        RemoveLeaf(t.second, id);
      }
    }
  }

  lemma {:induction false} ShownIsThere(t: Pane, id: string)
    ensures ShownAt(t, id) <= Sessions(t)
    ensures t.Leaf? && t.id == id ==> ShownAt(t, id) == Sessions(t)
  {
    if t.Leaf? {
    } else {
      ShownIsThere(t.first, id);
      ShownIsThere(t.second, id);
    }
  }

  // ---------- Ratios and sessions ----------

  /** The marks of a tree whose split `id` got the ratio `ratio`. */
  function Remarked(ms: seq<Mark>, id: string, ratio: real): (r: seq<Mark>)
    ensures |r| == |ms|
    ensures forall k :: 0 <= k < |ms| ==> r[k] == if ms[k].id == id then ms[k].(ratio := ratio) else ms[k]
  {
    seq(|ms|, k requires 0 <= k < |ms| => if ms[k].id == id then ms[k].(ratio := ratio) else ms[k])
  }

  lemma {:induction false} RemarkedAbsent(t: Pane, id: string, ratio: real)
    requires id !in Ids(t)
    ensures SetRatio(t, id, ratio) == t && Remarked(Splits(t), id, Clamp(ratio)) == Splits(t)
  {
    if t.Leaf? {
    } else {
      RemarkedAbsent(t.first, id, ratio);
      RemarkedAbsent(t.second, id, ratio);
      assert Splits(t) == [Mark(t.id, t.dir, t.ratio)] + Splits(t.first) + Splits(t.second);
      RemarkedAppend(t, id, Clamp(ratio));
    }
  }

  lemma {:induction false} RemarkedAppend(t: Pane, id: string, ratio: real)
    requires t.Split?
    ensures Remarked(Splits(t), id, ratio) ==
            [Mark(t.id, t.dir, if t.id == id then ratio else t.ratio)]
              + Remarked(Splits(t.first), id, ratio) + Remarked(Splits(t.second), id, ratio)
  {
    assert Splits(t) == [Mark(t.id, t.dir, t.ratio)] + Splits(t.first) + Splits(t.second);
  }

  /** Moving a divider gives the split named the ratio nearest to the one asked for, and no other split a new one. */
  lemma {:induction false} SetRatioSetsOne(t: Pane, id: string, ratio: real)
    requires Distinct(t)
    ensures Splits(SetRatio(t, id, ratio)) == Remarked(Splits(t), id, Clamp(ratio))
  {
    if t.Leaf? {
    } else {
      RemarkedAppend(t, id, Clamp(ratio));
      if t.id == id {
        RemarkedAbsent(t.first, id, ratio);
        RemarkedAbsent(t.second, id, ratio);
      } else {
        SetRatioSetsOne(t.first, id, ratio);
        SetRatioSetsOne(t.second, id, ratio);
      }
    }
  }

  /** A tree with the same nodes and sessions in the same places. */
  predicate SameShape(a: Pane, b: Pane) {
    match a
    case Leaf(id, s) => b == a
    case Split(id, dir, _, first, second) =>
      b.Split? && b.id == id && b.dir == dir && SameShape(first, b.first) && SameShape(second, b.second)
  }

  lemma {:induction false} SetRatioShape(t: Pane, splitId: string, ratio: real)
    ensures SameShape(t, SetRatio(t, splitId, ratio))
  {
    if t.Leaf? {
    } else {
      SameShapeSelf(t.first);
      SameShapeSelf(t.second);
      SetRatioShape(t.first, splitId, ratio);
      SetRatioShape(t.second, splitId, ratio);
    }
  }

  lemma {:induction false} SameShapeSelf(t: Pane)
    ensures SameShape(t, t)
  {
    if t.Leaf? {
    } else {
      SameShapeSelf(t.first);
      SameShapeSelf(t.second);
    }
  }

  lemma {:induction false} SameShapeObserves(a: Pane, b: Pane)
    requires SameShape(a, b)
    ensures Ids(a) == Ids(b) && Sessions(a) == Sessions(b) && Distinct(a) == Distinct(b)
    ensures Exclusive(a) == Exclusive(b) && Leaves(a) == Leaves(b)
    ensures LeafIds(a) == LeafIds(b)
  {
    if a.Leaf? {
    } else {
      SameShapeObserves(a.first, b.first);
      SameShapeObserves(a.second, b.second);
    }
  }

  /** The leaves with those showing `s` emptied. */
  function Emptied(ls: seq<Pane>, s: string): (r: seq<Pane>)
    ensures |r| == |ls|
  {
    seq(|ls|, k requires 0 <= k < |ls| =>
      if ls[k].Leaf? && ls[k].session == Some(s) then Leaf(ls[k].id, None) else ls[k])
  }

  lemma {:induction false} EmptiedAppend(a: seq<Pane>, b: seq<Pane>, s: string)
    ensures Emptied(a + b, s) == Emptied(a, s) + Emptied(b, s)
  {
  }

  /** Unplacing a session empties its leaf and changes nothing else. */
  lemma {:induction false} RemoveSessionOnly(t: Pane, s: string)
    ensures var r := RemoveSession(t, s);
            && Sessions(r) == Sessions(t) - {s} && Ids(r) == Ids(t) && Splits(r) == Splits(t)
            && Leaves(r) == Emptied(Leaves(t), s)
            && (Distinct(t) ==> Distinct(r)) && (Exclusive(t) ==> Exclusive(r))
            && (s !in Sessions(t) ==> r == t) && LeafIds(r) == LeafIds(t)
  {
    match t
    case Leaf(_, _) =>
      assert Leaves(t) == [t];
    case Split(_, _, _, first, second) =>
      RemoveSessionOnly(first, s);
      RemoveSessionOnly(second, s);
      EmptiedAppend(Leaves(first), Leaves(second), s);
  }

  // ---------- Repeated ids ----------

  function B2N(b: bool): nat { if b then 1 else 0 }

  /** How many nodes carry the id. */
  function Uses(t: Pane, id: string): nat {
    B2N(t.id == id) + if t.Leaf? then 0 else Uses(t.first, id) + Uses(t.second, id)
  }

  /** How many nodes carry the id without lying below another one that does. */
  function TopUses(t: Pane, id: string): nat {
    if t.id == id then 1 else if t.Leaf? then 0 else TopUses(t.first, id) + TopUses(t.second, id)
  }

  /** How many leaves show the session. */
  function Showing(t: Pane, s: string): nat {
    match t
    case Leaf(_, shown) => B2N(shown == Some(s))
    case Split(_, _, _, first, second) => Showing(first, s) + Showing(second, s)
  }

  predicate IsSplit(t: Pane, id: string) {
    t.Split? && (t.id == id || IsSplit(t.first, id) || IsSplit(t.second, id))
  }

  lemma {:induction false} LeavesNonEmpty(t: Pane)
    ensures |Leaves(t)| > 0
  {
    if t.Leaf? {
    } else {
      LeavesNonEmpty(t.first);
      LeavesNonEmpty(t.second);
    }
  }

  lemma {:induction false} RemovedIsNowhere(t: Pane, s: string, id: string)
    ensures var r := RemoveSession(t, s);
            && Showing(r, s) == 0 && r.id == t.id && r.Leaf? == t.Leaf?
            && Uses(r, id) == Uses(t, id) && TopUses(r, id) == TopUses(t, id) && IsSplit(r, id) == IsSplit(t, id)
  {
    if t.Leaf? {
    } else {
      RemovedIsNowhere(t.first, s, id);
      RemovedIsNowhere(t.second, s, id);
    }
  }

  /** Replacement reaches every topmost node with the id, and takes away what is below it. */
  lemma {:induction false} ReplaceReachesAll(t: Pane, id: string, s: string)
    requires Showing(t, s) == 0
    ensures var r := ReplaceNode(t, id, Leaf(id, Some(s)));
            && Showing(r, s) == TopUses(t, id) && |Leaves(r)| <= |Leaves(t)|
            && (|Leaves(r)| == |Leaves(t)| <==> !IsSplit(t, id))
  {
    if t.Leaf? {
    } else {
      LeavesNonEmpty(t.first);
      LeavesNonEmpty(t.second);
      ReplaceReachesAll(t.first, id, s);
      ReplaceReachesAll(t.second, id, s);
    }
  }

  lemma {:induction false} UsesOfLeaf(t: Pane, id: string)
    ensures TopUses(t, id) <= Uses(t, id)
    ensures !IsSplit(t, id) ==> TopUses(t, id) == Uses(t, id)
    ensures HasLeaf(t, id) ==> Uses(t, id) > B2N(IsSplit(t, id))
  {
    if t.Leaf? {
    } else {
      UsesOfLeaf(t.first, id);
      UsesOfLeaf(t.second, id);
      IsSplitUses(t.first, id);
      IsSplitUses(t.second, id);
    }
  }

  lemma {:induction false} IsSplitUses(t: Pane, id: string)
    ensures IsSplit(t, id) ==> Uses(t, id) > 0
  {
    if t.Leaf? {
    } else {
      IsSplitUses(t.first, id);
      IsSplitUses(t.second, id);
    }
  }

  /**
   Showing a session in a pane works, in that one leaf shows it and no pane disappears, if
   and only if no other node carries the pane's id.
   */
  lemma {:induction false} ShowWorksIff(t: Pane, id: string, s: string)
    requires HasLeaf(t, id)
    ensures var r := SetLeafSession(RemoveSession(t, s), id, Some(s));
            Showing(r, s) == 1 && |Leaves(r)| == |Leaves(t)| <==> Uses(t, id) == 1
  {
    var c := RemoveSession(t, s);
    RemovedIsNowhere(t, s, id);
    RemoveSessionShown(t, id, s);
    RemoveSessionOnly(t, s);
    FindLeafIn(c, id);
    ReplaceReachesAll(c, id, s);
    UsesOfLeaf(t, id);
  }
}
