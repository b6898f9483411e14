/** The layout store behind the split view: tree, focus, placed sessions and debounced saving. */
module Layout {
  import opened Wrappers
  import opened PaneTree
  import opened LayoutBlob
  import Geometry

  /**
   `rootRef` is the committed tree the actions compute on and `root` the rendered one.
   `timers` holds, by timer id, the tree each pending save will send; `server` is the blob
   the server keeps.  `committed` records the tree of the newest commit.
   */
  datatype State = State(
    rootRef: Pane, root: Pane, focused: string, placed: set<string>,
    saveTimer: nat, timers: map<nat, Pane>, lastTimer: nat,
    server: Option<Json>, committed: Option<Pane>)

  function Initial(id: string): State {
    State(Leaf(id, None), Leaf(id, None), id, {}, 0, map[], 0, None, None)
  }

  // ---------- Actions ----------

  /** Cancels the pending save and schedules one for `next`. */
  function Persist(l: State, next: Pane): State {
    var id := l.lastTimer + 1;
    l.(timers := (l.timers - {l.saveTimer})[id := next], saveTimer := id, lastTimer := id)
  }

  function Commit(l: State, next: Pane): State {
    Persist(l.(rootRef := next, root := next, placed := Sessions(next), committed := Some(next)), next)
  }

  function FocusPane(l: State, pane: string): State { l.(focused := pane) }

  /** A pane that has gone in the meantime changes nothing. */
  function AssignSession(l: State, pane: string, session: string): State {
    if !HasLeaf(l.rootRef, pane) then l else
    var cleared := RemoveSession(l.rootRef, session);
    Commit(l, SetLeafSession(cleared, pane, Some(session))).(focused := pane)
  }

  function SplitPane(l: State, pane: string, dir: Dir, splitId: string, newId: string): State {
    Commit(l, SplitLeaf(l.rootRef, pane, dir, splitId, newId))
  }

  /** `freshId` names the empty leaf that replaces a closed root. */
  function ClosePane(l: State, pane: string, freshId: string): State {
    var next := match RemoveNode(l.rootRef, pane)
                case Gone => Leaf(freshId, None)
                case Same => l.rootRef
                case Other(tree) => tree;
    var c := Commit(l, next);
    c.(focused := if HasLeaf(next, c.focused) then c.focused else FirstLeaf(next))
  }

  function ChangeRatio(l: State, splitId: string, ratio: real): State {
    Commit(l, SetRatio(l.rootRef, splitId, ratio))
  }

  function UnplaceSession(l: State, session: string): State {
    Commit(l, RemoveSession(l.rootRef, session))
  }

  /** The last leaf showing a session, or `found` if there is none. */
  function LeafShowing(t: Pane, session: string, found: string): string {
    match t
    case Leaf(id, s) => if s == Some(session) then id else found
    case Split(_, _, _, first, second) => LeafShowing(second, session, LeafShowing(first, session, found))
  }

  function FocusSession(l: State, session: string): State {
    var found := LeafShowing(l.rootRef, session, "");
    if found != "" then l.(focused := found) else l
  }

  /** The stored blob arrives after a login; one that is rejected changes nothing. */
  function Restore(l: State, blob: Json): State {
    match ParseLayout(blob)
    case None => l
    case Some(parsed) =>
      l.(rootRef := parsed, root := parsed, focused := FirstLeaf(parsed), placed := Sessions(parsed))
  }

  /** The save timer fires and the server stores the blob. */
  function Save(l: State, id: nat): State
    requires id in l.timers
  {
    l.(timers := l.timers - {id}, server := Some(Encode(l.timers[id])))
  }

  // ---------- Runs ----------

  datatype Event =
    | Focus(pane: string)
    | Assign(pane: string, session: string)
    | DoSplit(pane: string, dir: Dir, splitId: string, newId: string)
    | ClosePaneAt(pane: string, freshId: string)
    | Ratio(splitId: string, ratio: real)
    | Unplace(session: string)
    | FocusOn(session: string)
    | Restored(blob: Json)
    | Fire(id: nat)

  /**
   What the environment guarantees: only live panes are focused, drawn ids are new, a
   restored layout has distinct ids and shows no session twice, and timers are pending.
   */
  ghost predicate Enabled(l: State, ev: Event) {
    match ev
    case Focus(pane) => HasLeaf(l.rootRef, pane)
    case DoSplit(_, _, splitId, newId) =>
      splitId !in Ids(l.rootRef) && newId !in Ids(l.rootRef) && splitId != newId
    case Restored(blob) =>
      ParseLayout(blob).Some? ==> Distinct(ParseLayout(blob).value) && Exclusive(ParseLayout(blob).value)
    case Fire(id) => id in l.timers
    case _ => true
  }

  ghost function Step(l: State, ev: Event): State {
    if !Enabled(l, ev) then l else
    match ev
    case Focus(pane) => FocusPane(l, pane)
    case Assign(pane, session) => AssignSession(l, pane, session)
    case DoSplit(pane, dir, splitId, newId) => SplitPane(l, pane, dir, splitId, newId)
    case ClosePaneAt(pane, freshId) => ClosePane(l, pane, freshId)
    case Ratio(splitId, ratio) => ChangeRatio(l, splitId, ratio)
    case Unplace(session) => UnplaceSession(l, session)
    case FocusOn(session) => FocusSession(l, session)
    case Restored(blob) => Restore(l, blob)
    case Fire(id) => Save(l, id)
  }

  ghost function Run(l: State, evs: seq<Event>): State
    decreases |evs|
  {
    if |evs| == 0 then l else Step(Run(l, evs[..|evs| - 1]), evs[|evs| - 1])
  }

  // ---------- The invariant ----------

  /** Tree, focus and placed set agree. */
  ghost predicate TreeOk(l: State) {
    && l.root == l.rootRef && Distinct(l.rootRef) && Exclusive(l.rootRef)
    && l.focused in LeafIds(l.rootRef) && l.placed == Sessions(l.rootRef)
  }

  /** At most one save is pending and it carries the newest commit; otherwise the server has it. */
  ghost predicate SaveOk(l: State) {
    && l.saveTimer <= l.lastTimer
    && (forall id :: id in l.timers ==> id == l.saveTimer && l.committed == Some(l.timers[id]))
    && (l.saveTimer !in l.timers && l.committed.Some? ==> l.server == Some(Encode(l.committed.value)))
  }

  ghost predicate Inv(l: State) { TreeOk(l) && SaveOk(l) }

  lemma {:induction false} CommitKeeps(l: State, next: Pane, focus: string)
    requires SaveOk(l) && Distinct(next) && Exclusive(next) && focus in LeafIds(next)
    ensures Inv(Commit(l, next).(focused := focus))
  {
  }

  lemma {:induction false} AssignResult(t: Pane, pane: string, session: string)
    requires Distinct(t) && Exclusive(t) && pane in LeafIds(t)
    ensures var r := SetLeafSession(RemoveSession(t, session), pane, Some(session));
            && Distinct(r) && Exclusive(r) && LeafIds(r) == LeafIds(t)
            && Sessions(r) == Sessions(t) - ShownAt(t, pane) + {session}
            && ShownAt(r, pane) == {session}
            && Leaves(r) == Plugged(Emptied(Leaves(t), session), pane, [Leaf(pane, Some(session))])
            && Splits(r) == Splits(t)
  {
    var c := RemoveSession(t, session);
    RemoveSessionOnly(t, session);
    RemoveSessionShown(t, pane, session);
    FindLeafIn(t, pane);
    FindLeafIn(c, pane);
    var next := Leaf(pane, Some(session));
    ReplaceLeaf(c, pane, next);
    SetLeafSessions(c, pane, session);
    ShownAfterReplace(c, pane, next);
    ReplaceKeepsOrder(c, pane, next);
    assert Leaves(next) == [next];
    LeafIsNoSplit(ReplaceNode(c, pane, next), pane);
  }

  lemma {:induction false} LeafIsNoSplit(t: Pane, id: string)
    requires Distinct(t) && id in LeafIds(t)
    ensures SplitsBut(t, {id}) == Splits(t)
  {
    if t.Leaf? {
    } else {
      if id in LeafIds(t.first) {
        LeafIsNoSplit(t.first, id);
        ButAbsent(t.second, {id});
      } else {
        LeafIsNoSplit(t.second, id);
        ButAbsent(t.first, {id});
      }
    }
  }

  lemma {:induction false} ShownAfterReplace(t: Pane, pane: string, next: Pane)
    requires Distinct(t) && pane in LeafIds(t) && next.Leaf? && next.id == pane
    ensures FindLeaf(ReplaceNode(t, pane, next), pane) == Some(next)
  {
    if t.Leaf? {
    } else {
      if pane in LeafIds(t.first) {
        ShownAfterReplace(t.first, pane, next);
      } else {
        ReplaceAbsent(t.first, pane, next);
        FindLeafIn(t.first, pane);
        ShownAfterReplace(t.second, pane, next);
      }
    }
  }

  lemma {:induction false} LeafShowingFound(t: Pane, session: string, found: string)
    ensures session !in Sessions(t) ==> LeafShowing(t, session, found) == found
    ensures session in Sessions(t) ==> LeafShowing(t, session, found) in LeafIds(t)
    ensures session in Sessions(t) && Distinct(t) ==> session in ShownAt(t, LeafShowing(t, session, found))
  {
    if t.Leaf? {
    } else {
      var mid := LeafShowing(t.first, session, found);
      LeafShowingFound(t.first, session, found);
      LeafShowingFound(t.second, session, mid);
      FindLeafIn(t.first, LeafShowing(t, session, found));
    }
  }

  lemma {:induction false} SplitKeeps(l: State, pane: string, dir: Dir, splitId: string, newId: string)
    requires Inv(l) && Enabled(l, DoSplit(pane, dir, splitId, newId))
    ensures Inv(SplitPane(l, pane, dir, splitId, newId))
  {
    var t := l.rootRef;
    FindLeafIn(t, pane);
    if HasLeaf(t, pane) {
      var next := Split(splitId, dir, DEFAULT_RATIO, FindLeaf(t, pane).value, Leaf(newId, None));
      ReplaceLeaf(t, pane, next);
      SplitSessions(t, pane, dir, splitId, newId);
    }
    CommitKeeps(l, SplitLeaf(t, pane, dir, splitId, newId), l.focused);
  }

  lemma {:induction false} CloseKeeps(l: State, pane: string, freshId: string)
    requires Inv(l)
    ensures Inv(ClosePane(l, pane, freshId))
  {
    var t := l.rootRef;
    RemoveAnswers(t, pane);
    var next := ClosePane(l, pane, freshId).rootRef;
    if pane in Ids(t) && t.id != pane {
      RemoveDeletesExactly(t, pane);
      RemoveSessions(t, pane);
    }
    FindLeafIn(next, l.focused);
    FirstLeafFound(next);
    CommitKeeps(l, next, ClosePane(l, pane, freshId).focused);
  }

  lemma {:induction false} StepKeeps(l: State, ev: Event)
    requires Inv(l)
    ensures Inv(Step(l, ev))
  {
    if Enabled(l, ev) {
      var t := l.rootRef;
      match ev {
        case Focus(pane) => FindLeafIn(t, pane);
        case Assign(pane, session) =>
          FindLeafIn(t, pane);
          if HasLeaf(t, pane) {
            AssignResult(t, pane, session);
            CommitKeeps(l, SetLeafSession(RemoveSession(t, session), pane, Some(session)), pane);
          }
        case DoSplit(pane, dir, splitId, newId) => SplitKeeps(l, pane, dir, splitId, newId);
        case ClosePaneAt(pane, freshId) => CloseKeeps(l, pane, freshId);
        case Ratio(splitId, ratio) =>
          SetRatioShape(t, splitId, ratio);
          SameShapeObserves(t, SetRatio(t, splitId, ratio));
          CommitKeeps(l, SetRatio(t, splitId, ratio), l.focused);
        case Unplace(session) =>
          RemoveSessionOnly(t, session);
          CommitKeeps(l, RemoveSession(t, session), l.focused);
        case FocusOn(session) => LeafShowingFound(t, session, "");
        case Restored(blob) =>
          if ParseLayout(blob).Some? {
            FirstLeafFound(ParseLayout(blob).value);
          }
        case Fire(id) =>
      }
    }
  }

  // ---------- Theorems over every run ----------

  lemma {:induction false} RunKeeps(id: string, evs: seq<Event>)
    ensures Inv(Run(Initial(id), evs))
    decreases |evs|
  {
    if |evs| == 0 {
    } else {
      RunKeeps(id, evs[..|evs| - 1]);
      StepKeeps(Run(Initial(id), evs[..|evs| - 1]), evs[|evs| - 1]);
    }
  }

  ghost predicate Reachable(l: State) {
    exists id, evs :: l == Run(Initial(id), evs)
  }

  /**
   After every run node ids are distinct, the focus names a leaf of the rendered tree, the
   placed set is that of the tree, and no session is shown in two leaves.
   */
  lemma {:induction false} LayoutAgrees(l: State)
    requires Reachable(l)
    ensures l.root == l.rootRef && Distinct(l.root) && Exclusive(l.root)
    ensures HasLeaf(l.root, l.focused) && l.placed == Sessions(l.root)
  {
    var id, evs :| l == Run(Initial(id), evs);
    RunKeeps(id, evs);
    FindLeafIn(l.root, l.focused);
  }

  /**
   Assigning a session to a live pane shows it there and nowhere else: the placed set gains
   exactly that session and loses exactly the one displaced.  Assigning to a pane that has
   gone changes nothing.
   */
  lemma {:induction false} AssignPlacesExactly(l: State, pane: string, session: string)
    requires Reachable(l)
    ensures var l' := AssignSession(l, pane, session);
            if HasLeaf(l.root, pane) then
              && l'.placed == l.placed - ShownAt(l.root, pane) + {session}
              && ShownAt(l'.root, pane) == {session} && Exclusive(l'.root)
              && LeafIds(l'.root) == LeafIds(l.root) && l'.focused == pane
              && Leaves(l'.root) == Plugged(Emptied(Leaves(l.root), session), pane, [Leaf(pane, Some(session))])
              && Splits(l'.root) == Splits(l.root)
            else l' == l
  {
    LayoutAgrees(l);
    FindLeafIn(l.root, pane);
    if HasLeaf(l.root, pane) {
      AssignResult(l.root, pane, session);
    }
  }

  /**
   Closing a live pane removes it and unplaces exactly its session; the focus stays unless it
   was on that pane, and then goes to the first leaf.  Closing the root leaves one empty leaf.
   */
  lemma {:induction false} CloseUnplacesExactly(l: State, pane: string, freshId: string)
    requires Reachable(l) && HasLeaf(l.root, pane)
    ensures var l' := ClosePane(l, pane, freshId);
            if l.root.id == pane then
              l'.root == Leaf(freshId, None) && l'.focused == freshId && l'.placed == {}
            else
              && Leaves(l'.root) == LeavesBut(l.root, {pane})
              && l'.placed == l.placed - ShownAt(l.root, pane)
              && l'.focused == if l.focused == pane then FirstLeaf(l'.root) else l.focused
  {
    LayoutAgrees(l);
    FindLeafIn(l.root, pane);
    FindLeafIn(l.root, l.focused);
    var next := ClosePane(l, pane, freshId).root;
    FindLeafIn(next, l.focused);
    if l.root.id != pane {
      RemoveLeaf(l.root, pane);
    }
  }

  /** Focusing a session focuses the one leaf that shows it, provided that leaf has a non-empty id. */
  lemma {:induction false} FocusSessionFinds(l: State, session: string)
    requires Reachable(l)
    ensures var found := LeafShowing(l.root, session, "");
            if session in l.placed && found != ""
            then FocusSession(l, session).focused == found && ShownAt(l.root, found) == {session}
            else FocusSession(l, session) == l
  {
    LayoutAgrees(l);
    LeafShowingFound(l.root, session, "");
  }

  /** What splitting, dragging, unplacing and focusing do, besides saving. */
  lemma {:induction false} EditsDoExactly(
      l: State, pane: string, dir: Dir, splitId: string, newId: string, ratio: real, session: string)
    requires Reachable(l)
    ensures var l' := SplitPane(l, pane, dir, splitId, newId);
            && l'.focused == l.focused
            && (!HasLeaf(l.root, pane) ==> l'.root == l.root && l'.placed == l.placed)
            && (HasLeaf(l.root, pane) && Enabled(l, DoSplit(pane, dir, splitId, newId)) ==>
                  && Leaves(l'.root) == Plugged(Leaves(l.root), pane, [FindLeaf(l.root, pane).value, Leaf(newId, None)])
                  && SplitsBut(l'.root, {splitId, pane, newId}) == Splits(l.root) && l'.placed == l.placed)
    ensures var l' := ChangeRatio(l, splitId, ratio);
            && Splits(l'.root) == Remarked(Splits(l.root), splitId, Clamp(ratio))
            && Leaves(l'.root) == Leaves(l.root) && l'.placed == l.placed && l'.focused == l.focused
    ensures var l' := UnplaceSession(l, session);
            && Leaves(l'.root) == Emptied(Leaves(l.root), session) && Splits(l'.root) == Splits(l.root)
            && l'.placed == l.placed - {session} && l'.focused == l.focused
    ensures var l' := FocusPane(l, pane); l'.focused == pane && l'.root == l.root && l'.placed == l.placed
  {
    LayoutAgrees(l);
    FindLeafIn(l.root, pane);
    if HasLeaf(l.root, pane) && Enabled(l, DoSplit(pane, dir, splitId, newId)) {
      SplitInsertsBehind(l.root, pane, dir, splitId, newId);
      SplitSessions(l.root, pane, dir, splitId, newId);
    }
    SetRatioSetsOne(l.root, splitId, ratio);
    SetRatioShape(l.root, splitId, ratio);
    SameShapeObserves(l.root, SetRatio(l.root, splitId, ratio));
    RemoveSessionOnly(l.root, session);
  }

  /** The actions that change the tree. */
  ghost predicate Edits(l: State, ev: Event) {
    match ev
    case Assign(pane, _) => HasLeaf(l.rootRef, pane)
    case DoSplit(_, _, _, _) => Enabled(l, ev)
    case ClosePaneAt(_, _) => true
    case Ratio(_, _) => true
    case Unplace(_) => true
    case _ => false
  }

  /** Every edit leaves exactly one save pending, and that one carries the new tree. */
  lemma {:induction false} EveryEditSaves(l: State, ev: Event)
    requires Reachable(l) && Edits(l, ev)
    ensures var l' := Step(l, ev); l'.timers == map[l'.saveTimer := l'.rootRef]
  {
    var id, evs :| l == Run(Initial(id), evs);
    RunKeeps(id, evs);
    assert l.timers - {l.saveTimer} == map[];
  }

  /** The tree is in safe hands: still the initial leaf, or carried by the one pending save, or on the server. */
  ghost predicate Safe(l: State, id: string) {
    || (l.rootRef == Leaf(id, None) && l.timers == map[])
    || l.timers == map[l.saveTimer := l.rootRef]
    || (l.timers == map[] && l.server == Some(Encode(l.rootRef)))
  }

  lemma {:induction false} SafeStep(l: State, ev: Event, id: string)
    requires Inv(l) && Safe(l, id) && !ev.Restored?
    ensures Safe(Step(l, ev), id)
  {
    assert forall t :: t in l.timers ==> t == l.saveTimer;
    assert l.timers - {l.saveTimer} == map[];
    if ev.Fire? && Enabled(l, ev) {
      assert l.timers - {ev.id} == map[];
    }
  }

  /** Over every run without a restore, no edit is ever lost: what the page shows is pending or on the server. */
  lemma {:induction false} NothingIsLost(id: string, evs: seq<Event>)
    requires forall k :: 0 <= k < |evs| ==> !evs[k].Restored?
    ensures Safe(Run(Initial(id), evs), id)
    decreases |evs|
  {
    if |evs| == 0 {
    } else {
      var before := evs[..|evs| - 1];
      NothingIsLost(id, before);
      RunKeeps(id, before);
      SafeStep(Run(Initial(id), before), evs[|evs| - 1], id);
    }
  }

  /** So a reload after the save has gone out shows the tree that was on the screen. */
  lemma {:induction false} ReloadShowsTheSame(id: string, evs: seq<Event>, page: State)
    requires forall k :: 0 <= k < |evs| ==> !evs[k].Restored?
    requires var l := Run(Initial(id), evs); l.timers == map[] && l.rootRef != Leaf(id, None)
    ensures var l := Run(Initial(id), evs);
            && l.server.Some?
            && var r := Restore(page, l.server.value); r.root == l.root == r.rootRef && r.placed == l.placed
  {
    NothingIsLost(id, evs);
    RunKeeps(id, evs);
    var l := Run(Initial(id), evs);
    assert l.saveTimer !in l.timers;
    ParseOfEncode(l.rootRef);
  }

  /**
   A stored layout with a malformed node is ignored.  Any other one replaces what is shown,
   with the focus on its first leaf, and neither server nor pending save takes notice.
   */
  lemma {:induction false} RestoreShowsIff(l: State, blob: Json)
    ensures var l' := Restore(l, blob);
            if exists path :: MalformedOn(blob, path) then l' == l
            else
              && Some(l'.rootRef) == ParseLayout(blob) && l'.root == l'.rootRef
              && |Leaves(l'.root)| > 0 && l'.focused == Leaves(l'.root)[0].id && l'.placed == Sessions(l'.root)
              && l'.server == l.server && l'.timers == l.timers && l'.saveTimer == l.saveTimer
  {
    RejectedIffMalformed(blob);
    if ParseLayout(blob).Some? {
      FirstLeafFound(ParseLayout(blob).value);
    }
  }

  /** At most one debounced save is pending, and it carries the newest committed tree. */
  lemma {:induction false} SaveCarriesNewest(l: State, a: nat, b: nat)
    requires Reachable(l) && a in l.timers && b in l.timers
    ensures a == b == l.saveTimer && l.committed == Some(l.timers[a])
  {
    var id, evs :| l == Run(Initial(id), evs);
    RunKeeps(id, evs);
  }

  /**
   Once no save is pending, restoring what the server keeps gives the newest committed
   tree and its placed set back, whatever the restoring page showed before.
   */
  lemma {:induction false} RestoreGivesNewestCommit(l: State, page: State)
    requires Reachable(l) && l.timers == map[] && l.committed.Some?
    ensures l.server.Some?
    ensures var r := Restore(page, l.server.value);
            && r.root == l.committed.value && r.rootRef == r.root && r.placed == Sessions(l.committed.value)
            && HasLeaf(r.root, r.focused)
  {
    var id, evs :| l == Run(Initial(id), evs);
    RunKeeps(id, evs);
    var t := l.committed.value;
    ParseOfEncode(t);
    FirstLeafFound(t);
    FindLeafIn(t, FirstLeaf(t));
  }

  /**
   What a restored layout is good for.  Validation does not look at ids across nodes: after
   restoring an accepted blob, assigning a session to one of its panes shows it in exactly
   one leaf and keeps all panes if and only if no other node has that pane's id.
   */
  lemma {:induction false} RestoredPaneWorksIff(l: State, blob: Json, pane: string, session: string)
    requires ParseLayout(blob).Some? && HasLeaf(ParseLayout(blob).value, pane)
    ensures var t, r := ParseLayout(blob).value, AssignSession(Restore(l, blob), pane, session);
            Showing(r.root, session) == 1 && |Leaves(r.root)| == |Leaves(t)| <==> Uses(t, pane) == 1
  {
    ShowWorksIff(ParseLayout(blob).value, pane, session);
  }

  /** A blob with one id twice is accepted, and assigning a session to that pane then shows it twice. */
  lemma {:induction false} DuplicateIdsAreAccepted(l: State, id: string, session: string)
    ensures exists blob :: ParseLayout(blob).Some? && !Distinct(ParseLayout(blob).value)
                           && Showing(AssignSession(Restore(l, blob), id, session).root, session) == 2
  {
    var empty, shown := Leaf(id, None), Leaf(id, Some(session));
    var two := Split(id + "s", H, DEFAULT_RATIO, empty, empty);
    ParseOfEncode(two);
    var r := Restore(l, Encode(two));
    assert Sessions(empty) == {} && Sessions(two) == {};
    RemoveSessionOnly(two, session);
    assert FindLeaf(empty, id) == Some(empty);
    assert FindLeaf(two, id) == Some(empty);
    assert |id + "s"| != |id|;
    assert ReplaceNode(empty, id, shown) == shown;
    assert ReplaceNode(two, id, shown) == two.(first := shown, second := shown);
    assert SetLeafSession(two, id, Some(session)) == two.(first := shown, second := shown);
    assert Showing(shown, session) == 1;
    assert Showing(two.(first := shown, second := shown), session) == 2;
    assert Ids(empty) == {id} && !Distinct(two);
    assert r.rootRef == two;
  }

  /** Ratios stay draggable in every run whose restored layouts are, so no pane ever collapses. */
  lemma {:induction false} RatiosStayDraggable(id: string, evs: seq<Event>)
    requires forall k :: 0 <= k < |evs| && evs[k].Restored? && ParseLayout(evs[k].blob).Some? ==>
               Geometry.Draggable(ParseLayout(evs[k].blob).value)
    ensures Geometry.Draggable(Run(Initial(id), evs).rootRef)
    decreases |evs|
  {
    if |evs| == 0 {
    } else {
      var before, ev := evs[..|evs| - 1], evs[|evs| - 1];
      RatiosStayDraggable(id, before);
      var l := Run(Initial(id), before);
      DraggableStep(l, ev);
    }
  }

  lemma {:induction false} DraggableStep(l: State, ev: Event)
    requires Geometry.Draggable(l.rootRef)
    requires ev.Restored? && ParseLayout(ev.blob).Some? ==> Geometry.Draggable(ParseLayout(ev.blob).value)
    ensures Geometry.Draggable(Step(l, ev).rootRef)
  {
    var t := l.rootRef;
    match ev {
      case Assign(pane, session) =>
        Geometry.SetRatioDraggable(t, "", 0.5, session);
        var c := RemoveSession(t, session);
        FindLeafIn(c, pane);
        Geometry.ReplaceDraggable(c, pane, Leaf(pane, Some(session)));
      case DoSplit(pane, dir, splitId, newId) =>
        FindLeafIn(t, pane);
        if HasLeaf(t, pane) {
          var next := Split(splitId, dir, DEFAULT_RATIO, FindLeaf(t, pane).value, Leaf(newId, None));
          Geometry.ReplaceDraggable(t, pane, next);
        }
      case ClosePaneAt(pane, _) =>
        if RemoveNode(t, pane).Other? {
          Geometry.RemoveDraggable(t, pane);
        }
      case Ratio(splitId, ratio) => Geometry.SetRatioDraggable(t, splitId, ratio, "");
      case Unplace(session) => Geometry.SetRatioDraggable(t, "", 0.5, session);
      case _ =>
    }
  }
}
