/**
 The layout hook as it runs: a mutable reference to the committed tree, rendered state and
 a save timer, updated step by step by the actions.
 */
module LayoutHook {
  import opened Wrappers
  import opened PaneTree
  import opened LayoutBlob
  import L = Layout

  class Hook {
    var rootRef: Pane
    var root: Pane
    var focusedPaneId: string
    var placed: set<string>
    var saveTimer: nat
    // the browser's pending timers and what the server keeps
    var timers: map<nat, Pane>
    var lastTimer: nat
    var server: Option<Json>
    // history
    ghost var committed: Option<Pane>

    ghost function View(): L.State
      reads this
    {
      L.State(rootRef, root, focusedPaneId, placed, saveTimer, timers, lastTimer, server, committed)
    }

    ghost predicate Valid()
      reads this
    {
      L.Inv(View())
    }

    constructor (id: string)
      ensures View() == L.Initial(id) && Valid()
    {
      rootRef, root, focusedPaneId, placed := Leaf(id, None), Leaf(id, None), id, {};
      saveTimer, timers, lastTimer, server := 0, map[], 0, None;
      committed := None;
    }

    method Persist(next: Pane)
      modifies this`timers, this`saveTimer, this`lastTimer
      ensures View() == L.Persist(old(View()), next)
    {
      timers := timers - {saveTimer};
      lastTimer := lastTimer + 1;
      saveTimer := lastTimer;
      timers := timers[saveTimer := next];
    }

    method Commit(next: Pane)
      modifies this
      ensures View() == L.Commit(old(View()), next)
    {
      rootRef := next;
      root := next;
      placed := PlacedSessionIds(next);
      committed := Some(next);
      Persist(next);
    }

    /** Looks at the committed tree, which is the newest even where rendering lags behind. */
    method HasPane(pane: string) returns (has: bool)
      ensures has <==> pane in LeafIds(rootRef)
    {
      FindLeafIn(rootRef, pane);
      has := FindLeaf(rootRef, pane).Some?;
    }

    method FocusPane(pane: string)
      modifies this`focusedPaneId
      ensures View() == L.FocusPane(old(View()), pane)
    {
      focusedPaneId := pane;
    }

    method AssignSession(pane: string, session: string)
      modifies this
      ensures View() == L.AssignSession(old(View()), pane, session)
    {
      if FindLeaf(rootRef, pane).None? {
        return;
      }
      var cleared := RemoveSession(rootRef, session);
      Commit(SetLeafSession(cleared, pane, Some(session)));
      focusedPaneId := pane;
    }

    method SplitAt(pane: string, dir: Dir, splitId: string, newId: string)
      modifies this
      ensures View() == L.SplitPane(old(View()), pane, dir, splitId, newId)
    {
      Commit(SplitLeaf(rootRef, pane, dir, splitId, newId));
    }

    method ClosePane(pane: string, freshId: string)
      modifies this
      ensures View() == L.ClosePane(old(View()), pane, freshId)
    {
      var next := rootRef;
      match RemoveNode(rootRef, pane) {
        case Gone => next := Leaf(freshId, None);
        case Same =>
        case Other(tree) => next := tree;
      }
      Commit(next);
      if FindLeaf(next, focusedPaneId).None? {
        focusedPaneId := FirstLeafId(next);
      }
    }

    method ChangeRatio(splitId: string, ratio: real)
      modifies this
      ensures View() == L.ChangeRatio(old(View()), splitId, ratio)
    {
      Commit(SetRatio(rootRef, splitId, ratio));
    }

    method UnplaceSession(session: string)
      modifies this
      ensures View() == L.UnplaceSession(old(View()), session)
    {
      Commit(RemoveSession(rootRef, session));
    }

    method FocusSession(session: string) returns (focused: bool)
      modifies this`focusedPaneId
      ensures View() == L.FocusSession(old(View()), session)
      ensures focused <==> L.LeafShowing(rootRef, session, "") != ""
    {
      var found := WalkFor(rootRef, session, "");
      if found != "" {
        focusedPaneId := found;
      }
      focused := |found| > 0;
    }

    static method WalkFor(n: Pane, session: string, seen: string) returns (found: string)
      ensures found == L.LeafShowing(n, session, seen)
      decreases n
    {
      found := seen;
      if n.Leaf? {
        if n.session == Some(session) {
          found := n.id;
        }
        return;
      }
      found := WalkFor(n.first, session, found);
      found := WalkFor(n.second, session, found);
    }

    /** The stored blob arrives. */
    method Restore(blob: Json)
      modifies this
      ensures View() == L.Restore(old(View()), blob)
    {
      var parsed := ParseLayout(blob);
      if parsed.None? {
        return;
      }
      rootRef := parsed.value;
      root := parsed.value;
      focusedPaneId := FirstLeafId(parsed.value);
      placed := PlacedSessionIds(parsed.value);
    }

    /** A save timer fires: the tree is sent and stored. */
    method FireSave(id: nat)
      requires id in timers
      modifies this`timers, this`server
      ensures View() == L.Save(old(View()), id)
    {
      server := Some(Encode(timers[id]));
      timers := timers - {id};
    }

    /** One user action or browser event; the invariant is kept. */
    method Dispatch(ev: L.Event)
      requires Valid() && L.Enabled(View(), ev)
      modifies this
      ensures Valid() && View() == L.Step(old(View()), ev)
    {
      L.StepKeeps(View(), ev);
      match ev {
        case Focus(pane) => FocusPane(pane);
        case Assign(pane, session) => AssignSession(pane, session);
        case DoSplit(pane, dir, splitId, newId) => SplitAt(pane, dir, splitId, newId);
        case ClosePaneAt(pane, freshId) => ClosePane(pane, freshId);
        case Ratio(splitId, ratio) => ChangeRatio(splitId, ratio);
        case Unplace(session) => UnplaceSession(session);
        case FocusOn(session) => var _ := FocusSession(session);
        case Restored(blob) => Restore(blob);
        case Fire(id) => FireSave(id);
      }
    }
  }
}
