/**
 The areas a pane tree gives its panes: every split divides its area by its ratio, side by
 side or stacked.  Dividers are taken to have no width.
 */
module Geometry {
  import opened Wrappers
  import opened PaneTree

  datatype Rect = Rect(x: real, y: real, w: real, h: real) {
    predicate Proper() { w > 0.0 && h > 0.0 }

    /** The point lies in the rectangle; its right and bottom edges belong to the neighbours. */
    predicate Contains(px: real, py: real) {
      x <= px < x + w && y <= py < y + h
    }

    function Area(): real { w * h }
  }

  predicate OpenRatios(t: Pane) {
    t.Split? ==> 0.0 < t.ratio < 1.0 && OpenRatios(t.first) && OpenRatios(t.second)
  }

  /** The extent a split divides: the width for children side by side, the height for stacked ones. */
  function Extent(dir: Dir, r: Rect): real { if dir.H? then r.w else r.h }

  /** The part of `r` before a cut at distance `cut`. */
  function Before(dir: Dir, r: Rect, cut: real): Rect {
    if dir.H? then r.(w := cut) else r.(h := cut)
  }

  /** The part of `r` behind a cut at distance `cut`. */
  function Behind(dir: Dir, r: Rect, cut: real): Rect {
    if dir.H? then r.(x := r.x + cut, w := r.w - cut) else r.(y := r.y + cut, h := r.h - cut)
  }

  /** The area of the first child. */
  function FirstPart(dir: Dir, ratio: real, r: Rect): Rect { Before(dir, r, Extent(dir, r) * ratio) }

  /** The area of the second child. */
  function SecondPart(dir: Dir, ratio: real, r: Rect): Rect { Behind(dir, r, Extent(dir, r) * ratio) }

  /** The area of node `id` when the tree fills `r`. */
  function RectOf(t: Pane, r: Rect, id: string): Rect
    requires id in Ids(t)
  {
    if t.id == id then r
    else if id in Ids(t.first) then RectOf(t.first, FirstPart(t.dir, t.ratio, r), id)
    else RectOf(t.second, SecondPart(t.dir, t.ratio, r), id)
  }

  /**
   Where a split puts its children: side by side for "h", each as high as the split and the
   first one left; stacked for "v", each as wide and the first one on top.
   */
  lemma {:induction false} ChildRects(t: Pane, r: Rect)
    requires t.Split? && Distinct(t)
    ensures t.dir.H? ==>
              && RectOf(t, r, t.first.id) == Rect(r.x, r.y, r.w * t.ratio, r.h)
              && RectOf(t, r, t.second.id) == Rect(r.x + r.w * t.ratio, r.y, r.w - r.w * t.ratio, r.h)
    ensures t.dir.V? ==>
              && RectOf(t, r, t.first.id) == Rect(r.x, r.y, r.w, r.h * t.ratio)
              && RectOf(t, r, t.second.id) == Rect(r.x, r.y + r.h * t.ratio, r.w, r.h - r.h * t.ratio)
  {
    assert t.first.id in Ids(t.first) && t.second.id in Ids(t.second);
    assert t.second.id !in Ids(t.first);
  }

  /** The leaf a point of `r` falls into, found by descending the tree. */
  function LeafUnder(t: Pane, r: Rect, px: real, py: real): (id: string)
    ensures id in LeafIds(t)
  {
    match t
    case Leaf(id, _) => id
    case Split(_, dir, ratio, first, second) =>
      var part := FirstPart(dir, ratio, r);
      if part.Contains(px, py) then LeafUnder(first, part, px, py)
      else LeafUnder(second, SecondPart(dir, ratio, r), px, py)
  }

  lemma {:induction false} Inside(extent: real, ratio: real, cut: real)
    requires extent > 0.0 && 0.0 < ratio < 1.0 && cut == extent * ratio
    ensures 0.0 < cut < extent
  {
    var rest := 1.0 - ratio;
    assert extent * rest > 0.0;
    assert cut > 0.0;
    assert extent * rest == extent - cut;
  }

  lemma {:induction false} PartsProper(dir: Dir, r: Rect, extent: real, cut: real)
    requires r.Proper() && extent == Extent(dir, r) && 0.0 < cut < extent
    ensures Before(dir, r, cut).Proper() && Behind(dir, r, cut).Proper()
  {
  }

  /** Both parts of a split are proper, and they share its area by the ratio. */
  lemma {:induction false} Halves(dir: Dir, ratio: real, r: Rect)
    requires r.Proper() && 0.0 < ratio < 1.0
    ensures FirstPart(dir, ratio, r).Proper() && SecondPart(dir, ratio, r).Proper()
    ensures FirstPart(dir, ratio, r).Area() == ratio * r.Area()
    ensures SecondPart(dir, ratio, r).Area() == (1.0 - ratio) * r.Area()
  {
    var extent := Extent(dir, r);
    var cut := extent * ratio;
    Inside(extent, ratio, cut);
    PartsProper(dir, r, extent, cut);
    if dir.H? {
      Shares(r.w, r.h, ratio);
    } else {
      Shares(r.h, r.w, ratio);
    }
  }

  lemma {:induction false} Shares(a: real, b: real, p: real)
    ensures (a * p) * b == p * (a * b) == b * (a * p) == p * (b * a)
    ensures (a - a * p) * b == (1.0 - p) * (a * b) == b * (a - a * p) == (1.0 - p) * (b * a)
  {
    assert (a - a * p) * b == a * b - (a * p) * b;
    assert (1.0 - p) * (a * b) == a * b - p * (a * b);
  }

  /** A point of `r` lies in exactly one of the two parts, a point outside in neither. */
  lemma {:induction false} PartsSplitPoints(dir: Dir, r: Rect, cut: real, px: real, py: real)
    requires 0.0 < cut < Extent(dir, r)
    ensures var a, b := Before(dir, r, cut).Contains(px, py), Behind(dir, r, cut).Contains(px, py);
            (a || b <==> r.Contains(px, py)) && !(a && b)
  {
  }

  /**
   The leaves tile the area: a point of `r` lies in the rectangle of exactly one leaf, and
   a point outside `r` in that of none.
   */
  lemma {:induction false} LeavesTile(t: Pane, r: Rect, px: real, py: real, id: string)
    requires Distinct(t) && OpenRatios(t) && r.Proper() && id in LeafIds(t)
    ensures RectOf(t, r, id).Contains(px, py) <==> r.Contains(px, py) && id == LeafUnder(t, r, px, py)
  {
    if t.Leaf? {
    } else {
      Halves(t.dir, t.ratio, r);
      var cut := Extent(t.dir, r) * t.ratio;
      Inside(Extent(t.dir, r), t.ratio, cut);
      PartsSplitPoints(t.dir, r, cut, px, py);
      if id in Ids(t.first) {
        LeavesTile(t.first, FirstPart(t.dir, t.ratio, r), px, py, id);
      } else {
        LeavesTile(t.second, SecondPart(t.dir, t.ratio, r), px, py, id);
      }
    }
  }

  /** The areas of the leaves, added up. */
  function LeafArea(t: Pane, r: Rect): real {
    match t
    case Leaf(_, _) => r.Area()
    case Split(_, dir, ratio, first, second) =>
      LeafArea(first, FirstPart(dir, ratio, r)) + LeafArea(second, SecondPart(dir, ratio, r))
  }

  /** No area is lost: the leaves together have the area of the whole. */
  lemma {:induction false} LeafAreaIsWhole(t: Pane, r: Rect)
    requires OpenRatios(t) && r.Proper()
    ensures LeafArea(t, r) == r.Area()
  {
    if t.Leaf? {
    } else {
      Halves(t.dir, t.ratio, r);
      LeafAreaIsWhole(t.first, FirstPart(t.dir, t.ratio, r));
      LeafAreaIsWhole(t.second, SecondPart(t.dir, t.ratio, r));
      var p, a := t.ratio, r.Area();
      assert p * a + (1.0 - p) * a == a;
    }
  }

  // ---------- How the operations move areas ----------

  /** Splitting a leaf divides its own rectangle in half and moves no other pane. */
  lemma {:induction false} SplitHalvesOne(
      t: Pane, r: Rect, id: string, dir: Dir, splitId: string, newId: string, other: string)
    requires Distinct(t) && id in LeafIds(t)
    requires splitId !in Ids(t) && newId !in Ids(t) && splitId != newId
    ensures var t' := SplitLeaf(t, id, dir, splitId, newId);
            && Ids(t') == Ids(t) + {splitId, newId}
            && (other in Ids(t) && other != id ==> RectOf(t', r, other) == RectOf(t, r, other))
            && RectOf(t', r, splitId) == RectOf(t, r, id)
            && RectOf(t', r, id) == FirstPart(dir, 0.5, RectOf(t, r, id))
            && RectOf(t', r, newId) == SecondPart(dir, 0.5, RectOf(t, r, id))
  {
    FindLeafIn(t, id);
    var next := Split(splitId, dir, DEFAULT_RATIO, FindLeaf(t, id).value, Leaf(newId, None));
    ReplaceLeaf(t, id, next);
    if other in Ids(t) && other != id {
      PlugRect(t, r, id, next, other);
    }
    PlugRect(t, r, id, next, splitId);
    PlugRect(t, r, id, next, id);
    PlugRect(t, r, id, next, newId);
  }

  /** Replacing a leaf by a tree puts that tree into the leaf's rectangle. */
  lemma {:induction false} PlugRect(t: Pane, r: Rect, id: string, next: Pane, x: string)
    requires Distinct(t) && id in LeafIds(t) && Distinct(next) && Ids(next) !! (Ids(t) - {id})
    requires x in Ids(ReplaceNode(t, id, next))
    requires x in Ids(next) || x in Ids(t)
    ensures RectOf(ReplaceNode(t, id, next), r, x) ==
            if x in Ids(next) then RectOf(next, RectOf(t, r, id), x) else RectOf(t, r, x)
  {
    if t.Leaf? {
    } else {
      if id in LeafIds(t.first) {
        ReplaceAbsent(t.second, id, next);
        ReplaceLeaf(t.first, id, next);
        if x in Ids(ReplaceNode(t.first, id, next)) {
          PlugRect(t.first, FirstPart(t.dir, t.ratio, r), id, next, x);
        }
      } else {
        ReplaceAbsent(t.first, id, next);
        ReplaceLeaf(t.second, id, next);
        if x in Ids(ReplaceNode(t.second, id, next)) {
          PlugRect(t.second, SecondPart(t.dir, t.ratio, r), id, next, x);
        }
      }
    }
  }

  /** The other child of the split that node `id` is a child of. */
  function Sibling(t: Pane, id: string): (s: Pane)
    requires id in Ids(t) && t.id != id
    ensures Ids(s) <= Ids(t)
  {
    if t.first.id == id then t.second
    else if t.second.id == id then t.first
    else if id in Ids(t.first) then Sibling(t.first, id)
    else Sibling(t.second, id)
  }

  /** Closing a pane gives the area of its parent split to the sibling subtree and moves no other pane. */
  lemma {:induction false} CloseGrowsSibling(t: Pane, r: Rect, id: string, other: string)
    requires Distinct(t) && id in Ids(t) && t.id != id
    requires RemoveNode(t, id).Other? && other in Ids(RemoveNode(t, id).tree) && other in Ids(t)
    ensures var n, s := RemoveNode(t, id).tree, Sibling(t, id);
            RectOf(n, r, other) ==
            if other in Ids(s) then RectOf(s, RectOf(t, r, ParentOf(t, id)), other) else RectOf(t, r, other)
  {
    RemoveAnswers(t.first, id);
    RemoveAnswers(t.second, id);
    if t.first.id != id && t.second.id != id {
      if id in Ids(t.first) {
        RemoveDeletesExactly(t.first, id);
        if other in Ids(t.first) {
          CloseGrowsSibling(t.first, FirstPart(t.dir, t.ratio, r), id, other);
        }
      } else {
        RemoveDeletesExactly(t.second, id);
        if other in Ids(t.second) {
          CloseGrowsSibling(t.second, SecondPart(t.dir, t.ratio, r), id, other);
        }
      }
    }
  }

  /** Moving a divider moves only what is below that split. */
  lemma {:induction false} RatioMovesOnlyBelow(t: Pane, r: Rect, splitId: string, ratio: real, other: string)
    requires Distinct(t) && other in Ids(t)
    requires splitId in Ids(t) ==> other == splitId || other !in Ids(NodeAt(t, splitId))
    ensures Ids(SetRatio(t, splitId, ratio)) == Ids(t)
    ensures RectOf(SetRatio(t, splitId, ratio), r, other) == RectOf(t, r, other)
  {
    SetRatioShape(t, splitId, ratio);
    SameShapeObserves(t, SetRatio(t, splitId, ratio));
    if t.Split? && t.id != splitId && t.id != other {
      SetRatioShape(t.first, splitId, ratio);
      SameShapeObserves(t.first, SetRatio(t.first, splitId, ratio));
      if other in Ids(t.first) {
        RatioMovesOnlyBelow(t.first, FirstPart(t.dir, t.ratio, r), splitId, ratio, other);
      } else {
        RatioMovesOnlyBelow(t.second, SecondPart(t.dir, t.ratio, r), splitId, ratio, other);
      }
    }
  }

  // ---------- No pane collapses ----------

  /** Every ratio is one a divider can be dragged to. */
  predicate Draggable(t: Pane) {
    t.Split? ==> 0.1 <= t.ratio <= 0.9 && Draggable(t.first) && Draggable(t.second)
  }

  lemma {:induction false} ReplaceDraggable(t: Pane, id: string, next: Pane)
    requires Draggable(t) && Draggable(next)
    ensures Draggable(ReplaceNode(t, id, next))
  {
    if t.Leaf? {
    } else {
      ReplaceDraggable(t.first, id, next);
      ReplaceDraggable(t.second, id, next);
    }
  }

  lemma {:induction false} RemoveDraggable(t: Pane, id: string)
    requires Draggable(t) && RemoveNode(t, id).Other?
    ensures Draggable(RemoveNode(t, id).tree)
  {
    if RemoveNode(t.first, id).Other? {
      RemoveDraggable(t.first, id);
    }
    if RemoveNode(t.second, id).Other? {
      RemoveDraggable(t.second, id);
    }
  }

  /** Any number dragged to, however wild, leaves the tree draggable; so does emptying a leaf. */
  lemma {:induction false} SetRatioDraggable(t: Pane, splitId: string, ratio: real, session: string)
    requires Draggable(t)
    ensures Draggable(SetRatio(t, splitId, ratio)) && Draggable(RemoveSession(t, session))
  {
    if t.Leaf? {
    } else {
      SetRatioDraggable(t.first, splitId, ratio, session);
      SetRatioDraggable(t.second, splitId, ratio, session);
    }
  }

  function Depth(t: Pane, id: string): nat
    requires id in Ids(t)
  {
    if t.id == id then 0
    else if id in Ids(t.first) then 1 + Depth(t.first, id)
    else 1 + Depth(t.second, id)
  }

  function TenthPower(d: nat): real { if d == 0 then 1.0 else 0.1 * TenthPower(d - 1) }

  /** A pane at depth d keeps at least 0.1^d of the area. */
  lemma {:induction false} NoPaneCollapses(t: Pane, r: Rect, id: string)
    requires Draggable(t) && r.Proper() && id in Ids(t)
    ensures RectOf(t, r, id).Proper()
    ensures RectOf(t, r, id).Area() >= TenthPower(Depth(t, id)) * r.Area()
  {
    hide FirstPart, SecondPart;
    if t.id != id {
      Halves(t.dir, t.ratio, r);
      if id in Ids(t.first) {
        var part := FirstPart(t.dir, t.ratio, r);
        NoPaneCollapses(t.first, part, id);
        Shrink(Depth(t.first, id), part, r, t.ratio, RectOf(t.first, part, id));
      } else {
        var part := SecondPart(t.dir, t.ratio, r);
        NoPaneCollapses(t.second, part, id);
        Shrink(Depth(t.second, id), part, r, 1.0 - t.ratio, RectOf(t.second, part, id));
      }
    }
  }

  lemma {:induction false} Shrink(d: nat, part: Rect, whole: Rect, share: real, pane: Rect)
    requires whole.Proper() && share >= 0.1 && part.Area() == share * whole.Area()
    requires pane.Area() >= TenthPower(d) * part.Area()
    ensures pane.Area() >= TenthPower(d + 1) * whole.Area()
  {
    var p, a, b := TenthPower(d), part.Area(), whole.Area();
    TenthPositive(d);
    assert b > 0.0;
    assert a >= 0.1 * b by { assert (share - 0.1) * b >= 0.0; }
    assert p * (a - 0.1 * b) >= 0.0;
    assert (0.1 * p) * b == p * (0.1 * b);
  }

  lemma {:induction false} TenthPositive(d: nat)
    ensures TenthPower(d) > 0.0
  {
    if d == 0 {
    } else {
      TenthPositive(d - 1);
    }
  }
}
