/**
 * The displayed tree: which nodes are drawn (`get_rectangles`), which node a
 * click lands on (`get_tree_at_position`), and what `expand_all` and
 * `collapse` do to the expanded flags, all as functions on tree snapshots.
 * Children are visited left to right through the `...From(t, i)` helpers,
 * which cover children `i..` of `t`.
 */
module Display {
  import opened Wrappers
  import opened Geometry
  import opened TreeModel

  /** A node is drawn as itself, rather than through its children, when it is collapsed or a leaf. */
  predicate Shown<Id>(t: Tree<Id>) {
    !t.expanded || t.children == []
  }

  /** The frontier of the displayed tree: the shown nodes, left to right. */
  function Frontier<Id>(t: Tree<Id>): seq<Tree<Id>>
    decreases t, 1, 0
  {
    if Shown(t) then [t] else FrontierFrom(t, 0)
  }

  function FrontierFrom<Id>(t: Tree<Id>, i: nat): seq<Tree<Id>>
    requires i <= |t.children|
    decreases t, 0, |t.children| - i
  {
    if i == |t.children| then [] else Frontier(t.children[i]) + FrontierFrom(t, i + 1)
  }

  /** The leaves under a node, left to right. */
  function Leaves<Id>(t: Tree<Id>): seq<Tree<Id>>
    decreases t, 1, 0
  {
    if t.children == [] then [t] else LeavesFrom(t, 0)
  }

  function LeavesFrom<Id>(t: Tree<Id>, i: nat): seq<Tree<Id>>
    requires i <= |t.children|
    decreases t, 0, |t.children| - i
  {
    if i == |t.children| then [] else Leaves(t.children[i]) + LeavesFrom(t, i + 1)
  }

  /**
   * `get_rectangles`: a subtree of size 0 draws nothing, a shown node draws
   * its own rectangle and colour, an expanded node the rectangles of its
   * children in order.
   */
  function Flatten<Id>(t: Tree<Id>): seq<(Rect, Colour)>
    decreases t, 1, 0
  {
    if t.size == 0 then []
    else if Shown(t) then [(t.rect, t.colour)]
    else FlattenFrom(t, 0)
  }

  function FlattenFrom<Id>(t: Tree<Id>, i: nat): seq<(Rect, Colour)>
    requires i <= |t.children|
    decreases t, 0, |t.children| - i
  {
    if i == |t.children| then [] else Flatten(t.children[i]) + FlattenFrom(t, i + 1)
  }

  /** Independent reference for `Flatten`: the rectangle and colour of every node of non-zero size in a list. */
  function Drawn<Id>(fs: seq<Tree<Id>>): (d: seq<(Rect, Colour)>)
    ensures |d| <= |fs|
  {
    if fs == [] then []
    else (if fs[0].size == 0 then [] else [(fs[0].rect, fs[0].colour)]) + Drawn(fs[1..])
  }

  lemma {:induction false} DrawnAppend<Id>(a: seq<Tree<Id>>, b: seq<Tree<Id>>)
    ensures Drawn(a + b) == Drawn(a) + Drawn(b)
  {
    if a != [] {
      assert (a + b)[1..] == a[1..] + b;
      DrawnAppend(a[1..], b);
    } else {
      assert a + b == b;
    }
  }

  /** A consistent, non-negative subtree of size 0 has only size-0 nodes on its frontier. */
  lemma {:induction false} ZeroDrawsNothing<Id>(t: Tree<Id>)
    requires Consistent(t) && NonNegative(t) && t.size == 0
    ensures Drawn(Frontier(t)) == []
    decreases t, 1, 0
  {
    if !Shown(t) {
      ZeroSumAllZero(Sizes(t.children));
      ZeroDrawsNothingFrom(t, 0);
    }
  }

  lemma {:induction false} ZeroDrawsNothingFrom<Id>(t: Tree<Id>, i: nat)
    requires i <= |t.children| && Consistent(t) && NonNegative(t)
    requires forall k | 0 <= k < |t.children| :: t.children[k].size == 0
    ensures Drawn(FrontierFrom(t, i)) == []
    decreases t, 0, |t.children| - i
  {
    if i < |t.children| {
      ConsistentSubtree(t, i);
      ZeroDrawsNothing(t.children[i]);
      ZeroDrawsNothingFrom(t, i + 1);
      DrawnAppend(Frontier(t.children[i]), FrontierFrom(t, i + 1));
    }
  }

  /**
   * On a tree whose sizes obey the representation invariant, `get_rectangles`
   * draws exactly the frontier nodes of non-zero size, in frontier order.
   */
  lemma {:induction false} FlattenIsDrawnFrontier<Id>(t: Tree<Id>)
    requires Consistent(t) && NonNegative(t)
    ensures Flatten(t) == Drawn(Frontier(t))
    decreases t, 1, 0
  {
    if t.size == 0 {
      ZeroDrawsNothing(t);
    } else if !Shown(t) {
      FlattenFromIsDrawn(t, 0);
    }
  }

  lemma {:induction false} FlattenFromIsDrawn<Id>(t: Tree<Id>, i: nat)
    requires i <= |t.children| && Consistent(t) && NonNegative(t)
    ensures FlattenFrom(t, i) == Drawn(FrontierFrom(t, i))
    decreases t, 0, |t.children| - i
  {
    if i < |t.children| {
      ConsistentSubtree(t, i);
      FlattenIsDrawnFrontier(t.children[i]);
      FlattenFromIsDrawn(t, i + 1);
      DrawnAppend(Frontier(t.children[i]), FrontierFrom(t, i + 1));
    }
  }

  /**
   * `get_tree_at_position`: a shown node answers itself when its rectangle
   * contains the point (edges included) and nothing otherwise; an expanded
   * node answers the first child, in order, that answers. The empty tree is
   * not treated specially.
   */
  function HitTest<Id>(t: Tree<Id>, p: Point): Option<Tree<Id>>
    decreases t, 1, 0
  {
    if Shown(t) then (if Contains(t.rect, p) then Some(t) else None)
    else HitFrom(t, p, 0)
  }

  function HitFrom<Id>(t: Tree<Id>, p: Point, i: nat): Option<Tree<Id>>
    requires i <= |t.children|
    decreases t, 0, |t.children| - i
  {
    if i == |t.children| then None
    else
      var h := HitTest(t.children[i], p);
      if h.Some? then h else HitFrom(t, p, i + 1)
  }

  /** Independent reference for `HitTest`: the first node of a list whose rectangle contains the point. */
  function FirstContaining<Id>(fs: seq<Tree<Id>>, p: Point): Option<Tree<Id>> {
    if fs == [] then None
    else if Contains(fs[0].rect, p) then Some(fs[0])
    else FirstContaining(fs[1..], p)
  }

  /** `FirstContaining` finds nothing exactly when no rectangle contains the point, and otherwise the earliest that does. */
  lemma {:induction false} FirstContainingMeans<Id>(fs: seq<Tree<Id>>, p: Point)
    ensures FirstContaining(fs, p).None? <==> forall i | 0 <= i < |fs| :: !Contains(fs[i].rect, p)
    ensures FirstContaining(fs, p).Some? ==>
      exists i | 0 <= i < |fs| :: fs[i] == FirstContaining(fs, p).value && Contains(fs[i].rect, p) &&
                                  forall j | 0 <= j < i :: !Contains(fs[j].rect, p)
  {
    if fs != [] && !Contains(fs[0].rect, p) {
      var tail := fs[1..];
      FirstContainingMeans(tail, p);
      var r := FirstContaining(tail, p);
      if r.Some? {
        var i :| 0 <= i < |tail| && tail[i] == r.value && Contains(tail[i].rect, p) &&
                 forall j | 0 <= j < i :: !Contains(tail[j].rect, p);
        assert fs[i + 1] == r.value && forall j | 0 <= j < i + 1 :: !Contains(fs[j].rect, p);
      } else {
        assert forall i | 1 <= i < |fs| :: fs[i] == tail[i - 1];
      }
    }
  }

  lemma {:induction false} FirstContainingAppend<Id>(a: seq<Tree<Id>>, b: seq<Tree<Id>>, p: Point)
    ensures FirstContaining(a + b, p) ==
            if FirstContaining(a, p).Some? then FirstContaining(a, p) else FirstContaining(b, p)
  {
    if a != [] {
      assert (a + b)[1..] == a[1..] + b;
      FirstContainingAppend(a[1..], b, p);
    } else {
      assert a + b == b;
    }
  }

  /** The node `get_tree_at_position` returns is the first frontier node whose rectangle contains the point. */
  lemma {:induction false} HitTestIsFirstContaining<Id>(t: Tree<Id>, p: Point)
    ensures HitTest(t, p) == FirstContaining(Frontier(t), p)
    decreases t, 1, 0
  {
    if !Shown(t) {
      HitFromIsFirstContaining(t, p, 0);
    }
  }

  lemma {:induction false} HitFromIsFirstContaining<Id>(t: Tree<Id>, p: Point, i: nat)
    requires i <= |t.children|
    ensures HitFrom(t, p, i) == FirstContaining(FrontierFrom(t, i), p)
    decreases t, 0, |t.children| - i
  {
    if i < |t.children| {
      HitTestIsFirstContaining(t.children[i], p);
      HitFromIsFirstContaining(t, p, i + 1);
      FirstContainingAppend(Frontier(t.children[i]), FrontierFrom(t, i + 1), p);
    }
  }

  /**
   * Whatever `get_tree_at_position` returns is a displayed node whose
   * rectangle contains the point, and no displayed node before it does.
   */
  lemma HitTestSound<Id>(t: Tree<Id>, p: Point)
    ensures HitTest(t, p).Some? ==>
      var f := Frontier(t);
      exists i | 0 <= i < |f| :: f[i] == HitTest(t, p).value && Contains(f[i].rect, p) &&
                                 forall j | 0 <= j < i :: !Contains(f[j].rect, p)
    ensures HitTest(t, p).None? <==> forall i | 0 <= i < |Frontier(t)| :: !Contains(Frontier(t)[i].rect, p)
  {
    HitTestIsFirstContaining(t, p);
    FirstContainingMeans(Frontier(t), p);
  }

  /** `expand`: an internal node becomes expanded; a leaf is untouched. */
  function Expand<Id>(t: Tree<Id>): Tree<Id> {
    if t.children == [] then t else t.(expanded := true)
  }

  /** After `expand`, an internal node is drawn through its children, and a leaf as itself. */
  lemma ExpandShowsChildren<Id>(t: Tree<Id>)
    ensures t.children == [] ==> Frontier(Expand(t)) == [t]
    ensures t.children != [] ==> Frontier(Expand(t)) == FrontierFrom(t, 0)
  {
    if t.children != [] {
      FrontierFromChildren(Expand(t), t, 0);
    }
  }

  /** The frontier below a node depends only on its children. */
  lemma {:induction false} FrontierFromChildren<Id>(t: Tree<Id>, u: Tree<Id>, i: nat)
    requires t.children == u.children && i <= |t.children|
    ensures FrontierFrom(t, i) == FrontierFrom(u, i)
    decreases |t.children| - i
  {
    if i < |t.children| {
      FrontierFromChildren(t, u, i + 1);
    }
  }

  /** Expanding a node first changes nothing for `expand_all`. */
  lemma ExpandThenExpandAll<Id>(t: Tree<Id>)
    ensures ExpandAll(Expand(t)) == ExpandAll(t)
  {
  }

  /** `expand_all`: every internal node of the subtree becomes expanded; leaves are untouched. */
  function ExpandAll<Id>(t: Tree<Id>): Tree<Id> {
    if t.children == [] then t
    else t.(expanded := true,
            children := seq(|t.children|, i requires 0 <= i < |t.children| => ExpandAll(t.children[i])))
  }

  /** After `expand_all` the displayed tree is exactly the leaves. */
  lemma {:induction false} ExpandAllShowsLeaves<Id>(t: Tree<Id>)
    ensures Frontier(ExpandAll(t)) == Leaves(t)
    decreases t, 1, 0
  {
    if t.children != [] {
      ExpandAllShowsLeavesFrom(t, 0);
    }
  }

  lemma {:induction false} ExpandAllShowsLeavesFrom<Id>(t: Tree<Id>, i: nat)
    requires t.children != [] && i <= |t.children|
    ensures FrontierFrom(ExpandAll(t), i) == LeavesFrom(t, i)
    decreases t, 0, |t.children| - i
  {
    if i < |t.children| {
      ExpandAllShowsLeaves(t.children[i]);
      ExpandAllShowsLeavesFrom(t, i + 1);
    }
  }

  /** After `expand_all`, a click lands on the first leaf whose rectangle contains it. */
  lemma ExpandAllHitsLeaf<Id>(t: Tree<Id>, p: Point)
    ensures HitTest(ExpandAll(t), p) == FirstContaining(Leaves(t), p)
  {
    HitTestIsFirstContaining(ExpandAll(t), p);
    ExpandAllShowsLeaves(t);
  }

  /** The part of `collapse` below the node: every flag in the subtree is cleared. */
  function Folded<Id>(t: Tree<Id>): Tree<Id> {
    t.(expanded := false,
       children := seq(|t.children|, i requires 0 <= i < |t.children| => Folded(t.children[i])))
  }

  ghost predicate NoneExpanded<Id>(t: Tree<Id>) {
    !t.expanded && forall i | 0 <= i < |t.children| :: NoneExpanded(t.children[i])
  }

  lemma {:induction false} FoldedClearsEverything<Id>(t: Tree<Id>)
    ensures NoneExpanded(Folded(t))
    ensures Frontier(Folded(t)) == [Folded(t)]
  {
    forall i | 0 <= i < |t.children| ensures NoneExpanded(Folded(t).children[i]) {
      FoldedClearsEverything(t.children[i]);
    }
  }
}
