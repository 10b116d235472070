/**
 * How the layout and the hit-test fit together: after `update_rectangles(r)`
 * on a consistent tree, `get_tree_at_position` finds a node for exactly the
 * points of `r`, because the children's rectangles cover their parent's
 * rectangle and stay inside it.
 */
module Coverage {
  import opened Wrappers
  import opened Geometry
  import opened TreeModel
  import opened TreemapLayout
  import opened Display

  /** The side conditions under which a split hands out well-formed rectangles. */
  predicate SplitSound(sizes: seq<int>, total: int, r: Rect) {
    && |sizes| > 0 && SplitOk(sizes, total, r)
    && (forall i | 0 <= i < |sizes| :: sizes[i] >= 0)
    && total == SumInts(sizes) && r.width >= 0 && r.height >= 0
  }

  /** Every rectangle a sound split hands out lies inside the parent's rectangle. */
  lemma ChildRectWithin(sizes: seq<int>, total: int, r: Rect, i: int)
    requires SplitSound(sizes, total, r) && 0 <= i < |sizes|
    ensures var c := ChildRect(sizes, total, r, i);
      r.x <= c.x && c.x + c.width <= r.x + r.width && r.y <= c.y && c.y + c.height <= r.y + r.height
  {
    ChildRectsNonNegative(sizes, total, r);
    ChildRectsTile(sizes, total, r);
    if i < |sizes| - 1 {
      ChildRectAdvance(sizes, total, r, i);
    }
  }

  /**
   * A point of `r` at or past the cursor of child `k` lies in the rectangle of
   * child `k` or of a later child.
   */
  lemma {:induction false} FindChild(sizes: seq<int>, total: int, r: Rect, p: Point, k: int)
    requires SplitSound(sizes, total, r) && 0 <= k < |sizes| && Contains(r, p)
    requires Cursor(sizes, total, r, k) <= (if SplitsHeight(r) then p.y else p.x)
    ensures exists j | k <= j < |sizes| :: Contains(ChildRect(sizes, total, r, j), p)
    decreases |sizes| - k
  {
    if k == |sizes| - 1 {
      assert Contains(ChildRect(sizes, total, r, k), p);
    } else {
      ChildRectAdvance(sizes, total, r, k);
      if !Contains(ChildRect(sizes, total, r, k), p) {
        FindChild(sizes, total, r, p, k + 1);
      }
    }
  }

  /** The rectangles of a sound split cover exactly the parent's rectangle. */
  lemma SplitCovers(sizes: seq<int>, total: int, r: Rect, p: Point)
    requires SplitSound(sizes, total, r)
    ensures (exists j | 0 <= j < |sizes| :: Contains(ChildRect(sizes, total, r, j), p)) <==> Contains(r, p)
  {
    if Contains(r, p) {
      assert sizes[..0] == [];
      FindChild(sizes, total, r, p, 0);
    }
    forall j | 0 <= j < |sizes| && Contains(ChildRect(sizes, total, r, j), p) ensures Contains(r, p) {
      ChildRectWithin(sizes, total, r, j);
    }
  }

  /** An expanded node's hit-test, from child `i` on, finds something exactly when one of those children's does. */
  lemma {:induction false} HitFromSome<Id>(t: Tree<Id>, p: Point, i: nat)
    requires i <= |t.children|
    ensures HitFrom(t, p, i).Some? <==> exists j | i <= j < |t.children| :: HitTest(t.children[j], p).Some?
    decreases |t.children| - i
  {
    if i < |t.children| {
      HitFromSome(t, p, i + 1);
    }
  }

  /**
   * After `update_rectangles(r)` on a consistent tree with non-negative sizes,
   * `get_tree_at_position(p)` finds a node exactly when `p` lies in `r`.
   */
  lemma {:induction false} HitCovers<Id>(t: Tree<Id>, r: Rect, p: Point)
    requires Consistent(t) && NonNegative(t) && t.name.Some? && ChildrenNamed(t)
    requires r.width >= 0 && r.height >= 0
    ensures LayoutOk(t, r)
    ensures HitTest(Layout(t, r), p).Some? <==> Contains(r, p)
    decreases t
  {
    ConsistentLayoutOk(t, r);
    var l := Layout(t, r);
    LayoutOnlyMovesRects(t, r);
    assert l.expanded == WithoutRects(l).expanded == WithoutRects(t).expanded == t.expanded;
    if t.expanded && t.children != [] {
      var sizes := Sizes(t.children);
      forall i | 0 <= i < |t.children| ensures sizes[i] >= 0 {
        assert NonNegative(t.children[i]);
      }
      assert SplitSound(sizes, t.size, r);
      ChildRectsNonNegative(sizes, t.size, r);
      forall j | 0 <= j < |t.children|
        ensures HitTest(l.children[j], p).Some? <==> Contains(ChildRect(sizes, t.size, r, j), p)
      {
        HitCovers(t.children[j], ChildRect(sizes, t.size, r, j), p);
      }
      HitFromSome(l, p, 0);
      SplitCovers(sizes, t.size, r, p);
    }
  }
}
