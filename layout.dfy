/**
 * `update_rectangles` as a function on tree snapshots: the treemap algorithm
 * that divides a rectangle among a node's children in proportion to their
 * sizes, and the tiling it guarantees.
 */
module TreemapLayout {
  import opened Wrappers
  import opened Geometry
  import opened TreeModel

  /** Children are stacked top to bottom (split along the height) when the rectangle is at least as tall as wide. */
  predicate SplitsHeight(r: Rect) {
    r.height >= r.width
  }

  function Extent(r: Rect): int {
    if SplitsHeight(r) then r.height else r.width
  }

  function Origin(r: Rect): int {
    if SplitsHeight(r) then r.y else r.x
  }

  /**
   * The height branch divides by the parent's size for every non-last child of
   * non-zero size; the source raises ZeroDivisionError when that size is 0.
   */
  predicate SplitOk(sizes: seq<int>, total: int, r: Rect) {
    SplitsHeight(r) && total == 0 ==> forall i | 0 <= i < |sizes| - 1 :: sizes[i] == 0
  }

  /**
   * The extent a non-last child takes along the split axis: the floor of its
   * proportional share. The zero test is on the child's size in the height
   * branch and on the parent's size in the width branch, as in the source.
   */
  function Share(s: int, total: int, extent: int, height: bool): int
    requires height && s != 0 ==> total != 0
  {
    if height then (if s == 0 then 0 else FloorDiv(s * extent, total))
    else if total == 0 then 0 else FloorDiv(s * extent, total)
  }

  /** How far the cursor has advanced after laying out children of the given sizes. */
  function Offset(sizes: seq<int>, total: int, extent: int, height: bool): int
    requires height && total == 0 ==> forall i | 0 <= i < |sizes| :: sizes[i] == 0
  {
    if sizes == [] then 0
    else Offset(sizes[..|sizes| - 1], total, extent, height) + Share(sizes[|sizes| - 1], total, extent, height)
  }

  /** The cursor position (y or x) at which child `i` is placed. */
  function Cursor(sizes: seq<int>, total: int, r: Rect, i: int): int
    requires 0 <= i < |sizes| && SplitOk(sizes, total, r)
  {
    Origin(r) + Offset(sizes[..i], total, Extent(r), SplitsHeight(r))
  }

  /** The rectangle given to child `i` of a node of size `total` laid out in `r`. */
  function ChildRect(sizes: seq<int>, total: int, r: Rect, i: int): Rect
    requires 0 <= i < |sizes| && SplitOk(sizes, total, r)
  {
    var c := Cursor(sizes, total, r, i);
    if i == |sizes| - 1 then
      if SplitsHeight(r) then Rect(r.x, c, r.width, r.y + r.height - c)
      else Rect(c, r.y, r.x + r.width - c, r.height)
    else if SplitsHeight(r) then
      if sizes[i] == 0 then Rect(r.x, c, 0, 0)
      else Rect(r.x, c, r.width, Share(sizes[i], total, r.height, true))
    else
      if total == 0 then Rect(c, r.y, 0, 0)
      else Rect(c, r.y, Share(sizes[i], total, r.width, false), r.height)
  }

  /** `update_rectangles(r)` runs without raising on this subtree. */
  predicate LayoutOk<Id>(t: Tree<Id>, r: Rect) {
    t.name.None? || t.children == [] ||
    (SplitOk(Sizes(t.children), t.size, r) &&
     forall i | 0 <= i < |t.children| :: LayoutOk(t.children[i], ChildRect(Sizes(t.children), t.size, r, i)))
  }

  /** `update_rectangles(r)`: the empty tree is untouched, a leaf takes `r`, an internal node splits it. */
  function Layout<Id>(t: Tree<Id>, r: Rect): Tree<Id>
    requires LayoutOk(t, r)
  {
    if t.name.None? then t
    else if t.children == [] then t.(rect := r)
    else
      t.(rect := r,
         children := seq(|t.children|, i requires 0 <= i < |t.children| =>
                           Layout(t.children[i], ChildRect(Sizes(t.children), t.size, r, i))))
  }

  /** The tree with every rectangle blanked out: what a layout may not change. */
  function WithoutRects<Id>(t: Tree<Id>): Tree<Id> {
    t.(rect := Rect(0, 0, 0, 0),
       children := seq(|t.children|, i requires 0 <= i < |t.children| => WithoutRects(t.children[i])))
  }

  /** Every node but the empty tree has a name; the empty tree is never a child. */
  ghost predicate ChildrenNamed<Id>(t: Tree<Id>) {
    forall i | 0 <= i < |t.children| :: t.children[i].name.Some? && ChildrenNamed(t.children[i])
  }

  lemma {:induction false} LayoutOnlyMovesRects<Id>(t: Tree<Id>, r: Rect)
    requires LayoutOk(t, r)
    ensures WithoutRects(Layout(t, r)) == WithoutRects(t)
  {
    if t.name.Some? && t.children != [] {
      var sizes := Sizes(t.children);
      forall i | 0 <= i < |t.children|
        ensures WithoutRects(Layout(t.children[i], ChildRect(sizes, t.size, r, i))) == WithoutRects(t.children[i])
      {
        LayoutOnlyMovesRects(t.children[i], ChildRect(sizes, t.size, r, i));
      }
      assert WithoutRects(Layout(t, r)).children == WithoutRects(t).children;
    }
  }

  /** Consistent, non-negative sizes never make the height branch divide by zero. */
  lemma {:induction false} ConsistentLayoutOk<Id>(t: Tree<Id>, r: Rect)
    requires Consistent(t) && NonNegative(t)
    ensures LayoutOk(t, r)
  {
    if t.name.Some? && t.children != [] {
      var sizes := Sizes(t.children);
      forall i | 0 <= i < |t.children| ensures t.children[i].size <= t.size {
        ConsistentSubtree(t, i);
      }
      assert SplitOk(sizes, t.size, r);
      forall i | 0 <= i < |t.children| ensures LayoutOk(t.children[i], ChildRect(sizes, t.size, r, i)) {
        ConsistentSubtree(t, i);
        ConsistentLayoutOk(t.children[i], ChildRect(sizes, t.size, r, i));
      }
    }
  }

  /** Along the split axis each child occupies exactly the cursor's advance over it. */
  lemma ChildRectAdvance(sizes: seq<int>, total: int, r: Rect, i: int)
    requires 0 <= i < |sizes| - 1 && SplitOk(sizes, total, r)
    ensures var c := ChildRect(sizes, total, r, i);
      Cursor(sizes, total, r, i + 1) == Cursor(sizes, total, r, i) + (if SplitsHeight(r) then c.height else c.width)
  {
    assert sizes[..i + 1][..i] == sizes[..i];
  }

  /**
   * One step of the height branch's loop: a non-last child of size 0 gets an
   * empty rectangle and the cursor stays put; any other gets the full width
   * and the floor of its share of the height, and the cursor moves past it.
   */
  lemma HeightStep(sizes: seq<int>, total: int, r: Rect, i: int)
    requires 0 <= i < |sizes| - 1 && SplitOk(sizes, total, r) && SplitsHeight(r)
    ensures var c := Cursor(sizes, total, r, i);
      && (sizes[i] == 0 ==>
            ChildRect(sizes, total, r, i) == Rect(r.x, c, 0, 0) && Cursor(sizes, total, r, i + 1) == c)
      && (sizes[i] != 0 ==>
            && total != 0
            && ChildRect(sizes, total, r, i) == Rect(r.x, c, r.width, FloorDiv(sizes[i] * r.height, total))
            && Cursor(sizes, total, r, i + 1) == c + FloorDiv(sizes[i] * r.height, total))
  {
    ChildRectAdvance(sizes, total, r, i);
  }

  /**
   * One step of the width branch's loop: while the parent's size is 0 every
   * non-last child gets an empty rectangle and the cursor stays put; otherwise
   * a child gets the full height and the floor of its share of the width, and
   * the cursor moves past it.
   */
  lemma WidthStep(sizes: seq<int>, total: int, r: Rect, i: int)
    requires 0 <= i < |sizes| - 1 && SplitOk(sizes, total, r) && !SplitsHeight(r)
    ensures var c := Cursor(sizes, total, r, i);
      && (total == 0 ==>
            ChildRect(sizes, total, r, i) == Rect(c, r.y, 0, 0) && Cursor(sizes, total, r, i + 1) == c)
      && (total != 0 ==>
            && ChildRect(sizes, total, r, i) == Rect(c, r.y, FloorDiv(sizes[i] * r.width, total), r.height)
            && Cursor(sizes, total, r, i + 1) == c + FloorDiv(sizes[i] * r.width, total))
  {
    ChildRectAdvance(sizes, total, r, i);
  }

  /** The rectangles `ChildRect` hands out tile `r` along the split axis. */
  lemma ChildRectsTile(sizes: seq<int>, total: int, r: Rect)
    requires |sizes| > 0 && SplitOk(sizes, total, r)
    ensures var n := |sizes|;
      && ChildRect(sizes, total, r, 0).y == r.y && ChildRect(sizes, total, r, 0).x == r.x
      && (SplitsHeight(r) ==>
            && (forall i | 0 <= i < n - 1 :: ChildRect(sizes, total, r, i + 1).y ==
                  ChildRect(sizes, total, r, i).y + ChildRect(sizes, total, r, i).height)
            && ChildRect(sizes, total, r, n - 1).y + ChildRect(sizes, total, r, n - 1).height == r.y + r.height
            && (forall i | 0 <= i < n :: ChildRect(sizes, total, r, i).x == r.x))
      && (!SplitsHeight(r) ==>
            && (forall i | 0 <= i < n - 1 :: ChildRect(sizes, total, r, i + 1).x ==
                  ChildRect(sizes, total, r, i).x + ChildRect(sizes, total, r, i).width)
            && ChildRect(sizes, total, r, n - 1).x + ChildRect(sizes, total, r, n - 1).width == r.x + r.width
            && (forall i | 0 <= i < n :: ChildRect(sizes, total, r, i).y == r.y))
  {
    forall i | 0 <= i < |sizes| - 1
      ensures var c := ChildRect(sizes, total, r, i);
        Cursor(sizes, total, r, i + 1) == Cursor(sizes, total, r, i) + (if SplitsHeight(r) then c.height else c.width)
    {
      ChildRectAdvance(sizes, total, r, i);
    }
    assert sizes[..0] == [];
  }

  /** A laid-out named child's rectangle is the one its parent handed it. */
  lemma LayoutChildRect<Id>(t: Tree<Id>, r: Rect, i: int)
    requires LayoutOk(t, r) && t.name.Some? && 0 <= i < |t.children| && t.children[i].name.Some?
    ensures Layout(t, r).children[i].rect == ChildRect(Sizes(t.children), t.size, r, i)
    ensures Layout(t, r).rect == r
  {
  }

  /**
   * The children of a laid-out node tile its rectangle along the split axis:
   * the first starts at the rectangle's edge, each next one where the previous
   * ends, the last ends at the far edge, and all share the other axis' origin.
   */
  lemma LayoutTiles<Id>(t: Tree<Id>, r: Rect)
    requires LayoutOk(t, r) && t.name.Some? && t.children != [] && ChildrenNamed(t)
    ensures var l := Layout(t, r); var n := |l.children|;
      && l.rect == r && n == |t.children|
      && (SplitsHeight(r) ==>
            && l.children[0].rect.y == r.y
            && (forall i | 0 <= i < n - 1 :: l.children[i + 1].rect.y == l.children[i].rect.y + l.children[i].rect.height)
            && l.children[n - 1].rect.y + l.children[n - 1].rect.height == r.y + r.height
            && (forall i | 0 <= i < n :: l.children[i].rect.x == r.x))
      && (!SplitsHeight(r) ==>
            && l.children[0].rect.x == r.x
            && (forall i | 0 <= i < n - 1 :: l.children[i + 1].rect.x == l.children[i].rect.x + l.children[i].rect.width)
            && l.children[n - 1].rect.x + l.children[n - 1].rect.width == r.x + r.width
            && (forall i | 0 <= i < n :: l.children[i].rect.y == r.y))
  {
    var sizes := Sizes(t.children);
    var l := Layout(t, r);
    forall i | 0 <= i < |t.children| ensures l.children[i].rect == ChildRect(sizes, t.size, r, i) {
      LayoutChildRect(t, r, i);
    }
    ChildRectsTile(sizes, t.size, r);
  }

  /** The source's share formula, `math.floor(s / total * extent)`, evaluated exactly. */
  function ProportionalFloor(s: int, total: int, extent: int): int
    requires total != 0
  {
    ((s as real / total as real) * extent as real).Floor
  }

  lemma ShareIsRealFloor(s: int, total: int, extent: int)
    requires total != 0
    ensures FloorDiv(s * extent, total) == ProportionalFloor(s, total, extent)
  {
    FloorDivIsRealFloor(s * extent, total);
    RealProportion(s, total, extent);
  }

  lemma RealProportion(s: int, total: int, extent: int)
    requires total != 0
    ensures (s * extent) as real / total as real == (s as real / total as real) * extent as real
  {
    assert (s * extent) as real == (s as real) * (extent as real);
  }

  /**
   * Each non-last child's extent is the floor of its exact proportional share
   * of the parent's extent, with the full extent on the other axis; a child
   * the zero test catches gets a zero-sized rectangle at the cursor.
   */
  lemma ChildRectShare(sizes: seq<int>, total: int, r: Rect, i: int)
    requires 0 <= i < |sizes| - 1 && SplitOk(sizes, total, r)
    ensures var c := ChildRect(sizes, total, r, i); var at := Cursor(sizes, total, r, i);
      && (SplitsHeight(r) && sizes[i] != 0 ==>
            c == Rect(r.x, at, r.width, ProportionalFloor(sizes[i], total, r.height)))
      && (SplitsHeight(r) && sizes[i] == 0 ==> c == Rect(r.x, at, 0, 0))
      && (!SplitsHeight(r) && total != 0 ==>
            c == Rect(at, r.y, ProportionalFloor(sizes[i], total, r.width), r.height))
      && (!SplitsHeight(r) && total == 0 ==> c == Rect(at, r.y, 0, 0))
  {
    if total != 0 {
      ShareIsRealFloor(sizes[i], total, Extent(r));
    }
  }

  /** The combined extent, along the split axis, of children `0..k`. */
  function Used(sizes: seq<int>, total: int, r: Rect, k: int): int
    requires 0 <= k < |sizes| && SplitOk(sizes, total, r)
    decreases k
  {
    if k == 0 then 0
    else
      var c := ChildRect(sizes, total, r, k - 1);
      Used(sizes, total, r, k - 1) + (if SplitsHeight(r) then c.height else c.width)
  }

  /** Child `i` is placed right after the children before it. */
  lemma {:induction false} CursorAfterUsed(sizes: seq<int>, total: int, r: Rect, i: int)
    requires 0 <= i < |sizes| && SplitOk(sizes, total, r)
    ensures Cursor(sizes, total, r, i) == Origin(r) + Used(sizes, total, r, i)
  {
    if i == 0 {
      assert sizes[..0] == [];
    } else {
      CursorAfterUsed(sizes, total, r, i - 1);
      ChildRectAdvance(sizes, total, r, i - 1);
    }
  }

  /**
   * The last child takes what the others leave: along the split axis it
   * starts where they end and its extent is the rectangle's less the sum of
   * theirs; on the other axis it spans the whole rectangle.
   */
  lemma LastChildAbsorbs(sizes: seq<int>, total: int, r: Rect)
    requires |sizes| > 0 && SplitOk(sizes, total, r)
    ensures var n := |sizes|; var c := ChildRect(sizes, total, r, n - 1); var used := Used(sizes, total, r, n - 1);
      && (SplitsHeight(r) ==> c.y == r.y + used && c.height == r.height - used && c.x == r.x && c.width == r.width)
      && (!SplitsHeight(r) ==> c.x == r.x + used && c.width == r.width - used && c.y == r.y && c.height == r.height)
  {
    CursorAfterUsed(sizes, total, r, |sizes| - 1);
  }

  lemma ShareBound(s: int, total: int, extent: int, height: bool)
    requires total > 0 && extent >= 0 && s >= 0
    ensures 0 <= Share(s, total, extent, height)
    ensures Share(s, total, extent, height) * total <= s * extent
  {
    var a := s * extent;
    MulNonNegative(s, extent);
    var q := FloorDiv(a, total);
    FloorDivBounds(a, total);
    if q < 0 {
      MulMonotone(q + 1, 0, total);
    }
  }

  lemma MulNonNegative(a: int, b: int)
    requires a >= 0 && b >= 0
    ensures a * b >= 0
  {
  }

  lemma MulMonotone(a: int, b: int, c: int)
    requires a <= b && c >= 0
    ensures a * c <= b * c
  {
  }

  /** With non-negative sizes and extent, the cursor's advance is bounded by the proportional total. */
  lemma {:induction false} OffsetBound(sizes: seq<int>, total: int, extent: int, height: bool)
    requires total > 0 && extent >= 0
    requires forall i | 0 <= i < |sizes| :: sizes[i] >= 0
    ensures 0 <= Offset(sizes, total, extent, height)
    ensures Offset(sizes, total, extent, height) * total <= extent * SumInts(sizes)
  {
    if sizes != [] {
      var init := sizes[..|sizes| - 1];
      var last := sizes[|sizes| - 1];
      OffsetBound(init, total, extent, height);
      var o := Offset(init, total, extent, height);
      var sh := Share(last, total, extent, height);
      ShareBound(last, total, extent, height);
      assert (o + sh) * total == o * total + sh * total;
      assert extent * SumInts(sizes) == extent * SumInts(init) + extent * last;
    }
  }

  /** With no division the source would fail, a zero parent size makes every cursor advance 0. */
  lemma {:induction false} OffsetOfZeroTotal(sizes: seq<int>, extent: int, height: bool)
    requires height ==> forall i | 0 <= i < |sizes| :: sizes[i] == 0
    ensures Offset(sizes, 0, extent, height) == 0
  {
    if sizes != [] {
      OffsetOfZeroTotal(sizes[..|sizes| - 1], extent, height);
    }
  }

  lemma OffsetWithinExtent(sizes: seq<int>, total: int, extent: int, height: bool, k: int)
    requires 0 <= k <= |sizes| && extent >= 0
    requires forall i | 0 <= i < |sizes| :: sizes[i] >= 0
    requires total == SumInts(sizes)
    ensures height && total == 0 ==> forall i | 0 <= i < |sizes[..k]| :: sizes[..k][i] == 0
    ensures 0 <= Offset(sizes[..k], total, extent, height) <= extent
  {
    SumIntsNonNegative(sizes);
    if total == 0 {
      ZeroSumAllZero(sizes);
      OffsetOfZeroTotal(sizes[..k], extent, height);
    } else {
      var p := sizes[..k];
      OffsetBound(p, total, extent, height);
      MulMonotone(SumInts(p), total, extent);
      CancelPositive(Offset(p, total, extent, height), extent, total);
    }
  }

  lemma CancelPositive(a: int, b: int, t: int)
    requires t > 0 && a * t <= t * b
    ensures a <= b
  {
    if a > b {
      MulMonotone(b + 1, a, t);
    }
  }

  /**
   * When the parent weighs the sum of its children, sizes are non-negative
   * and the rectangle is not inverted, every cursor stays within the
   * rectangle and no child gets a negative extent: in particular the last
   * child's remainder is never negative.
   */
  lemma ChildRectsNonNegative(sizes: seq<int>, total: int, r: Rect)
    requires |sizes| > 0 && SplitOk(sizes, total, r)
    requires forall i | 0 <= i < |sizes| :: sizes[i] >= 0
    requires total == SumInts(sizes) && r.width >= 0 && r.height >= 0
    ensures forall i | 0 <= i < |sizes| :: ChildRect(sizes, total, r, i).width >= 0 && ChildRect(sizes, total, r, i).height >= 0
    ensures forall i | 0 <= i < |sizes| :: Origin(r) <= Cursor(sizes, total, r, i) <= Origin(r) + Extent(r)
  {
    var n := |sizes|;
    var e := Extent(r);
    var h := SplitsHeight(r);
    forall i | 0 <= i < n ensures 0 <= Offset(sizes[..i], total, e, h) <= e {
      OffsetWithinExtent(sizes, total, e, h, i);
    }
    forall i | 0 <= i < n - 1 ensures Share(sizes[i], total, e, h) >= 0 {
      if total != 0 {
        if total < 0 {
          SumIntsNonNegative(sizes);
        }
        ShareBound(sizes[i], total, e, h);
      }
    }
  }

  /** Worked example, one lemma per child: sizes 10, 20, 30 laid out side by side in (0, 0, 100, 10) get widths 16, 33 and 51. */
  lemma ExampleFirst()
    ensures ChildRect([10, 20, 30], 60, Rect(0, 0, 100, 10), 0) == Rect(0, 0, 16, 10)
  {
    assert [10, 20, 30][..0] == [];
    assert FloorDiv(1000, 60) == 16;
  }

  lemma ExampleSecond()
    ensures ChildRect([10, 20, 30], 60, Rect(0, 0, 100, 10), 1) == Rect(16, 0, 33, 10)
  {
    assert [10, 20, 30][..1] == [10];
    assert [10][..0] == [];
    assert FloorDiv(1000, 60) == 16;
    assert FloorDiv(2000, 60) == 33;
  }

  lemma ExampleLast()
    ensures ChildRect([10, 20, 30], 60, Rect(0, 0, 100, 10), 2) == Rect(49, 0, 51, 10)
  {
    assert [10, 20, 30][..2] == [10, 20];
    assert [10, 20][..1] == [10];
    assert [10][..0] == [];
    assert FloorDiv(1000, 60) == 16;
    assert FloorDiv(2000, 60) == 33;
  }
}
