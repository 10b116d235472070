/**
 * A value snapshot of a TMTree node and its subtree, and the size
 * bookkeeping of the tree: the construction rule (an internal node weighs the
 * sum of its children) and `update_data_sizes`, which re-establishes it.
 */
module TreeModel {
  import opened Wrappers
  import opened Geometry

  /** The RGB colour drawn for a node; chosen at random once and never recomputed. */
  datatype Colour = Colour(red: int, green: int, blue: int)

  /**
   * One node with its subtree. `id` is the node's identity (the heap object in
   * the imperative model); `name == None` marks the empty tree.
   */
  datatype Tree<Id> = Tree(id: Id, name: Option<string>, size: int, rect: Rect,
                           colour: Colour, expanded: bool, children: seq<Tree<Id>>)

  function SumInts(s: seq<int>): int {
    if s == [] then 0 else SumInts(s[..|s| - 1]) + s[|s| - 1]
  }

  function Sizes<Id>(ts: seq<Tree<Id>>): (s: seq<int>)
    ensures |s| == |ts| && forall i | 0 <= i < |ts| :: s[i] == ts[i].size
  {
    seq(|ts|, i requires 0 <= i < |ts| => ts[i].size)
  }

  /** The representation invariant: every internal node weighs the sum of its children. */
  ghost predicate Consistent<Id>(t: Tree<Id>) {
    && (t.children != [] ==> t.size == SumInts(Sizes(t.children)))
    && forall i | 0 <= i < |t.children| :: Consistent(t.children[i])
  }

  /** `data_size >= 0` throughout the subtree. */
  ghost predicate NonNegative<Id>(t: Tree<Id>) {
    t.size >= 0 && forall i | 0 <= i < |t.children| :: NonNegative(t.children[i])
  }

  /** `update_data_sizes`: leaves keep their size, internal nodes are re-summed bottom-up. */
  function Recompute<Id>(t: Tree<Id>): Tree<Id> {
    if t.children == [] then t
    else
      var kids := seq(|t.children|, i requires 0 <= i < |t.children| => Recompute(t.children[i]));
      t.(size := SumInts(Sizes(kids)), children := kids)
  }

  /** Independent reference: the total size of the leaves under a node. */
  function LeafTotal<Id>(t: Tree<Id>): int {
    if t.children == [] then t.size
    else SumInts(seq(|t.children|, i requires 0 <= i < |t.children| => LeafTotal(t.children[i])))
  }

  /** The tree with every derived (internal) size blanked out: what `update_data_sizes` may not change. */
  function Skeleton<Id>(t: Tree<Id>): Tree<Id> {
    t.(size := if t.children == [] then t.size else 0,
       children := seq(|t.children|, i requires 0 <= i < |t.children| => Skeleton(t.children[i])))
  }

  lemma {:induction false} RecomputeConsistent<Id>(t: Tree<Id>)
    ensures Consistent(Recompute(t))
  {
    if t.children != [] {
      forall i | 0 <= i < |t.children| ensures Consistent(Recompute(t.children[i])) {
        RecomputeConsistent(t.children[i]);
      }
    }
  }

  lemma {:induction false} RecomputeIsLeafTotal<Id>(t: Tree<Id>)
    ensures Recompute(t).size == LeafTotal(t)
  {
    if t.children != [] {
      var kids := Recompute(t).children;
      forall i | 0 <= i < |t.children| ensures kids[i].size == LeafTotal(t.children[i]) {
        RecomputeIsLeafTotal(t.children[i]);
      }
      assert Sizes(kids) == seq(|t.children|, i requires 0 <= i < |t.children| => LeafTotal(t.children[i]));
    }
  }

  lemma {:induction false} RecomputeKeepsSkeleton<Id>(t: Tree<Id>)
    ensures Skeleton(Recompute(t)) == Skeleton(t)
  {
    if t.children != [] {
      forall i | 0 <= i < |t.children| ensures Skeleton(Recompute(t.children[i])) == Skeleton(t.children[i]) {
        RecomputeKeepsSkeleton(t.children[i]);
      }
      assert Skeleton(Recompute(t)).children == Skeleton(t).children;
    }
  }

  lemma {:induction false} RecomputeFixesConsistent<Id>(t: Tree<Id>)
    requires Consistent(t)
    ensures Recompute(t) == t
  {
    if t.children != [] {
      forall i | 0 <= i < |t.children| ensures Recompute(t.children[i]) == t.children[i] {
        RecomputeFixesConsistent(t.children[i]);
      }
      assert Recompute(t).children == t.children;
    }
  }

  /** `update_data_sizes` has only one possible outcome: the consistent tree with the same skeleton. */
  lemma {:induction false} RecomputeUnique<Id>(t: Tree<Id>, u: Tree<Id>)
    requires Consistent(u) && Skeleton(u) == Skeleton(t)
    ensures u == Recompute(t)
  {
    assert |u.children| == |Skeleton(u).children| == |t.children|;
    forall i | 0 <= i < |t.children| ensures u.children[i] == Recompute(t.children[i]) {
      assert Skeleton(u).children[i] == Skeleton(t).children[i];
      RecomputeUnique(t.children[i], u.children[i]);
    }
    if t.children != [] {
      assert u.children == Recompute(t).children;
    }
  }

  lemma RecomputeIdempotent<Id>(t: Tree<Id>)
    ensures Recompute(Recompute(t)) == Recompute(t)
  {
    RecomputeConsistent(t);
    RecomputeFixesConsistent(Recompute(t));
  }

  /** Sums of non-negative numbers are non-negative and bound each part. */
  lemma {:induction false} SumIntsNonNegative(s: seq<int>)
    requires forall i | 0 <= i < |s| :: s[i] >= 0
    ensures SumInts(s) >= 0
    ensures forall k | 0 <= k <= |s| :: SumInts(s[..k]) <= SumInts(s)
  {
    if s != [] {
      var init := s[..|s| - 1];
      SumIntsNonNegative(init);
      forall k | 0 <= k <= |s| ensures SumInts(s[..k]) <= SumInts(s) {
        if k < |s| {
          assert s[..k] == init[..k];
        } else {
          assert s[..k] == s;
        }
      }
    }
  }

  lemma {:induction false} ConsistentSubtree<Id>(t: Tree<Id>, i: int)
    requires Consistent(t) && NonNegative(t) && 0 <= i < |t.children|
    ensures Consistent(t.children[i]) && NonNegative(t.children[i])
    ensures t.children[i].size <= t.size
  {
    var s := Sizes(t.children);
    SumIntsNonNegative(s);
    SumIntsSplit(s, i);
  }

  lemma {:induction false} SumIntsSplit(s: seq<int>, i: int)
    requires 0 <= i < |s| && forall k | 0 <= k < |s| :: s[k] >= 0
    ensures s[i] <= SumInts(s)
  {
    var init := s[..|s| - 1];
    SumIntsNonNegative(init);
    if i < |s| - 1 {
      SumIntsSplit(init, i);
    }
  }

  /** Zero sums of non-negative numbers have only zero terms. */
  lemma ZeroSumAllZero(s: seq<int>)
    requires forall i | 0 <= i < |s| :: s[i] >= 0
    requires SumInts(s) == 0
    ensures forall i | 0 <= i < |s| :: s[i] == 0
  {
    forall i | 0 <= i < |s| ensures s[i] == 0 {
      SumIntsSplit(s, i);
    }
  }

}
