/**
 * How the initializer builds a forest: `TMTree(name, subtrees, data_size)`
 * creates a new node and makes it the parent of its subtrees, which were
 * roots until then. The universe grown by that node, with the trees of the
 * adopted roots one level further down, satisfies the representation
 * invariant again; starting from the empty universe, this covers every tree
 * the initializer can build.
 */
module Forest {
  import opened Wrappers
  import opened Geometry
  import opened TreeModel
  import opened TMTrees

  /** `ks` are distinct named roots of `g`: subtrees a new node may adopt. */
  ghost predicate Adoptable(g: Universe, ks: seq<nat>)
    requires Shaped(g)
  {
    && (forall k | 0 <= k < |ks| :: ks[k] < |g.nodes| && g.path[ks[k]] == [] && g.nodes[ks[k]].name.Some?)
    && (forall k, j | 0 <= k < j < |ks| :: ks[k] != ks[j])
  }

  /**
   * `g` with the node `n` added at index `|g.nodes|` as the parent of the
   * roots `ks`: every node whose root is one of them gets `n` in front of its
   * path, and an adopted root's position is its place in `ks`.
   */
  ghost function Adjoin(g: Universe, n: Node, ks: seq<nat>): (g2: Universe)
    requires Shaped(g)
    ensures |g2.nodes| == |g.nodes| + 1 && g2.nodes[|g.nodes|] == n
  {
    var top := |g.nodes|;
    Universe(
      g.nodes + [n],
      m => if m == n then top else g.id(m),
      g.kids + [ks],
      seq(top + 1, x requires 0 <= x <= top =>
            if x == top then [] else if Top(g, x) in ks then [top] + g.path[x] else g.path[x]),
      seq(top + 1, x requires 0 <= x <= top =>
            if x == top then 0 else if x in ks then IndexOf(ks, x) else g.pos[x]),
      g.height + 1)
  }

  /** A child has the same root as its parent. */
  lemma TopKid(g: Universe, x: nat, k: nat)
    requires Shaped(g) && x < |g.nodes| && k < |g.kids[x]|
    ensures Top(g, g.kids[x][k]) == Top(g, x)
  {
    var c := g.kids[x][k];
    assert g.path[c] == g.path[x] + [x];
    if g.path[x] != [] {
      assert g.path[c][0] == g.path[x][0];
    }
  }

  /** In the grown universe, a child sits below its parent at its recorded position. */
  lemma AdjoinKid(g: Universe, n: Node, ks: seq<nat>, x: nat, k: nat)
    requires Shaped(g) && Adoptable(g, ks)
    requires x <= |g.nodes| && k < |Adjoin(g, n, ks).kids[x]|
    ensures var g2 := Adjoin(g, n, ks); var c := g2.kids[x][k];
      && c < |g2.nodes| && g2.path[c] == g2.path[x] + [x] && g2.pos[c] == k && g2.nodes[c].name.Some?
  {
    if x == |g.nodes| {
      IndexOfAt(ks, ks[k], k);
    } else {
      TopKid(g, x, k);
    }
  }

  /** In the grown universe, a node with a parent is that parent's child at its recorded position. */
  lemma AdjoinLast(g: Universe, n: Node, ks: seq<nat>, x: nat)
    requires Shaped(g) && Adoptable(g, ks)
    requires x < |g.nodes| && Adjoin(g, n, ks).path[x] != []
    ensures var g2 := Adjoin(g, n, ks);
      && Last(g2.path[x]) < |g2.nodes| && g2.pos[x] < |g2.kids[Last(g2.path[x])]|
      && g2.kids[Last(g2.path[x])][g2.pos[x]] == x
  {
    var g2 := Adjoin(g, n, ks);
    if g.path[x] == [] {
      assert Top(g, x) == x && g2.path[x] == [|g.nodes|];
    } else {
      assert x !in ks;
      assert Last(g2.path[x]) == Last(g.path[x]);
    }
  }

  /** Growing a well-shaped universe by a new node over distinct named roots keeps it well-shaped. */
  lemma AdjoinShaped(g: Universe, n: Node, ks: seq<nat>)
    requires Shaped(g) && Adoptable(g, ks) && n !in g.nodes && (n.name.None? ==> ks == [])
    ensures Shaped(Adjoin(g, n, ks))
  {
    var g2 := Adjoin(g, n, ks);
    var top := |g.nodes|;
    forall x | 0 <= x < top ensures g2.id(g2.nodes[x]) == x {
      assert g2.nodes[x] == g.nodes[x] != n;
    }
    forall x, k | 0 <= x < |g2.nodes| && 0 <= k < |g2.kids[x]|
      ensures && g2.kids[x][k] < |g2.nodes| && g2.path[g2.kids[x][k]] == g2.path[x] + [x]
              && g2.pos[g2.kids[x][k]] == k && g2.nodes[g2.kids[x][k]].name.Some?
    {
      AdjoinKid(g, n, ks, x, k);
    }
    forall x | 0 <= x < |g2.nodes| && g2.path[x] != []
      ensures && Last(g2.path[x]) < |g2.nodes| && g2.pos[x] < |g2.kids[Last(g2.path[x])]|
              && g2.kids[Last(g2.path[x])][g2.pos[x]] == x
    {
      AdjoinLast(g, n, ks, x);
    }
  }

  /**
   * Once the new node's children are the adopted roots, their parent link is
   * the new node and every other link is as before, the grown universe is
   * valid.
   */
  lemma AdjoinValid(g: Universe, n: Node, ks: seq<nat>)
    requires Linked(g) && Adoptable(g, ks) && n !in g.nodes && (n.name.None? ==> ks == [])
    requires n.parent == null && |n.children| == |ks|
    requires forall k | 0 <= k < |ks| :: n.children[k] == g.nodes[ks[k]]
    requires forall x | 0 <= x < |g.nodes| ::
               g.nodes[x].parent == if x in ks then n else if g.path[x] == [] then null else g.nodes[Last(g.path[x])]
    ensures Valid(Adjoin(g, n, ks))
  {
    var g2 := Adjoin(g, n, ks);
    var top := |g.nodes|;
    AdjoinShaped(g, n, ks);
    forall x | 0 <= x < top + 1
      ensures g2.nodes[x].parent == if g2.path[x] == [] then null else g2.nodes[Last(g2.path[x])]
    {
      if x < top && g.path[x] != [] {
        assert x !in ks && Last(g2.path[x]) == Last(g.path[x]);
      }
    }
  }

  /**
   * `TMTree(name, subtrees, data_size)` over roots `ks` of a valid universe:
   * the new node is a root over them, and the universe grown by it is valid.
   */
  method NewRoot(ghost g: Universe, ghost ks: seq<nat>, name: Option<string>, subtrees: seq<Node>,
                 size: int, colour: Colour) returns (n: Node, ghost g2: Universe)
    requires Valid(g) && Adoptable(g, ks) && |subtrees| == |ks|
    requires forall k | 0 <= k < |ks| :: subtrees[k] == g.nodes[ks[k]]
    requires name.None? ==> subtrees == []
    modifies subtrees`parent
    ensures fresh(n) && g2 == Adjoin(g, n, ks) && Valid(g2)
    ensures n.At(g2, |g.nodes|) && g2.path[|g.nodes|] == [] && g2.kids[|g.nodes|] == ks
    ensures forall k | 0 <= k < |ks| :: g2.path[ks[k]] == [|g.nodes|]
    ensures forall x | 0 <= x < |g.nodes| && x !in ks :: g.nodes[x].parent == old(g.nodes[x].parent)
  {
    n := new Node(name, subtrees, size, colour);
    g2 := Adjoin(g, n, ks);
    forall x, k | 0 <= x < |g.nodes| && x !in ks && 0 <= k < |ks| ensures subtrees[k] != g.nodes[x] {
      assert g.id(subtrees[k]) == ks[k] != x == g.id(g.nodes[x]);
    }
    AdjoinValid(g, n, ks);
  }
}
