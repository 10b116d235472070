/**
 * The `TMTree` objects themselves: nodes on the heap whose `rect`,
 * `data_size`, `_expanded`, `_subtrees` and `_parent_tree` fields the
 * operations update in place.
 *
 * A ghost `Universe` numbers the nodes of a forest and records its shape by
 * index: each node's children, the path of ancestors from its root, and its
 * position among its parent's children. `FieldsOf` takes a value snapshot of
 * every node's mutable fields. Each recursive operation is specified node by
 * node on the snapshots before and after it, and a lemma then connects it to
 * the function on value trees that the other modules define.
 */
module TMTrees {
  import opened Wrappers
  import opened Geometry
  import opened TreeModel
  import opened TreemapLayout
  import opened Display
  import opened Resize

  class Node {
    var rect: Rect
    var dataSize: int
    var children: seq<Node>
    var parent: Node?
    var expanded: bool
    const name: Option<string>
    const colour: Colour

    /** This node is node `me` of the universe. */
    ghost predicate At(g: Universe, me: nat) {
      me < |g.nodes| && g.nodes[me] == this
    }

    /**
     * `TMTree(name, subtrees, data_size)`: a leaf takes the given size, an
     * internal node the sum of its children's sizes, and every child gets the
     * new node as its parent. The colour is a parameter.
     */
    constructor (name: Option<string>, subtrees: seq<Node>, size: int, colour: Colour)
      requires name.None? ==> subtrees == []
      modifies subtrees`parent
      ensures this.name == name && this.colour == colour && children == subtrees
      ensures rect == Rect(0, 0, 0, 0) && parent == null && !expanded
      ensures subtrees == [] ==> dataSize == size
      ensures subtrees != [] ==> dataSize == SumInts(old(SizesOf(subtrees)))
      ensures forall k | 0 <= k < |subtrees| :: subtrees[k].parent == this
    {
      this.name := name;
      this.colour := colour;
      rect := Rect(0, 0, 0, 0);
      children := subtrees;
      parent := null;
      expanded := false;
      if |subtrees| == 0 {
        dataSize := size;
      } else {
        var sum := TotalSize(subtrees);
        dataSize := sum;
      }
      new;
      Adopt(subtrees, this);
    }

    /** The second loop of the initializer: every subtree gets `p` as its parent. */
    static method Adopt(subtrees: seq<Node>, p: Node)
      modifies subtrees`parent
      ensures forall k | 0 <= k < |subtrees| :: subtrees[k].parent == p
    {
      for i := 0 to |subtrees|
        invariant forall k | 0 <= k < i :: subtrees[k].parent == p
      {
        subtrees[i].parent := p;
      }
    }

    /** The summing loop of the initializer: the total size of a list of subtrees. */
    static method TotalSize(subtrees: seq<Node>) returns (sum: int)
      ensures sum == SumInts(SizesOf(subtrees))
    {
      sum := 0;
      for i := 0 to |subtrees|
        invariant sum == SumInts(SizesOf(subtrees[..i]))
      {
        assert subtrees[..i + 1][..i] == subtrees[..i];
        sum := sum + subtrees[i].dataSize;
      }
      assert subtrees[..|subtrees|] == subtrees;
    }

    /** `is_empty`: only the empty tree is unnamed, and it has no children. */
    function IsEmpty(ghost g: Universe, ghost me: nat): (b: bool)
      requires Linked(g) && At(g, me)
      reads this, g.nodes
      ensures b <==> name.None?
      ensures b ==> children == [] && Model(g, FieldsOf(g), me).children == []
    {
      name.None?
    }

    /**
     * `update_data_sizes`: every internal node below is re-summed bottom-up,
     * leaves keep their size, nothing else changes, and the new size of this
     * node is returned.
     */
    method UpdateDataSizes(ghost g: Universe, ghost me: nat) returns (total: int)
      requires Linked(g) && At(g, me)
      modifies Internal(g, me)`dataSize
      ensures Linked(g)
      ensures HoldsBelow(g, FieldsOf(g), me, Summed)
      ensures Only(g, old(FieldsOf(g)), FieldsOf(g), me, Summed, {})
      ensures total == dataSize
      ensures Model(g, FieldsOf(g), me) == Recompute(Model(g, old(FieldsOf(g)), me))
      decreases g.height - |g.path[me]|, 1
    {
      ghost var s := FieldsOf(g);
      if |children| == 0 {
        Alone(g, me);
      } else {
        var sum := SumChildren(g, me);
        ghost var s1 := FieldsOf(g);
        dataSize := sum;
        KidsKept(g, s1, FieldsOf(g), me);
        Finish(g, s, s1, FieldsOf(g), me, Summed, {});
      }
      total := dataSize;
      SummedIsRecompute(g, s, FieldsOf(g), me);
    }

    /** The loop of `update_data_sizes`: re-sum each child's subtree and add up the children's new sizes. */
    method SumChildren(ghost g: Universe, ghost me: nat) returns (sum: int)
      requires Linked(g) && At(g, me)
      modifies Internal(g, me)`dataSize
      ensures Linked(g) && FieldsOf(g)[me] == old(FieldsOf(g))[me]
      ensures HoldsDone(g, FieldsOf(g), me, |g.kids[me]|, Summed)
      ensures Only(g, old(FieldsOf(g)), FieldsOf(g), me, Summed, {})
      ensures sum == SumInts(KidSizes(g, FieldsOf(g), me))
      decreases g.height - |g.path[me]|, 0
    {
      ghost var s := FieldsOf(g);
      sum := 0;
      for i := 0 to |children|
        invariant Linked(g) && FieldsOf(g)[me] == s[me]
        invariant HoldsDone(g, FieldsOf(g), me, i, Summed)
        invariant Only(g, s, FieldsOf(g), me, Summed, {})
        invariant sum == SumInts(KidSizes(g, FieldsOf(g), me)[..i])
      {
        ghost var s0 := FieldsOf(g);
        SpanWithin(g, me, i);
        var c := children[i].UpdateDataSizes(g, g.kids[me][i]);
        Step(g, s, s0, FieldsOf(g), me, i, Summed, {}, {});
        SumStep(g, s0, FieldsOf(g), me, i);
        sum := sum + c;
      }
      assert KidSizes(g, FieldsOf(g), me)[..|children|] == KidSizes(g, FieldsOf(g), me);
    }

    /**
     * `move(destination)`: when this node is a leaf and `destination` is not,
     * this node becomes the last child of `destination`. If it had a parent,
     * it leaves that parent's list, the parent is re-summed (or gets size 0
     * once it has no children left) and its parent link becomes
     * `destination`; a node without a parent keeps a null link. Finally
     * `destination` is re-summed. Otherwise nothing changes.
     */
    method Move(ghost g: Universe, ghost me: nat, dest: Node, ghost d: nat)
      requires Valid(g) && At(g, me) && dest.At(g, d) && name.Some?
      modifies this`parent, dest`children, Above()`children, Span(g, d)`dataSize, Family(g, me)`dataSize
      ensures old(children != [] || dest.children == []) ==> Valid(g) && FieldsOf(g) == old(FieldsOf(g))
      ensures old(children == [] && dest.children != []) ==>
                && Linked(Moved(g, me, d))
                && parent == (if old(parent) == null then null else dest)
                && (old(parent) != null ==> Valid(Moved(g, me, d)))
      ensures old(children == [] && dest.children != []) ==>
                Resettled(g, me, d, old(FieldsOf(g)), FieldsOf(g))
    {
      if |children| != 0 {
      } else if |dest.children| == 0 {
      } else {
        Relocate(g, me, dest, d);
      }
    }

    /** The effect of `move` once its guard passed: this leaf becomes the last child of `dest`. */
    method Relocate(ghost g: Universe, ghost me: nat, dest: Node, ghost d: nat)
      requires Valid(g) && At(g, me) && dest.At(g, d) && name.Some?
      requires children == [] && dest.children != []
      modifies this`parent, dest`children, Above()`children, Span(g, d)`dataSize, Family(g, me)`dataSize
      ensures Linked(Moved(g, me, d)) && parent == (if old(parent) == null then null else dest)
      ensures old(parent) != null ==> Valid(Moved(g, me, d))
      ensures Resettled(g, me, d, old(FieldsOf(g)), FieldsOf(g))
    {
      ghost var cs := ChildrenOf(g);
      ghost var hasParent := parent != null;
      ghost var ps := ParentsOf(g);
      if hasParent {
        ParentedHas(g);
        MovedParented(g, me, d, ps);
      }
      assert g.kids[me] == [] && g.nodes[d].name.Some? && me != d;
      if hasParent {
        ParentFacts(g, me);
        MovedInternal(g, me, d, Last(g.path[me]));
      }
      MovedInternal(g, me, d, d);
      Attach(g, me, dest, d, cs);
      Settle(g, me, dest, d, ps);
    }

    /**
     * The size updates of `move` once the lists are rewired: the old parent
     * is re-summed and the link moved to `dest`, then `dest` is re-summed.
     */
    method Settle(ghost g: Universe, ghost me: nat, dest: Node, ghost d: nat, ghost ps: seq<Node?>)
      requires Movable(g, me, d) && Shaped(Moved(g, me, d)) && Linked(Moved(g, me, d)) && At(g, me) && dest.At(g, d)
      requires parent == (if g.path[me] == [] then null else g.nodes[Last(g.path[me])])
      requires ParentsOf(g) == ps && (g.path[me] != [] ==> ParentedTo(Moved(g, me, d), ps[me := dest]))
      modifies this`parent, Resized(g, me, d)`dataSize
      ensures Linked(Moved(g, me, d)) && (g.path[me] != [] ==> Parented(Moved(g, me, d)))
      ensures parent == (if old(parent) == null then null else dest)
      ensures Resettled(g, me, d, old(FieldsOf(g)), FieldsOf(g))
    {
      ghost var g2 := Moved(g, me, d);
      assert FieldsOf(g2) == FieldsOf(g);
      ghost var s0 := FieldsOf(g2);
      LeaveParent(g2, me, if g.path[me] == [] then d else Last(g.path[me]), dest, ps);
      ghost var mid := FieldsOf(g2);
      ghost var ps2 := ParentsOf(g2);
      if g.path[me] != [] { ParentedHas(g2); }
      dest.Refresh(g2, d);
      if g.path[me] != [] { ParentedBy(g2, ps2); }
      MoveSums(g, me, d, s0, mid, FieldsOf(g2));
      assert FieldsOf(g) == FieldsOf(g2);
    }

    /** The old parent's part of `move`, when there is one (node `p` of `g2`): it is re-summed and the link moves to `dest`. */
    method LeaveParent(ghost g2: Universe, ghost me: nat, ghost p: nat, dest: Node, ghost ps: seq<Node?>)
      requires Linked(g2) && p < |g2.nodes| && (parent != null ==> parent == g2.nodes[p])
      requires me < |g2.nodes| && g2.nodes[me] == this && ParentsOf(g2) == ps
      requires parent != null ==> ParentedTo(g2, ps[me := dest])
      modifies this`parent, Above()`dataSize, Internal(g2, p)`dataSize
      ensures Linked(g2) && parent == (if old(parent) == null then null else dest)
      ensures old(parent) != null ==> Parented(g2)
      ensures old(parent) == null ==> FieldsOf(g2) == old(FieldsOf(g2))
      ensures old(parent) != null ==> Refreshed(g2, Emptied(g2, p, old(FieldsOf(g2))), FieldsOf(g2), p)
    {
      if parent != null {
        parent.Resum(g2, p);
        Reparent(g2, me, dest, ps);
      }
    }

    /** Points this node's parent link at `dest`, which makes the links those of `g`. */
    method Reparent(ghost g: Universe, ghost me: nat, dest: Node, ghost ps: seq<Node?>)
      requires me < |g.nodes| && g.nodes[me] == this && ParentsOf(g) == ps
      requires Linked(g) && ParentedTo(g, ps[me := dest])
      modifies this`parent
      ensures parent == dest && Linked(g) && Parented(g) && FieldsOf(g) == old(FieldsOf(g))
    {
      parent := dest;
      assert ParentsOf(g) == ps[me := dest];
      ParentedBy(g, ps[me := dest]);
    }

    /**
     * The old parent's part of `move`: with no children left its size becomes
     * 0, otherwise its subtree is re-summed and the new size stored.
     */
    method Resum(ghost g: Universe, ghost me: nat)
      requires Linked(g) && At(g, me)
      modifies this`dataSize, Internal(g, me)`dataSize
      ensures Linked(g) && Refreshed(g, Emptied(g, me, old(FieldsOf(g))), FieldsOf(g), me)
    {
      if |children| == 0 {
        dataSize := 0;
        Alone(g, me);
      } else {
        Refresh(g, me);
      }
    }

    /** `data_size = update_data_sizes()` on a node with children: its subtree is re-summed and nothing else changes. */
    method Refresh(ghost g: Universe, ghost me: nat)
      requires Linked(g) && At(g, me) && children != []
      modifies Internal(g, me)`dataSize
      ensures Linked(g) && ParentsOf(g) == old(ParentsOf(g))
      ensures Refreshed(g, old(FieldsOf(g)), FieldsOf(g), me)
    {
      var total := UpdateDataSizes(g, me);
      dataSize := total;
    }

    /** The list updates of `move`: this leaf is appended to `dest`'s children, then removed from its parent's list. */
    method Attach(ghost g: Universe, ghost me: nat, dest: Node, ghost d: nat, ghost cs: seq<seq<Node>>)
      requires LinkedTo(g, cs) && ChildrenOf(g) == cs && Movable(g, me, d)
      requires At(g, me) && dest.At(g, d)
      requires parent == (if g.path[me] == [] then null else g.nodes[Last(g.path[me])])
      modifies dest`children, Above()`children
      ensures Linked(Moved(g, me, d))
      ensures FieldsOf(g) == old(FieldsOf(g)) && ParentsOf(g) == old(ParentsOf(g))
    {
      if parent != null {
        assert cs[Last(g.path[me])][g.pos[me]] == this;
      }
      dest.Append(g, d, this);
      if parent != null {
        parent.Release(g, Last(g.path[me]), this);
      }
      MovedLinked(g, me, d, cs);
      LinkedBy(Moved(g, me, d), Rewired(g, me, d, cs));
    }

    /** Appends `n` to this node's children list; no other list, size or link changes. */
    method Append(ghost g: Universe, ghost x: nat, n: Node)
      requires Indexed(g) && x < |g.nodes| && g.nodes[x] == this
      modifies this`children
      ensures ChildrenOf(g) == old(ChildrenOf(g))[x := old(children) + [n]]
      ensures FieldsOf(g) == old(FieldsOf(g)) && ParentsOf(g) == old(ParentsOf(g))
    {
      children := children + [n];
    }

    /** Removes the first occurrence of `n` from this node's children list; no other list, size or link changes. */
    method Release(ghost g: Universe, ghost x: nat, n: Node)
      requires Indexed(g) && x < |g.nodes| && g.nodes[x] == this && n in children
      modifies this`children
      ensures ChildrenOf(g) == old(ChildrenOf(g))[x := RemoveFirst(old(children), n)]
      ensures FieldsOf(g) == old(FieldsOf(g)) && ParentsOf(g) == old(ParentsOf(g))
    {
      children := RemoveFirst(children, n);
    }

    /** `change_size(factor)`: a leaf grows or shrinks by `factor` of itself, rounded up; other nodes are untouched. */
    method ChangeSize(factor: real)
      modifies this`dataSize
      ensures children != [] ==> dataSize == old(dataSize)
      ensures children == [] ==> dataSize == NewSize(old(dataSize), factor)
    {
      if |children| != 0 {
      } else {
        var change := Ceil(dataSize as real * Abs(factor));
        if factor >= 0.0 {
          dataSize := dataSize + change;
        } else if dataSize - change < 1 {
          dataSize := 1;
        } else {
          dataSize := dataSize - change;
        }
      }
    }

    /** `expand`: an internal node becomes expanded; a leaf is untouched. */
    method Expand(ghost g: Universe, ghost me: nat)
      requires Linked(g) && At(g, me)
      modifies this`expanded
      ensures Linked(g)
      ensures expanded == (old(expanded) || children != [])
      ensures Model(g, FieldsOf(g), me) == Display.Expand(Model(g, old(FieldsOf(g)), me))
    {
      ghost var s := FieldsOf(g);
      if |children| == 0 {
      } else {
        expanded := true;
      }
      forall k | 0 <= k < |g.kids[me]| ensures Model(g, FieldsOf(g), g.kids[me][k]) == Model(g, s, g.kids[me][k]) {
        UnderKid(g, me, k);
        ModelSame(g, s, FieldsOf(g), g.kids[me][k]);
      }
    }

    /** `expand_all`: every internal node of the subtree becomes expanded; nothing else changes. */
    method ExpandAll(ghost g: Universe, ghost me: nat)
      requires Linked(g) && At(g, me)
      modifies Internal(g, me)`expanded
      ensures Linked(g)
      ensures HoldsBelow(g, FieldsOf(g), me, Opened)
      ensures Only(g, old(FieldsOf(g)), FieldsOf(g), me, Opened, {})
      ensures Model(g, FieldsOf(g), me) == Display.ExpandAll(Model(g, old(FieldsOf(g)), me))
      decreases g.height - |g.path[me]|
    {
      ghost var s := FieldsOf(g);
      if |children| == 0 {
        Alone(g, me);
      } else {
        expanded := true;
        ghost var s0 := FieldsOf(g);
        for i := 0 to |children|
          invariant Linked(g) && FieldsOf(g)[me] == s0[me]
          invariant HoldsDone(g, FieldsOf(g), me, i, Opened)
          invariant Only(g, s, FieldsOf(g), me, Opened, {})
        {
          ghost var s1 := FieldsOf(g);
          SpanWithin(g, me, i);
          children[i].ExpandAll(g, g.kids[me][i]);
          Step(g, s, s1, FieldsOf(g), me, i, Opened, {}, {});
        }
        Finish(g, s, FieldsOf(g), FieldsOf(g), me, Opened, {});
      }
      OpenedIsExpandAll(g, s, FieldsOf(g), me);
    }

    /**
     * `collapse`: this node, its whole subtree and its immediate parent end up
     * collapsed; nothing else changes.
     */
    method Collapse(ghost g: Universe, ghost me: nat)
      requires Valid(g) && At(g, me)
      modifies Span(g, me)`expanded, Above()`expanded
      ensures Valid(g)
      ensures HoldsBelow(g, FieldsOf(g), me, Closed)
      ensures g.path[me] != [] ==> !FieldsOf(g)[Last(g.path[me])].expanded
      ensures Only(g, old(FieldsOf(g)), FieldsOf(g), me, Closed, Up(g, me))
      ensures Model(g, FieldsOf(g), me) == Folded(Model(g, old(FieldsOf(g)), me))
      decreases g.height - |g.path[me]|, 1
    {
      ghost var s := FieldsOf(g);
      Shut(g, me);
      ghost var s0 := FieldsOf(g);
      ParentUp(g, me);
      CollapseChildren(g, me);
      Finish(g, s0, FieldsOf(g), FieldsOf(g), me, Closed, {});
      OnlyThen(g, s, s0, FieldsOf(g), me, Closed, Up(g, me));
      ClosedIsFolded(g, s, FieldsOf(g), me);
    }

    /**
     * `collapse_all`: a root collapses its whole tree; any other node clears
     * its own flag and the flag of every ancestor up to the root, so that the
     * whole displayed tree shows as its root alone.
     */
    method CollapseAll(ghost g: Universe, ghost me: nat)
      requires Valid(g) && At(g, me)
      modifies Span(g, me)`expanded, Line(g, me)`expanded
      ensures Valid(g)
      ensures g.path[me] == [] ==> Model(g, FieldsOf(g), me) == Folded(Model(g, old(FieldsOf(g)), me))
      ensures g.path[me] == [] ==> Only(g, old(FieldsOf(g)), FieldsOf(g), me, Closed, {})
      ensures g.path[me] != [] ==> Cleared(g, old(FieldsOf(g)), FieldsOf(g), me, 0)
      ensures !FieldsOf(g)[Top(g, me)].expanded
    {
      if parent == null {
        Collapse(g, me);
      } else {
        CloseLine(g, me);
        assert g.path[me][0] in g.path[me][0..];
      }
    }

    /** The non-root branch of `collapse_all`: clear this node, then walk up the parent links clearing each. */
    method CloseLine(ghost g: Universe, ghost me: nat)
      requires Valid(g) && At(g, me) && parent != null
      modifies this`expanded, Line(g, me)`expanded
      ensures g.path[me] != []
      ensures forall x | 0 <= x < |g.nodes| ::
                g.nodes[x].expanded == if x == me || x in g.path[me] then false else old(g.nodes[x].expanded)
    {
      ghost var was := FieldsOf(g);
      Chain(g, me);
      expanded := false;
      var temp := parent;
      ghost var j: nat := |g.path[me]|;
      while temp != null
        invariant Climbing(g, me, was, j, temp) && old(Chained(g, me))
        decreases j
      {
        assert temp.parent == old(temp.parent);
        SuffixStep(g.path[me], j);
        temp.expanded := false;
        temp := temp.parent;
        j := j - 1;
      }
      assert g.path[me][j..] == g.path[me];
    }

    /** The first step of `collapse`: this node and its parent become collapsed. */
    method Shut(ghost g: Universe, ghost me: nat)
      requires Valid(g) && At(g, me)
      modifies this`expanded, Above()`expanded
      ensures Valid(g) && !expanded
      ensures g.path[me] != [] ==> !FieldsOf(g)[Last(g.path[me])].expanded
      ensures Only(g, old(FieldsOf(g)), FieldsOf(g), me, Closed, Up(g, me))
    {
      ParentUp(g, me);
      if parent == null {
        expanded := false;
      } else {
        expanded := false;
        parent.expanded := false;
      }
    }

    /** The loop of `collapse`: each child collapses in turn, which also clears this node again. */
    method CollapseChildren(ghost g: Universe, ghost me: nat)
      requires Valid(g) && At(g, me) && !expanded
      modifies Span(g, me)`expanded
      ensures Valid(g) && !expanded
      ensures HoldsDone(g, FieldsOf(g), me, |g.kids[me]|, Closed)
      ensures Only(g, old(FieldsOf(g)), FieldsOf(g), me, Closed, {})
      decreases g.height - |g.path[me]|, 0
    {
      ghost var s := FieldsOf(g);
      for i := 0 to |children|
        invariant Valid(g) && !expanded
        invariant HoldsDone(g, FieldsOf(g), me, i, Closed)
        invariant Only(g, s, FieldsOf(g), me, Closed, {})
      {
        ghost var s1 := FieldsOf(g);
        SpanWithin(g, me, i);
        ParentUp(g, g.kids[me][i]);
        children[i].Collapse(g, g.kids[me][i]);
        Step(g, s, s1, FieldsOf(g), me, i, Closed, {}, {me});
      }
    }

    /**
     * `update_rectangles(r)`: the empty tree is untouched, a leaf takes `r`,
     * and an internal node takes `r` and divides it among its children, which
     * lay themselves out in turn. Only rectangles change.
     */
    method UpdateRectangles(ghost g: Universe, ghost me: nat, r: Rect)
      requires Linked(g) && At(g, me) && LayoutOk(Model(g, FieldsOf(g), me), r)
      modifies Span(g, me)`rect
      ensures Linked(g)
      ensures name.Some? ==> rect == r
      ensures HoldsBelow(g, FieldsOf(g), me, Placed)
      ensures Only(g, old(FieldsOf(g)), FieldsOf(g), me, Placed, {})
      ensures Model(g, FieldsOf(g), me) == Layout(Model(g, old(FieldsOf(g)), me), r)
      decreases g.height - |g.path[me]|, 3
    {
      ghost var s := FieldsOf(g);
      if name.None? {
        Alone(g, me);
      } else if |children| == 0 {
        rect := r;
        Alone(g, me);
      } else {
        Divide(g, me, r);
      }
      PlacedIsLayout(g, s, FieldsOf(g), me, r);
    }

    /** The internal-node branch of `update_rectangles`: take `r`, split it along its longer side, lay out each child. */
    method Divide(ghost g: Universe, ghost me: nat, r: Rect)
      requires Linked(g) && At(g, me) && LayoutOk(Model(g, FieldsOf(g), me), r)
      requires name.Some? && |children| > 0
      modifies Span(g, me)`rect
      ensures Linked(g) && rect == r
      ensures HoldsBelow(g, FieldsOf(g), me, Placed)
      ensures Only(g, old(FieldsOf(g)), FieldsOf(g), me, Placed, {})
      decreases g.height - |g.path[me]|, 2
    {
      ghost var s := FieldsOf(g);
      rect := r;
      ghost var s1 := FieldsOf(g);
      assert forall y | 0 <= y < |g.nodes| && y != me :: s1[y] == s[y];
      PendingStart(g, s, s1, me);
      OnlyAt(g, s, s1, me, Placed);
      var rest;
      if r.height >= r.width {
        rest := PlaceHeight(g, me, s, r);
      } else {
        rest := PlaceWidth(g, me, s, r);
      }
      LayChild(g, me, s, s1, |children| - 1, r, rest);
      AllPlaced(g, s, s1, FieldsOf(g), me, r);
      Finish(g, s1, FieldsOf(g), FieldsOf(g), me, Placed, {});
      OnlyThen(g, s, s1, FieldsOf(g), me, Placed, {});
    }

    /**
     * The height branch of `update_rectangles`: children are stacked top to
     * bottom; a non-last child of size 0 gets an empty rectangle, any other its
     * proportional share of the height, and the last child whatever remains.
     */
    method PlaceHeight(ghost g: Universe, ghost me: nat, ghost s0: seq<Fields>, r: Rect) returns (rest: Rect)
      requires Linked(g) && At(g, me) && Covers(g, s0) && name.Some? && |children| > 0
      requires rect == r && dataSize == s0[me].size && r.height >= r.width
      requires LayoutOk(Model(g, s0, me), r) && Pending(g, s0, FieldsOf(g), me, 0)
      modifies Span(g, me)`rect
      ensures Linked(g) && FieldsOf(g)[me] == old(FieldsOf(g))[me]
      ensures Progress(g, s0, old(FieldsOf(g)), FieldsOf(g), me, |g.kids[me]| - 1, r)
      ensures rest == ChildRect(KidSizes(g, s0, me), s0[me].size, r, |g.kids[me]| - 1)
      decreases g.height - |g.path[me]|, 1
    {
      ghost var s := FieldsOf(g);
      ghost var sizes := KidSizes(g, s0, me);
      Ready(g, s0, s, me, r, 0);
      var x, y, width, height := r.x, r.y, r.width, r.height;
      var finalHeight := y + height;
      for i := 0 to |children| - 1
        invariant Placing(g, s0, s, me, i, r)
        invariant y == Cursor(sizes, dataSize, r, i)
      {
        HeightStep(sizes, dataSize, r, i);
        ChildSize(g, s0, s, me, i, r);
        var sub := children[i];
        var newHeight, cr;
        if sub.dataSize == 0 {
          newHeight := 0;
          cr := Rect(x, y, 0, 0);
        } else {
          newHeight := FloorDiv(sub.dataSize * height, dataSize);
          cr := Rect(x, y, width, newHeight);
        }
        LayChild(g, me, s0, s, i, r, cr);
        y := y + newHeight;
      }
      LastChildAbsorbs(sizes, dataSize, r);
      CursorAfterUsed(sizes, dataSize, r, |sizes| - 1);
      rest := Rect(x, y, width, finalHeight - y);
    }

    /**
     * The width branch of `update_rectangles`: children are laid out left to
     * right; while this node's size is 0 every non-last child gets an empty
     * rectangle, otherwise its proportional share of the width, and the last
     * child whatever remains.
     */
    method PlaceWidth(ghost g: Universe, ghost me: nat, ghost s0: seq<Fields>, r: Rect) returns (rest: Rect)
      requires Linked(g) && At(g, me) && Covers(g, s0) && name.Some? && |children| > 0
      requires rect == r && dataSize == s0[me].size && r.height < r.width
      requires LayoutOk(Model(g, s0, me), r) && Pending(g, s0, FieldsOf(g), me, 0)
      modifies Span(g, me)`rect
      ensures Linked(g) && FieldsOf(g)[me] == old(FieldsOf(g))[me]
      ensures Progress(g, s0, old(FieldsOf(g)), FieldsOf(g), me, |g.kids[me]| - 1, r)
      ensures rest == ChildRect(KidSizes(g, s0, me), s0[me].size, r, |g.kids[me]| - 1)
      decreases g.height - |g.path[me]|, 1
    {
      ghost var s := FieldsOf(g);
      ghost var sizes := KidSizes(g, s0, me);
      Ready(g, s0, s, me, r, 0);
      var x, y, width, height := r.x, r.y, r.width, r.height;
      var finalWidth := x + width;
      for i := 0 to |children| - 1
        invariant Placing(g, s0, s, me, i, r)
        invariant x == Cursor(sizes, dataSize, r, i)
      {
        WidthStep(sizes, dataSize, r, i);
        ChildSize(g, s0, s, me, i, r);
        var sub := children[i];
        var newWidth, cr;
        if dataSize == 0 {
          newWidth := 0;
          cr := Rect(x, y, 0, 0);
        } else {
          newWidth := FloorDiv(sub.dataSize * width, dataSize);
          cr := Rect(x, y, newWidth, height);
        }
        LayChild(g, me, s0, s, i, r, cr);
        x := x + newWidth;
      }
      LastChildAbsorbs(sizes, dataSize, r);
      CursorAfterUsed(sizes, dataSize, r, |sizes| - 1);
      rest := Rect(x, y, finalWidth - x, height);
    }

    /**
     * One child of `update_rectangles`' loops: child `i` lays itself out in
     * the rectangle `cr` the split hands it.
     */
    method LayChild(ghost g: Universe, ghost me: nat, ghost s0: seq<Fields>, ghost s1: seq<Fields>,
                    i: nat, r: Rect, cr: Rect)
      requires Linked(g) && At(g, me) && Covers(g, s0) && Covers(g, s1) && name.Some? && i < |children|
      requires LayoutOk(Model(g, s0, me), r) && Progress(g, s0, s1, FieldsOf(g), me, i, r)
      requires cr == ChildRect(KidSizes(g, s0, me), s0[me].size, r, i)
      modifies Span(g, me)`rect
      ensures Linked(g) && FieldsOf(g)[me] == old(FieldsOf(g))[me]
      ensures Progress(g, s0, s1, FieldsOf(g), me, i + 1, r)
      decreases g.height - |g.path[me]|, 0
    {
      ghost var s2 := FieldsOf(g);
      SpanWithin(g, me, i);
      Ready(g, s0, s2, me, r, i);
      children[i].UpdateRectangles(g, g.kids[me][i], cr);
      Advance(g, s0, s1, s2, FieldsOf(g), me, i, r);
    }

    /**
     * `get_rectangles`: the rectangle and colour of every shown node of
     * non-zero size in the displayed tree, left to right.
     */
    method GetRectangles(ghost g: Universe, ghost me: nat) returns (rs: seq<(Rect, Colour)>)
      requires Linked(g) && At(g, me)
      ensures rs == Flatten(Model(g, FieldsOf(g), me))
      decreases g.height - |g.path[me]|
    {
      ghost var m := Model(g, FieldsOf(g), me);
      if dataSize == 0 {
        rs := [];
      } else if !expanded {
        rs := [(rect, colour)];
      } else if |children| == 0 {
        rs := [(rect, colour)];
      } else {
        ModelKids(g, FieldsOf(g), me);
        rs := [];
        for i := 0 to |children|
          invariant rs + FlattenFrom(m, i) == FlattenFrom(m, 0)
        {
          KidAt(g, me, i);
          var sub := children[i].GetRectangles(g, g.kids[me][i]);
          rs := rs + sub;
        }
      }
    }

    /**
     * `get_tree_at_position(p)`: the node of the displayed tree whose
     * rectangle contains `p`, edges included, searching children in order;
     * `null` when there is none.
     */
    method GetTreeAtPosition(ghost g: Universe, ghost me: nat, p: Point) returns (r: Node?)
      requires Linked(g) && At(g, me)
      ensures Found(g, HitTest(Model(g, FieldsOf(g), me), p), r)
      decreases g.height - |g.path[me]|, 1
    {
      r := null;
      var x, y, width, height := rect.x, rect.y, rect.width, rect.height;
      if !expanded || |children| == 0 {
        if x <= p.x <= x + width && y <= p.y <= y + height {
          return this;
        }
      } else {
        r := HitKids(g, me, p);
      }
    }

    /** The loop of `get_tree_at_position`: the first child, in order, whose subtree answers. */
    method HitKids(ghost g: Universe, ghost me: nat, p: Point) returns (r: Node?)
      requires Linked(g) && At(g, me)
      ensures Found(g, HitFrom(Model(g, FieldsOf(g), me), p, 0), r)
      decreases g.height - |g.path[me]|, 0
    {
      ghost var m := Model(g, FieldsOf(g), me);
      ModelKids(g, FieldsOf(g), me);
      r := null;
      for i := 0 to |children|
        invariant r == null && HitFrom(m, p, i) == HitFrom(m, p, 0)
      {
        KidAt(g, me, i);
        r := children[i].GetTreeAtPosition(g, g.kids[me][i], p);
        if r != null {
          return;
        }
      }
    }

    /**
     * The suffix `get_path_string` appends: a leaf is a regular file and an
     * internal node a folder.
     */
    function Suffix(): (r: string)
      reads this
      ensures r == " (file)" || r == " (folder)"
      ensures r == " (file)" <==> children == []
    {
      if |children| == 0 then " (file)" else " (folder)"
    }

    /**
     * `get_path_string(final_node)`: the names from the root down to this
     * node, joined by the separator `sep`. A root adds the suffix only when
     * `finalNode`; any other node also adds it when it is a leaf.
     */
    function PathString(ghost g: Universe, ghost me: nat, sep: string, finalNode: bool): (r: string)
      requires Valid(g) && At(g, me) && name.Some?
      reads g.nodes
      ensures r == JoinPath(g, g.path[me] + [me], sep) +
                   (if finalNode || (g.path[me] != [] && children == []) then Suffix() else "")
      decreases |g.path[me]|
    {
      if parent == null then
        assert g.path[me] == [];
        name.value + (if finalNode then Suffix() else "")
      else
        ParentFacts(g, me);
        JoinStep(g, me, sep);
        parent.PathString(g, Last(g.path[me]), sep, false) + sep + name.value +
          (if finalNode || |children| == 0 then Suffix() else "")
    }

    /** The immediate parent, as a set: what `collapse` touches above the node. */
    function Above(): set<Node>
      reads this
    {
      if parent == null then {} else {parent}
    }
  }

  function Last<T>(s: seq<T>): T
    requires s != []
  {
    s[|s| - 1]
  }

  /** The sizes of a list of nodes, in order. */
  function SizesOf(cs: seq<Node>): (s: seq<int>)
    reads cs`dataSize
    ensures |s| == |cs| && forall i | 0 <= i < |s| :: s[i] == cs[i].dataSize
  {
    if cs == [] then [] else SizesOf(cs[..|cs| - 1]) + [cs[|cs| - 1].dataSize]
  }

  /**
   * Ghost bookkeeping for a forest of nodes, by index: the node objects, each
   * node's children as indices, the path of ancestors from its root down to
   * its parent, its position among its parent's children, and a bound on the
   * length of the paths.
   */
  datatype Universe = Universe(nodes: seq<Node>, id: Node -> nat, kids: seq<seq<nat>>,
                               path: seq<seq<nat>>, pos: seq<nat>, height: nat)

  /**
   * The recorded shape is a forest of distinct nodes: a child's path is its
   * parent's path followed by the parent, a node with a non-empty path is the
   * child of the last node on it at its recorded position, and only the
   * empty tree, which has no children, is unnamed.
   */
  ghost predicate Shaped(g: Universe) {
    && |g.kids| == |g.nodes| && |g.path| == |g.nodes| && |g.pos| == |g.nodes|
    && (forall x | 0 <= x < |g.nodes| :: g.id(g.nodes[x]) == x)
    && (forall x | 0 <= x < |g.nodes| ::
          |g.path[x]| <= g.height && (g.nodes[x].name.None? ==> g.kids[x] == []))
    && (forall x, k | 0 <= x < |g.nodes| && 0 <= k < |g.kids[x]| ::
          && g.kids[x][k] < |g.nodes| && g.path[g.kids[x][k]] == g.path[x] + [x]
          && g.pos[g.kids[x][k]] == k && g.nodes[g.kids[x][k]].name.Some?)
    && (forall x {:trigger Last(g.path[x])} | 0 <= x < |g.nodes| && g.path[x] != [] ::
          && Last(g.path[x]) < |g.nodes| && g.pos[x] < |g.kids[Last(g.path[x])]|
          && g.kids[Last(g.path[x])][g.pos[x]] == x)
  }

  /** Every node of `g` sits at exactly one index. */
  ghost predicate Indexed(g: Universe) {
    forall x | 0 <= x < |g.nodes| :: g.id(g.nodes[x]) == x
  }

  /** The heap's children lists are the recorded shape. */
  ghost predicate Linked(g: Universe)
    reads g.nodes`children
  {
    && Shaped(g)
    && (forall x {:trigger g.nodes[x].children} | 0 <= x < |g.nodes| :: |g.nodes[x].children| == |g.kids[x]|)
    && (forall x, k {:trigger g.nodes[x].children[k]} | 0 <= x < |g.nodes| && 0 <= k < |g.kids[x]| ::
          g.nodes[x].children[k] == g.nodes[g.kids[x][k]])
  }

  /** Parent links point at the last node of the path, and roots have none. */
  ghost predicate Parented(g: Universe)
    reads g.nodes`parent
  {
    Shaped(g) &&
    forall x {:trigger g.nodes[x].parent} | 0 <= x < |g.nodes| ::
      g.nodes[x].parent == (if g.path[x] == [] then null else g.nodes[Last(g.path[x])])
  }

  /** The representation invariant on links: children lists and parent links agree with the recorded shape. */
  ghost predicate Valid(g: Universe)
    reads g.nodes`children, g.nodes`parent
  {
    Linked(g) && Parented(g)
  }

  /** `x` is `n` or lies below it. */
  ghost predicate Under(g: Universe, x: nat, n: nat)
    requires Shaped(g) && x < |g.nodes| && n < |g.nodes|
  {
    x == n || (|g.path[n]| < |g.path[x]| && g.path[x][|g.path[n]|] == n)
  }

  /** The index of the parent of `n`, as a set: empty for a root. */
  ghost function Up(g: Universe, n: nat): set<nat>
    requires Shaped(g) && n < |g.nodes|
  {
    if g.path[n] == [] then {} else {Last(g.path[n])}
  }

  /** The strict ancestors of `n`. */
  ghost function Line(g: Universe, n: nat): set<Node>
    requires Shaped(g) && n < |g.nodes|
  {
    set d | 0 <= d < |g.path[n]| && g.path[n][d] < |g.nodes| :: g.nodes[g.path[n][d]]
  }

  /** The root of the tree `n` belongs to. */
  ghost function Top(g: Universe, n: nat): (t: nat)
    requires Shaped(g) && n < |g.nodes|
    ensures t < |g.nodes|
  {
    if g.path[n] == [] then n else Ancestor(g, n, 0); g.path[n][0]
  }

  /**
   * The loop of `collapse_all` has cleared `n` and its ancestors from depth
   * `j` down, `temp` is the ancestor at depth `j - 1` (null once past the
   * root), and every other flag is as it was.
   */
  ghost predicate Climbing(g: Universe, n: nat, was: seq<Fields>, j: nat, temp: Node?)
    reads g.nodes`expanded
  {
    && Shaped(g) && n < |g.nodes| && |was| == |g.nodes| && j <= |g.path[n]|
    && (forall d | 0 <= d < |g.path[n]| :: g.path[n][d] < |g.nodes|)
    && temp == (if j == 0 then null else g.nodes[g.path[n][j - 1]])
    && forall x | 0 <= x < |g.nodes| ::
         g.nodes[x].expanded == if x == n || x in g.path[n][j..] then false else was[x].expanded
  }

  /** The suffix from `j - 1` holds the element at `j - 1` and the suffix from `j`. */
  lemma SuffixStep(p: seq<nat>, j: nat)
    requires 0 < j <= |p|
    ensures forall x :: x in p[j - 1..] <==> x == p[j - 1] || x in p[j..]
  {
    assert p[j - 1..] == [p[j - 1]] + p[j..];
  }

  /** Along the path of `n`, each ancestor's parent link points at the one above it, and the root's is null. */
  ghost predicate Chained(g: Universe, n: nat)
    reads g.nodes`parent
  {
    && Shaped(g) && n < |g.nodes|
    && (forall d | 0 <= d < |g.path[n]| :: g.path[n][d] < |g.nodes|)
    && (forall d | 0 <= d < |g.path[n]| ::
          g.nodes[g.path[n][d]].parent == if d == 0 then null else g.nodes[g.path[n][d - 1]])
  }

  lemma Chain(g: Universe, n: nat)
    requires Valid(g) && n < |g.nodes|
    ensures Chained(g, n)
  {
    forall d | 0 <= d < |g.path[n]|
      ensures g.path[n][d] < |g.nodes| && g.path[g.path[n][d]] == g.path[n][..d]
    {
      Ancestor(g, n, d);
    }
    forall d | 0 <= d < |g.path[n]|
      ensures g.nodes[g.path[n][d]].parent == if d == 0 then null else g.nodes[g.path[n][d - 1]]
    {
      var a := g.path[n][d];
      assert g.nodes[a].parent == if g.path[a] == [] then null else g.nodes[Last(g.path[a])];
    }
  }

  /**
   * From `s0` to `st`, this node and its ancestors from depth `j` down have
   * had their flag cleared, and nothing else has changed.
   */
  ghost predicate Cleared(g: Universe, s0: seq<Fields>, st: seq<Fields>, n: nat, j: nat)
    requires Covers(g, s0) && Covers(g, st) && n < |g.nodes| && j <= |g.path[n]|
  {
    forall x | 0 <= x < |g.nodes| ::
      st[x] == if x == n || x in g.path[n][j..] then s0[x].(expanded := false) else s0[x]
  }

  /** The nodes of `n`'s subtree. */
  ghost function Span(g: Universe, n: nat): set<Node>
    requires Shaped(g) && n < |g.nodes|
  {
    set x | 0 <= x < |g.nodes| && Under(g, x, n) :: g.nodes[x]
  }

  /** The internal nodes of `n`'s subtree: the only ones whose size is recomputed or that get expanded. */
  ghost function Internal(g: Universe, n: nat): set<Node>
    requires Shaped(g) && n < |g.nodes|
  {
    set x | 0 <= x < |g.nodes| && Under(g, x, n) && g.kids[x] != [] :: g.nodes[x]
  }

  /** Every ancestor on a node's path has the path up to it as its own path. */
  lemma {:induction false} Ancestor(g: Universe, x: nat, d: nat)
    requires Shaped(g) && x < |g.nodes| && d < |g.path[x]|
    ensures g.path[x][d] < |g.nodes| && g.path[g.path[x][d]] == g.path[x][..d]
    decreases |g.path[x]|
  {
    var p := Last(g.path[x]);
    assert g.kids[p][g.pos[x]] == x;
    if d < |g.path[x]| - 1 {
      Ancestor(g, p, d);
      assert g.path[x][..d] == g.path[p][..d];
    }
  }

  /** A child lies below its parent, and so does everything below the child; the parent does not lie below it. */
  lemma UnderKid(g: Universe, n: nat, i: nat)
    requires Shaped(g) && n < |g.nodes| && i < |g.kids[n]|
    ensures forall x | 0 <= x < |g.nodes| && Under(g, x, g.kids[n][i]) :: Under(g, x, n) && x != n
  {
    var c := g.kids[n][i];
    forall x | 0 <= x < |g.nodes| && Under(g, x, c) ensures Under(g, x, n) && x != n {
      if x != c {
        Ancestor(g, x, |g.path[c]|);
      }
    }
  }

  /** The subtrees of two different children are disjoint. */
  lemma Apart(g: Universe, n: nat, i: nat, j: nat, x: nat)
    requires Shaped(g) && n < |g.nodes| && i < |g.kids[n]| && j < |g.kids[n]| && x < |g.nodes|
    requires Under(g, x, g.kids[n][i]) && Under(g, x, g.kids[n][j])
    ensures i == j
  {
  }

  /** A node strictly below `n` lies below one of `n`'s children. */
  lemma Branch(g: Universe, n: nat, x: nat) returns (k: nat)
    requires Shaped(g) && n < |g.nodes| && x < |g.nodes| && Under(g, x, n) && x != n
    ensures k < |g.kids[n]| && Under(g, x, g.kids[n][k])
  {
    var d := |g.path[n]|;
    if |g.path[x]| == d + 1 {
      assert Last(g.path[x]) == n;
      k := g.pos[x];
    } else {
      var c := g.path[x][d + 1];
      Ancestor(g, x, d + 1);
      assert Last(g.path[c]) == n;
      k := g.pos[c];
    }
  }

  /** The children of a node below `c` are below `c` too. */
  lemma KidsUnder(g: Universe, c: nat, x: nat)
    requires Shaped(g) && c < |g.nodes| && x < |g.nodes| && Under(g, x, c)
    ensures forall j | 0 <= j < |g.kids[x]| :: Under(g, g.kids[x][j], c)
  {
  }

  /** A leaf is alone in its subtree. */
  lemma Alone(g: Universe, n: nat)
    requires Shaped(g) && n < |g.nodes| && g.kids[n] == []
    ensures forall x | 0 <= x < |g.nodes| && Under(g, x, n) :: x == n
  {
    forall x | 0 <= x < |g.nodes| && Under(g, x, n) ensures x == n {
      if x != n {
        var k := Branch(g, n, x);
      }
    }
  }

  /** A child's subtree, and its internal nodes, lie within its parent's. */
  lemma SpanWithin(g: Universe, n: nat, i: nat)
    requires Shaped(g) && n < |g.nodes| && i < |g.kids[n]|
    ensures Span(g, g.kids[n][i]) <= Span(g, n) && Internal(g, g.kids[n][i]) <= Internal(g, n)
    ensures g.nodes[n] in Span(g, n)
  {
    UnderKid(g, n, i);
  }

  /** Child `i` of node `n` is a node one level deeper, and it is the object in `n`'s children list. */
  lemma KidAt(g: Universe, n: nat, i: nat)
    requires Linked(g) && n < |g.nodes| && i < |g.kids[n]|
    ensures g.kids[n][i] < |g.nodes| && g.nodes[n].children[i] == g.nodes[g.kids[n][i]]
    ensures |g.path[n]| < |g.path[g.kids[n][i]]| <= g.height
  {
  }

  /** The node a hit test on the value tree found, if any, is the object `r`. */
  ghost predicate Found(g: Universe, h: Option<Tree<nat>>, r: Node?) {
    && (h.None? ==> r == null)
    && (h.Some? ==> h.value.id < |g.nodes| && r == g.nodes[h.value.id])
  }

  /** A node's parent is the last node on its path, which lies outside the node's subtree. */
  lemma ParentUp(g: Universe, n: nat)
    requires Shaped(g) && n < |g.nodes|
    ensures g.path[n] != [] ==>
              var p := Last(g.path[n]);
              && p < |g.nodes| && g.path[n] == g.path[p] + [p] && g.kids[p][g.pos[n]] == n
              && forall x | 0 <= x < |g.nodes| && Under(g, x, n) :: x != p
  {
  }

  /** The name of node `x`, or the empty string when it has none. */
  ghost function NameOf(g: Universe, x: nat): string {
    if x < |g.nodes| && g.nodes[x].name.Some? then g.nodes[x].name.value else ""
  }

  /** Independent reference for the path string: the names of a list of nodes, joined by the separator. */
  ghost function JoinPath(g: Universe, ids: seq<nat>, sep: string): string
    requires ids != []
  {
    if |ids| == 1 then NameOf(g, ids[0])
    else JoinPath(g, ids[..|ids| - 1], sep) + sep + NameOf(g, ids[|ids| - 1])
  }

  /** One level of the reference: the joined names of a path end with the separator and the last name. */
  lemma JoinStep(g: Universe, n: nat, sep: string)
    requires Shaped(g) && n < |g.nodes| && g.path[n] != []
    ensures Last(g.path[n]) < |g.nodes|
    ensures JoinPath(g, g.path[n] + [n], sep) ==
              JoinPath(g, g.path[Last(g.path[n])] + [Last(g.path[n])], sep) + sep + NameOf(g, n)
  {
    var p := Last(g.path[n]);
    assert (g.path[n] + [n])[..|g.path[n]|] == g.path[n] == g.path[p] + [p];
  }

  /** The parent of a non-root node is a named node with children, and the node's parent link points at it. */
  lemma ParentFacts(g: Universe, n: nat)
    requires Valid(g) && n < |g.nodes| && g.path[n] != []
    ensures Last(g.path[n]) < |g.nodes|
    ensures g.nodes[n].parent == g.nodes[Last(g.path[n])]
    ensures g.nodes[Last(g.path[n])].name.Some? && g.nodes[Last(g.path[n])].children != []
  {
    var p := Last(g.path[n]);
    assert g.kids[p][g.pos[n]] == n;
    assert |g.nodes[p].children| == |g.kids[p]|;
  }

  /** Joined names begin with the first name. */
  lemma {:induction false} JoinStarts(g: Universe, ids: seq<nat>, sep: string)
    requires ids != []
    ensures |NameOf(g, ids[0])| <= |JoinPath(g, ids, sep)|
    ensures JoinPath(g, ids, sep)[..|NameOf(g, ids[0])|] == NameOf(g, ids[0])
    decreases |ids|
  {
    if |ids| > 1 {
      var init := ids[..|ids| - 1];
      JoinStarts(g, init, sep);
      var j := JoinPath(g, init, sep);
      assert JoinPath(g, ids, sep) == j + (sep + NameOf(g, ids[|ids| - 1]));
    }
  }

  /**
   * How a path string begins and ends: it starts with the name of the
   * node's root; a leaf below a root ends in `" (file)"`, an internal node
   * asked for its final form ends in `" (folder)"`, and any other node's
   * string is exactly the joined names.
   */
  lemma PathStringEnds(g: Universe, n: nat, sep: string, finalNode: bool)
    requires Valid(g) && n < |g.nodes| && g.nodes[n].name.Some?
    ensures var s := g.nodes[n].PathString(g, n, sep, finalNode); var root := NameOf(g, Top(g, n));
            && |root| <= |s| && s[..|root|] == root
            && (g.nodes[n].children == [] && (finalNode || g.path[n] != []) ==>
                  |s| >= 7 && s[|s| - 7..] == " (file)")
            && (g.nodes[n].children != [] && finalNode ==> |s| >= 9 && s[|s| - 9..] == " (folder)")
            && (!finalNode && (g.nodes[n].children != [] || g.path[n] == []) ==>
                  s == JoinPath(g, g.path[n] + [n], sep))
  {
    var ids := g.path[n] + [n];
    JoinStarts(g, ids, sep);
    assert ids[0] == Top(g, n);
  }

  /** The position of the first occurrence of `v` in `s`. */
  function IndexOf<T(==)>(s: seq<T>, v: T): (i: nat)
    requires v in s
    ensures i < |s| && s[i] == v && v !in s[..i]
  {
    if s[0] == v then 0
    else
      var j := IndexOf(s[1..], v);
      assert s[..j + 1] == [s[0]] + s[1..][..j];
      j + 1
  }

  /** `s` without its element at `i`. */
  function Drop<T>(s: seq<T>, i: nat): (r: seq<T>)
    requires i < |s|
    ensures |r| == |s| - 1
    ensures forall k | 0 <= k < |r| :: r[k] == if k < i then s[k] else s[k + 1]
  {
    s[..i] + s[i + 1..]
  }

  /** `list.remove(v)`: the list without the first occurrence of `v`, everything else in order. */
  function RemoveFirst<T(==)>(s: seq<T>, v: T): (r: seq<T>)
    requires v in s
    ensures multiset(r) == multiset(s) - multiset{v}
  {
    var i := IndexOf(s, v);
    assert s == s[..i] + [v] + s[i + 1..];
    Drop(s, i)
  }

  /** The first occurrence of `v` is the position `i` that holds it with no `v` before it. */
  lemma {:induction false} IndexOfAt<T>(s: seq<T>, v: T, i: nat)
    requires i < |s| && s[i] == v && v !in s[..i]
    ensures IndexOf(s, v) == i
    decreases i
  {
    if i > 0 {
      assert s[0] == s[..i][0];
      assert s[1..][..i - 1] == s[..i][1..];
      IndexOfAt(s[1..], v, i - 1);
    }
  }

  /** Removing the first occurrence of `v` drops the position where it first appears. */
  lemma RemoveAt<T>(s: seq<T>, v: T, i: nat)
    requires i < |s| && s[i] == v && v !in s[..i]
    ensures RemoveFirst(s, v) == Drop(s, i)
  {
    IndexOfAt(s, v, i);
  }

  /** Every children list of the universe, as values. */
  ghost function ChildrenOf(g: Universe): (cs: seq<seq<Node>>)
    reads g.nodes`children
    ensures |cs| == |g.nodes| && forall x | 0 <= x < |g.nodes| :: cs[x] == g.nodes[x].children
  {
    ChildrenAt(g.nodes)
  }

  /** The children list of each node of a list, in order. */
  ghost function ChildrenAt(ns: seq<Node>): (cs: seq<seq<Node>>)
    reads ns`children
    ensures |cs| == |ns| && forall x | 0 <= x < |ns| :: cs[x] == ns[x].children
  {
    if ns == [] then [] else ChildrenAt(ns[..|ns| - 1]) + [ns[|ns| - 1].children]
  }

  /** The lists `cs` hold the recorded shape. */
  ghost predicate LinkedTo(g: Universe, cs: seq<seq<Node>>) {
    && Shaped(g) && |cs| == |g.nodes|
    && (forall x | 0 <= x < |g.nodes| :: |cs[x]| == |g.kids[x]|)
    && (forall x, k | 0 <= x < |g.nodes| && 0 <= k < |g.kids[x]| :: cs[x][k] == g.nodes[g.kids[x][k]])
  }

  lemma LinkedBy(g: Universe, cs: seq<seq<Node>>)
    requires LinkedTo(g, cs) && ChildrenOf(g) == cs
    ensures Linked(g)
  {
  }

  /** A snapshot of every parent link. */
  ghost function ParentsOf(g: Universe): (ps: seq<Node?>)
    reads g.nodes`parent
    ensures |ps| == |g.nodes| && forall x | 0 <= x < |g.nodes| :: ps[x] == g.nodes[x].parent
  {
    ParentsAt(g.nodes)
  }

  /** The parent link of each node of a list, in order. */
  ghost function ParentsAt(ns: seq<Node>): (ps: seq<Node?>)
    reads ns`parent
    ensures |ps| == |ns| && forall x | 0 <= x < |ns| :: ps[x] == ns[x].parent
  {
    if ns == [] then [] else ParentsAt(ns[..|ns| - 1]) + [ns[|ns| - 1].parent]
  }

  /** The parent links `ps` agree with the recorded shape. */
  ghost predicate ParentedTo(g: Universe, ps: seq<Node?>) {
    && Shaped(g) && |ps| == |g.nodes|
    && forall x | 0 <= x < |g.nodes| :: ps[x] == (if g.path[x] == [] then null else g.nodes[Last(g.path[x])])
  }

  lemma ParentedHas(g: Universe)
    requires Parented(g)
    ensures ParentedTo(g, ParentsOf(g))
  {
  }

  lemma ParentedBy(g: Universe, ps: seq<Node?>)
    requires ParentedTo(g, ps) && ParentsOf(g) == ps
    ensures Parented(g)
  {
  }

  /** After a move out of a parent, the old links with `n`'s link turned to `d` fit the moved shape. */
  lemma MovedParented(g: Universe, n: nat, d: nat, ps: seq<Node?>)
    requires ParentedTo(g, ps) && Movable(g, n, d) && g.path[n] != []
    ensures ParentedTo(Moved(g, n, d), ps[n := g.nodes[d]])
  {
    var g2 := Moved(g, n, d);
    MovedShaped(g, n, d);
  }

  /** `n` and `x` have the same parent. */
  ghost predicate Sibling(g: Universe, n: nat, x: nat)
    requires Shaped(g) && n < |g.nodes| && x < |g.nodes|
  {
    g.path[n] != [] && g.path[x] != [] && Last(g.path[x]) == Last(g.path[n])
  }

  /** The position of `x` once `n` has moved to position `last` of its new parent. */
  ghost function Shift(g: Universe, n: nat, x: nat, last: nat): nat
    requires Shaped(g) && n < |g.nodes| && x < |g.nodes|
  {
    if x == n then last
    else if Sibling(g, n, x) && g.pos[x] > g.pos[n] then g.pos[x] - 1
    else g.pos[x]
  }

  /**
   * The children lists after leaf `n` moves to the end of `d`'s list: it is
   * appended there first and then dropped from its old parent's list, whose
   * later children move up one place.
   */
  ghost function MovedKids(g: Universe, n: nat, d: nat): (k2: seq<seq<nat>>)
    requires Shaped(g) && n < |g.nodes| && d < |g.nodes|
    ensures |k2| == |g.nodes|
    ensures forall x | 0 <= x < |g.nodes| && x != d && !(g.path[n] != [] && x == Last(g.path[n])) ::
              k2[x] == g.kids[x]
  {
    var k1 := g.kids[d := g.kids[d] + [n]];
    if g.path[n] == [] then k1
    else k1[Last(g.path[n]) := Drop(k1[Last(g.path[n])], g.pos[n])]
  }

  /** The shape after the move: the new children lists and positions, and `n`'s path becomes `d`'s path followed by `d`. */
  ghost function Moved(g: Universe, n: nat, d: nat): (g2: Universe)
    requires Shaped(g) && n < |g.nodes| && d < |g.nodes|
    ensures g2.nodes == g.nodes
  {
    var k2 := MovedKids(g, n, d);
    Universe(g.nodes, g.id, k2, g.path[n := g.path[d] + [d]],
             seq(|g.nodes|, (x: int) requires 0 <= x < |g.nodes| => Shift(g, n, x, |k2[d]| - 1)), g.height + 1)
  }

  /** The children lists after `move`'s append to `d` and removal from `n`'s parent. */
  ghost function Rewired(g: Universe, n: nat, d: nat, cs: seq<seq<Node>>): seq<seq<Node>>
    requires LinkedTo(g, cs) && n < |g.nodes| && d < |g.nodes|
  {
    var c1 := cs[d := cs[d] + [g.nodes[n]]];
    if g.path[n] == [] then c1
    else
      var p := Last(g.path[n]);
      assert c1[p][g.pos[n]] == g.nodes[n];
      c1[p := RemoveFirst(c1[p], g.nodes[n])]
  }

  /** The preconditions of a move that the source guards: a named leaf moving under a named node other than itself. */
  ghost predicate Movable(g: Universe, n: nat, d: nat) {
    && Shaped(g) && n < |g.nodes| && d < |g.nodes| && n != d && g.kids[n] == []
    && g.nodes[n].name.Some? && g.nodes[d].name.Some?
  }

  /** Child `k` of `x` after the move is the moved leaf under `d`, or a child `x` had before, one place later past the gap. */
  lemma MovedKid(g: Universe, n: nat, d: nat, x: nat, k: nat)
    requires Movable(g, n, d) && x < |g.nodes| && k < |Moved(g, n, d).kids[x]|
    ensures var c := Moved(g, n, d).kids[x][k];
            && c < |g.nodes| && Moved(g, n, d).path[c] == Moved(g, n, d).path[x] + [x]
            && Moved(g, n, d).pos[c] == k && g.nodes[c].name.Some?
  {
    var g2 := Moved(g, n, d);
    var ext := if x == d then g.kids[x] + [n] else g.kids[x];
    var dropped := g.path[n] != [] && x == Last(g.path[n]);
    var k' := if dropped && k >= g.pos[n] then k + 1 else k;
    assert k' < |ext| && g2.kids[x][k] == ext[k'];
    assert x != n by {
      assert g2.kids[n] == [];
    }
    if k' == |g.kids[x]| {
      assert g2.kids[x][k] == n && x == d;
    } else {
      var c := g.kids[x][k'];
      assert g2.kids[x][k] == c;
      assert g.pos[c] == k' && g.path[c] == g.path[x] + [x];
      if dropped {
        assert c != n;
        assert Sibling(g, n, c);
      } else {
        assert !Sibling(g, n, c);
      }
    }
  }

  /** After the move, a non-root node is still found at its recorded position in its parent's list. */
  lemma MovedParent(g: Universe, n: nat, d: nat, x: nat)
    requires Movable(g, n, d) && x < |g.nodes| && Moved(g, n, d).path[x] != []
    ensures var g2 := Moved(g, n, d);
            Last(g2.path[x]) < |g.nodes| && g2.pos[x] < |g2.kids[Last(g2.path[x])]|
            && g2.kids[Last(g2.path[x])][g2.pos[x]] == x
  {
    var g2 := Moved(g, n, d);
    if x != n {
      var q := Last(g.path[x]);
      var ext := if q == d then g.kids[q] + [n] else g.kids[q];
      assert g2.path[x] == g.path[x];
      assert g.kids[q][g.pos[x]] == x && ext[g.pos[x]] == x;
      if Sibling(g, n, x) {
        assert g.kids[q][g.pos[n]] == n;
        assert g.pos[x] != g.pos[n];
        assert g2.kids[q] == Drop(ext, g.pos[n]);
      } else {
        assert g2.kids[q] == ext;
      }
    }
  }

  /** Moving a named leaf under a named node that is not itself keeps the shape a forest. */
  lemma MovedShaped(g: Universe, n: nat, d: nat)
    requires Movable(g, n, d)
    ensures Shaped(Moved(g, n, d))
    ensures Moved(g, n, d).kids[n] == [] && Moved(g, n, d).path[n] == g.path[d] + [d]
    ensures forall x | 0 <= x < |g.nodes| && x != n :: Moved(g, n, d).path[x] == g.path[x]
  {
    var g2 := Moved(g, n, d);
    forall x, k | 0 <= x < |g.nodes| && 0 <= k < |g2.kids[x]|
      ensures && g2.kids[x][k] < |g.nodes| && g2.path[g2.kids[x][k]] == g2.path[x] + [x]
              && g2.pos[g2.kids[x][k]] == k && g.nodes[g2.kids[x][k]].name.Some?
    {
      MovedKid(g, n, d, x, k);
    }
    forall x | 0 <= x < |g.nodes| && g2.path[x] != []
      ensures Last(g2.path[x]) < |g.nodes| && g2.pos[x] < |g2.kids[Last(g2.path[x])]|
              && g2.kids[Last(g2.path[x])][g2.pos[x]] == x
    {
      MovedParent(g, n, d, x);
    }
  }

  /** The node list `c` holds the nodes with indices `ks`, in order. */
  ghost predicate Names(g: Universe, c: seq<Node>, ks: seq<nat>) {
    |c| == |ks| && forall k | 0 <= k < |ks| :: ks[k] < |g.nodes| && c[k] == g.nodes[ks[k]]
  }

  /** Dropping the same position from both lists keeps them matched. */
  lemma NamesDrop(g: Universe, c: seq<Node>, ks: seq<nat>, i: nat)
    requires Names(g, c, ks) && i < |ks|
    ensures Names(g, Drop(c, i), Drop(ks, i))
  {
  }

  /** The list of `x` after the move holds `x`'s children in the moved shape. */
  lemma MovedList(g: Universe, n: nat, d: nat, cs: seq<seq<Node>>, x: nat)
    requires LinkedTo(g, cs) && Movable(g, n, d) && x < |g.nodes|
    ensures Names(g, Rewired(g, n, d, cs)[x], Moved(g, n, d).kids[x])
  {
    var c1 := cs[d := cs[d] + [g.nodes[n]]];
    var ext := if x == d then g.kids[x] + [n] else g.kids[x];
    assert Names(g, c1[x], ext);
    if g.path[n] != [] && x == Last(g.path[n]) {
      forall j | 0 <= j < g.pos[n] ensures c1[x][j] != g.nodes[n] {
        assert g.pos[g.kids[x][j]] == j;
      }
      assert g.nodes[n] !in c1[x][..g.pos[n]];
      RemoveAt(c1[x], g.nodes[n], g.pos[n]);
      NamesDrop(g, c1[x], ext, g.pos[n]);
    }
  }

  /** After the move the new lists hold the moved shape. */
  lemma MovedLinked(g: Universe, n: nat, d: nat, cs: seq<seq<Node>>)
    requires LinkedTo(g, cs) && Movable(g, n, d)
    ensures LinkedTo(Moved(g, n, d), Rewired(g, n, d, cs))
  {
    MovedShaped(g, n, d);
    forall x | 0 <= x < |g.nodes| ensures Names(g, Rewired(g, n, d, cs)[x], Moved(g, n, d).kids[x]) {
      MovedList(g, n, d, cs, x);
    }
  }

  /** The nodes of `n`'s old parent's subtree, or none for a root. */
  ghost function Family(g: Universe, n: nat): set<Node>
    requires Shaped(g) && n < |g.nodes|
  {
    if g.path[n] == [] then {} else Span(g, Last(g.path[n]))
  }

  /** The internal nodes below `x` after the move were already below `x` before it. */
  lemma MovedInternal(g: Universe, n: nat, d: nat, x: nat)
    requires Movable(g, n, d) && x < |g.nodes| && x != n
    ensures Shaped(Moved(g, n, d)) && Internal(Moved(g, n, d), x) <= Span(g, x) && g.nodes[x] in Span(g, x)
  {
    MovedShaped(g, n, d);
  }

  /** `st` with the size of `p` set to 0 when `p` has no children. */
  ghost function Emptied(g: Universe, p: nat, st: seq<Fields>): (r: seq<Fields>)
    requires Covers(g, st) && p < |g.nodes|
    ensures |r| == |st|
    ensures forall x | 0 <= x < |st| :: r[x] == if x == p && g.kids[p] == [] then st[x].(size := 0) else st[x]
  {
    if g.kids[p] == [] then st[p := st[p].(size := 0)] else st
  }

  /** The nodes whose size `move` recomputes: the old parent and the internal nodes below it and below `d`. */
  ghost function Resized(g: Universe, n: nat, d: nat): set<Node>
    requires Shaped(g) && n < |g.nodes| && d < |g.nodes| && Shaped(Moved(g, n, d))
  {
    var g2 := Moved(g, n, d);
    Internal(g2, d) + if g.path[n] == [] || Last(g.path[n]) >= |g.nodes| then {}
                      else {g.nodes[Last(g.path[n])]} + Internal(g2, Last(g.path[n]))
  }

  /** The sizes the re-summing of `move` starts from: an old parent left with no children has size 0. */
  ghost function Vacated(g: Universe, n: nat, d: nat, st: seq<Fields>): (r: seq<Fields>)
    requires Movable(g, n, d) && |st| == |g.nodes|
    ensures |r| == |st|
    ensures forall x | 0 <= x < |st| :: r[x].expanded == st[x].expanded && r[x].rect == st[x].rect
  {
    MovedShaped(g, n, d);
    if g.path[n] == [] then st else Emptied(Moved(g, n, d), Last(g.path[n]), st)
  }

  /** From `s0` to `s1` the subtree of `n` was re-summed: it is summed, only sizes of internal nodes changed, and nothing outside it. */
  ghost predicate Refreshed(g: Universe, s0: seq<Fields>, s1: seq<Fields>, n: nat)
    requires Covers(g, s0) && Covers(g, s1) && n < |g.nodes|
  {
    && HoldsBelow(g, s1, n, Summed) && Resummed(g, s0, s1)
    && forall x | 0 <= x < |g.nodes| && !Under(g, x, n) :: s1[x] == s0[x]
  }

  /** From `s0` to `s1` only the sizes of internal nodes changed. */
  ghost predicate Resummed(g: Universe, s0: seq<Fields>, s1: seq<Fields>)
    requires Covers(g, s0) && Covers(g, s1)
  {
    forall x | 0 <= x < |g.nodes| :: Allowed(g, x, s0[x], s1[x], Summed)
  }

  /**
   * After `move`, no node's flag or rectangle changed, and every node outside
   * the subtrees of the destination and of the old parent kept its size.
   */
  ghost predicate Settled(g: Universe, n: nat, d: nat, s0: seq<Fields>, s1: seq<Fields>)
    requires Shaped(g) && n < |g.nodes| && d < |g.nodes| && |s0| == |g.nodes| && |s1| == |g.nodes|
    requires Shaped(Moved(g, n, d))
  {
    var g2 := Moved(g, n, d);
    forall x | 0 <= x < |g.nodes| ::
      && s1[x].expanded == s0[x].expanded && s1[x].rect == s0[x].rect
      && (!Under(g2, x, d) && !(g.path[n] != [] && Under(g2, x, Last(g.path[n]))) ==> s1[x] == s0[x])
  }

  /**
   * The sizes of `move` from `s0` to `s1`: the destination's subtree, and the
   * old parent's when there is one, are their trees over the vacated sizes
   * re-summed, and nothing else changed but sizes inside those two subtrees.
   */
  ghost predicate Resettled(g: Universe, n: nat, d: nat, s0: seq<Fields>, s1: seq<Fields>)
    requires Movable(g, n, d) && |s0| == |g.nodes| && |s1| == |g.nodes|
  {
    MovedShaped(g, n, d);
    && Model(Moved(g, n, d), s1, d) == Recompute(Model(Moved(g, n, d), Vacated(g, n, d, s0), d))
    && (g.path[n] != [] ==>
          Model(Moved(g, n, d), s1, Last(g.path[n])) ==
          Recompute(Model(Moved(g, n, d), Vacated(g, n, d, s0), Last(g.path[n]))))
    && Settled(g, n, d, s0, s1)
  }

  /**
   * The old parent's step of `move` from `s0` to `mid`: nothing changes for a
   * root; otherwise the old parent's subtree is summed, its sizes changed only
   * from `s0` with an emptied parent at 0, and nothing outside it changed.
   */
  ghost predicate ParentDone(g: Universe, n: nat, d: nat, s0: seq<Fields>, mid: seq<Fields>)
    requires Movable(g, n, d) && Shaped(Moved(g, n, d)) && |s0| == |g.nodes| && |mid| == |g.nodes|
  {
    var g2 := Moved(g, n, d);
    && (g.path[n] == [] ==> mid == s0)
    && (g.path[n] != [] ==> Refreshed(g2, Emptied(g2, Last(g.path[n]), s0), mid, Last(g.path[n])))
  }

  /**
   * What the re-summing steps of `move` leave behind, from `s0` before the
   * move through `mid` after the old parent's step to `fin`: both the
   * destination's and the old parent's subtrees hold their recomputed sizes,
   * and nothing else changed but sizes inside those two subtrees.
   */
  lemma MoveSums(g: Universe, n: nat, d: nat, s0: seq<Fields>, mid: seq<Fields>, fin: seq<Fields>)
    requires Movable(g, n, d) && |s0| == |g.nodes| && |mid| == |g.nodes| && |fin| == |g.nodes|
    requires Shaped(Moved(g, n, d))
    requires ParentDone(g, n, d, s0, mid)
    requires Refreshed(Moved(g, n, d), mid, fin, d)
    ensures Model(Moved(g, n, d), fin, d) == Recompute(Model(Moved(g, n, d), Vacated(g, n, d, s0), d))
    ensures g.path[n] != [] ==>
              Model(Moved(g, n, d), fin, Last(g.path[n])) ==
              Recompute(Model(Moved(g, n, d), Vacated(g, n, d, s0), Last(g.path[n])))
    ensures Settled(g, n, d, s0, fin)
  {
    var g2 := Moved(g, n, d);
    var sv := Vacated(g, n, d, s0);
    DestSums(g2, sv, mid, fin, d);
    if g.path[n] != [] {
      ParentSums(g2, sv, mid, fin, Last(g.path[n]), d);
    }
    forall x | 0 <= x < |g.nodes|
      ensures fin[x].expanded == s0[x].expanded && fin[x].rect == s0[x].rect
      ensures !Under(g2, x, d) && !(g.path[n] != [] && Under(g2, x, Last(g.path[n]))) ==> fin[x] == s0[x]
    {
      assert Allowed(g2, x, sv[x], fin[x], Summed);
      if !Under(g2, x, d) {
        assert fin[x] == mid[x];
      }
    }
  }

  /** The destination ends up with the recomputed sizes of its new subtree. */
  lemma DestSums(g: Universe, sv: seq<Fields>, mid: seq<Fields>, fin: seq<Fields>, d: nat)
    requires Covers(g, sv) && Covers(g, mid) && Covers(g, fin) && d < |g.nodes|
    requires Resummed(g, sv, mid) && Refreshed(g, mid, fin, d)
    ensures Model(g, fin, d) == Recompute(Model(g, sv, d)) && Resummed(g, sv, fin)
  {
    SummedIsRecompute(g, sv, fin, d);
  }

  /**
   * The old parent, summed before the destination was, stays summed: the only
   * node outside the destination's subtree whose children can have changed is
   * the destination's own parent, and re-summing an already summed subtree
   * leaves its size alone.
   */
  lemma ParentSums(g: Universe, sv: seq<Fields>, mid: seq<Fields>, fin: seq<Fields>, p: nat, d: nat)
    requires Covers(g, sv) && Covers(g, mid) && Covers(g, fin) && p < |g.nodes| && d < |g.nodes|
    requires Resummed(g, sv, mid) && HoldsBelow(g, mid, p, Summed) && Refreshed(g, mid, fin, d)
    ensures Model(g, fin, p) == Recompute(Model(g, sv, p))
  {
    if Under(g, d, p) {
      ResumSame(g, mid, fin, p, d);
    }
    forall x | 0 <= x < |g.nodes| && Under(g, x, p) ensures Holds(g, fin, x, Summed) {
      if !Under(g, x, d) {
        forall j | 0 <= j < |g.kids[x]| ensures fin[g.kids[x][j]] == mid[g.kids[x][j]] {
          var c := g.kids[x][j];
          if Under(g, c, d) {
            OutsideKid(g, x, j, d);
            UnderTrans(g, d, x, p);
          }
        }
        HoldsKept(g, mid, fin, x, Summed);
      }
    }
    SummedIsRecompute(g, sv, fin, p);
  }

  /** Re-summing a subtree that lies inside an already summed one changes nothing at its root. */
  lemma ResumSame(g: Universe, mid: seq<Fields>, fin: seq<Fields>, p: nat, d: nat)
    requires Covers(g, mid) && Covers(g, fin) && p < |g.nodes| && d < |g.nodes| && Under(g, d, p)
    requires HoldsBelow(g, mid, p, Summed) && Refreshed(g, mid, fin, d)
    ensures fin[d] == mid[d]
  {
    forall y | 0 <= y < |g.nodes| && Under(g, y, d) ensures Holds(g, mid, y, Summed) {
      UnderTrans(g, y, d, p);
    }
    SummedIsRecompute(g, mid, mid, d);
    SummedIsRecompute(g, mid, fin, d);
  }

  /** `Under` is transitive. */
  lemma UnderTrans(g: Universe, x: nat, y: nat, z: nat)
    requires Shaped(g) && x < |g.nodes| && y < |g.nodes| && z < |g.nodes| && Under(g, x, y) && Under(g, y, z)
    ensures Under(g, x, z)
  {
    if x != y && y != z {
      Ancestor(g, x, |g.path[y]|);
    }
  }

  /** A child below `d` of a node outside `d`'s subtree is `d` itself. */
  lemma OutsideKid(g: Universe, x: nat, j: nat, d: nat)
    requires Shaped(g) && x < |g.nodes| && j < |g.kids[x]| && d < |g.nodes|
    requires Under(g, g.kids[x][j], d) && !Under(g, x, d)
    ensures g.kids[x][j] == d
  {
  }

  /** The mutable fields of one node, as a value. */
  datatype Fields = Fields(size: int, expanded: bool, rect: Rect)

  /** A snapshot of the mutable fields of every node of the universe. */
  ghost function FieldsOf(g: Universe): (st: seq<Fields>)
    reads g.nodes`dataSize, g.nodes`expanded, g.nodes`rect
    ensures |st| == |g.nodes|
    ensures forall x | 0 <= x < |g.nodes| :: st[x] == Fields(g.nodes[x].dataSize, g.nodes[x].expanded, g.nodes[x].rect)
  {
    FieldsAt(g.nodes)
  }

  /** The mutable fields of each node of a list, in order. */
  ghost function FieldsAt(ns: seq<Node>): (st: seq<Fields>)
    reads ns`dataSize, ns`expanded, ns`rect
    ensures |st| == |ns|
    ensures forall x | 0 <= x < |ns| :: st[x] == Fields(ns[x].dataSize, ns[x].expanded, ns[x].rect)
  {
    if ns == [] then []
    else FieldsAt(ns[..|ns| - 1]) + [Fields(ns[|ns| - 1].dataSize, ns[|ns| - 1].expanded, ns[|ns| - 1].rect)]
  }

  /** A snapshot that covers a well-shaped universe. */
  ghost predicate Covers(g: Universe, st: seq<Fields>) {
    Shaped(g) && |st| == |g.nodes|
  }

  /** The value tree of `n`'s subtree in snapshot `st`; a node's identity is its index. */
  ghost function Model(g: Universe, st: seq<Fields>, n: nat): Tree<nat>
    requires Covers(g, st) && n < |g.nodes|
    decreases g.height - |g.path[n]|
  {
    Tree(n, g.nodes[n].name, st[n].size, st[n].rect, g.nodes[n].colour, st[n].expanded,
         seq(|g.kids[n]|, k requires 0 <= k < |g.kids[n]| => Model(g, st, g.kids[n][k])))
  }

  /** A value tree depends only on the snapshot of the nodes below it. */
  lemma {:induction false} ModelSame(g: Universe, s0: seq<Fields>, s1: seq<Fields>, n: nat)
    requires Covers(g, s0) && Covers(g, s1) && n < |g.nodes|
    requires forall x | 0 <= x < |g.nodes| && Under(g, x, n) :: s1[x] == s0[x]
    ensures Model(g, s1, n) == Model(g, s0, n)
    decreases g.height - |g.path[n]|
  {
    forall k | 0 <= k < |g.kids[n]| ensures Model(g, s1, g.kids[n][k]) == Model(g, s0, g.kids[n][k]) {
      UnderKid(g, n, k);
      ModelSame(g, s0, s1, g.kids[n][k]);
    }
    assert Model(g, s1, n).children == Model(g, s0, n).children;
  }

  /** The sizes of `n`'s children in snapshot `st`. */
  ghost function KidSizes(g: Universe, st: seq<Fields>, n: nat): (s: seq<int>)
    requires Covers(g, st) && n < |g.nodes|
    ensures |s| == |g.kids[n]| && forall k | 0 <= k < |s| :: s[k] == st[g.kids[n][k]].size
  {
    seq(|g.kids[n]|, k requires 0 <= k < |g.kids[n]| => st[g.kids[n][k]].size)
  }

  /** The children of `n` occupy the rectangles the treemap algorithm gives them inside `n`'s. */
  ghost predicate Tiled(g: Universe, st: seq<Fields>, n: nat)
    requires Covers(g, st) && n < |g.nodes|
  {
    var sizes := KidSizes(g, st, n);
    SplitOk(sizes, st[n].size, st[n].rect) &&
    forall k | 0 <= k < |g.kids[n]| :: st[g.kids[n][k]].rect == ChildRect(sizes, st[n].size, st[n].rect, k)
  }

  /** The per-node facts the recursive operations establish throughout a subtree. */
  datatype Rule = Summed | Opened | Closed | Placed

  ghost predicate Holds(g: Universe, st: seq<Fields>, x: nat, rule: Rule)
    requires Covers(g, st) && x < |g.nodes|
  {
    var leaf := g.kids[x] == [];
    match rule
    case Summed => !leaf ==> st[x].size == SumInts(KidSizes(g, st, x))
    case Opened => !leaf ==> st[x].expanded
    case Closed => !st[x].expanded
    case Placed => !leaf ==> Tiled(g, st, x)
  }

  /** What each operation may change at a node it touches. */
  ghost predicate Allowed(g: Universe, x: nat, a: Fields, b: Fields, rule: Rule)
    requires x < |g.nodes| && |g.kids| == |g.nodes|
  {
    match rule
    case Summed => b.expanded == a.expanded && b.rect == a.rect && (g.kids[x] == [] ==> b.size == a.size)
    case Opened => b.size == a.size && b.rect == a.rect && (g.kids[x] == [] ==> b.expanded == a.expanded)
    case Closed => b.size == a.size && b.rect == a.rect
    case Placed => b.size == a.size && b.expanded == a.expanded && (g.nodes[x].name.None? ==> b.rect == a.rect)
  }

  /** From `s0` to `s1`, the nodes of `n`'s subtree changed only as the rule allows. */
  ghost predicate Within(g: Universe, s0: seq<Fields>, s1: seq<Fields>, n: nat, rule: Rule)
    requires Covers(g, s0) && Covers(g, s1) && n < |g.nodes|
  {
    forall x | 0 <= x < |g.nodes| && Under(g, x, n) :: Allowed(g, x, s0[x], s1[x], rule)
  }

  /**
   * From `s0` to `s1`, the nodes of `n`'s subtree and those in `extra`
   * changed only as the rule allows, and every other node is unchanged.
   */
  ghost predicate Only(g: Universe, s0: seq<Fields>, s1: seq<Fields>, n: nat, rule: Rule, extra: set<nat>)
    requires Covers(g, s0) && Covers(g, s1) && n < |g.nodes|
  {
    forall x | 0 <= x < |g.nodes| ::
      if Under(g, x, n) || x in extra then Allowed(g, x, s0[x], s1[x], rule) else s1[x] == s0[x]
  }

  /** A change at `n` alone that the rule allows is an allowed change below `n`. */
  lemma OnlyAt(g: Universe, s0: seq<Fields>, s1: seq<Fields>, n: nat, rule: Rule)
    requires Covers(g, s0) && Covers(g, s1) && n < |g.nodes|
    requires forall y | 0 <= y < |g.nodes| && y != n :: s1[y] == s0[y]
    requires Allowed(g, n, s0[n], s1[n], rule)
    ensures Only(g, s0, s1, n, rule, {})
  {
  }

  /** Allowed changes below `n` followed by allowed changes below `n` are allowed changes below `n`. */
  lemma OnlyThen(g: Universe, s0: seq<Fields>, s1: seq<Fields>, s2: seq<Fields>, n: nat, rule: Rule, extra: set<nat>)
    requires Covers(g, s0) && Covers(g, s1) && Covers(g, s2) && n < |g.nodes|
    requires Only(g, s0, s1, n, rule, extra) && Only(g, s1, s2, n, rule, {})
    ensures Only(g, s0, s2, n, rule, extra)
  {
  }

  /** The rule holds at every node of `n`'s subtree. */
  ghost predicate HoldsBelow(g: Universe, st: seq<Fields>, n: nat, rule: Rule)
    requires Covers(g, st) && n < |g.nodes|
  {
    forall x | 0 <= x < |g.nodes| && Under(g, x, n) :: Holds(g, st, x, rule)
  }

  /** The rule holds below the first `i` children of `n`. */
  ghost predicate HoldsDone(g: Universe, st: seq<Fields>, n: nat, i: nat, rule: Rule)
    requires Covers(g, st) && n < |g.nodes| && i <= |g.kids[n]|
  {
    forall k, x | 0 <= k < i && 0 <= x < |g.nodes| && Under(g, x, g.kids[n][k]) :: Holds(g, st, x, rule)
  }

  /** A node keeps every rule when neither it nor its children changed. */
  lemma HoldsKept(g: Universe, s0: seq<Fields>, s1: seq<Fields>, x: nat, rule: Rule)
    requires Covers(g, s0) && Covers(g, s1) && x < |g.nodes| && Holds(g, s0, x, rule)
    requires s1[x] == s0[x] && forall k | 0 <= k < |g.kids[x]| :: s1[g.kids[x][k]] == s0[g.kids[x][k]]
    ensures Holds(g, s1, x, rule)
  {
    assert KidSizes(g, s1, x) == KidSizes(g, s0, x);
  }

  /** Adding child `i`'s size to the running sum of the children before it. */
  lemma SumStep(g: Universe, s0: seq<Fields>, s1: seq<Fields>, n: nat, i: nat)
    requires Covers(g, s0) && Covers(g, s1) && n < |g.nodes| && i < |g.kids[n]|
    requires forall k | 0 <= k < i :: s1[g.kids[n][k]] == s0[g.kids[n][k]]
    ensures SumInts(KidSizes(g, s1, n)[..i + 1]) == SumInts(KidSizes(g, s0, n)[..i]) + s1[g.kids[n][i]].size
  {
    assert KidSizes(g, s1, n)[..i + 1][..i] == KidSizes(g, s0, n)[..i];
  }

  /** Changing a node alone leaves the sizes of its children alone. */
  lemma KidsKept(g: Universe, s0: seq<Fields>, s1: seq<Fields>, n: nat)
    requires Covers(g, s0) && Covers(g, s1) && n < |g.nodes|
    requires forall y | 0 <= y < |g.nodes| && y != n :: s1[y] == s0[y]
    ensures KidSizes(g, s1, n) == KidSizes(g, s0, n)
  {
    forall k | 0 <= k < |g.kids[n]| ensures s1[g.kids[n][k]] == s0[g.kids[n][k]] {
      assert |g.path[g.kids[n][k]]| == |g.path[n]| + 1;
    }
  }

  /**
   * One step of a loop over the children, from `s0` to `s1`: once the rule
   * holds below child `i`, and only that child's subtree and `e` changed, the
   * rule holds below the first `i + 1` children, the changes since `s` stay
   * within what the rule allows, and the other children are unchanged.
   */
  lemma Step(g: Universe, s: seq<Fields>, s0: seq<Fields>, s1: seq<Fields>,
             n: nat, i: nat, rule: Rule, extra: set<nat>, e: set<nat>)
    requires Covers(g, s) && Covers(g, s0) && Covers(g, s1) && n < |g.nodes| && i < |g.kids[n]|
    requires HoldsDone(g, s0, n, i, rule) && Only(g, s, s0, n, rule, extra)
    requires HoldsBelow(g, s1, g.kids[n][i], rule) && Only(g, s0, s1, g.kids[n][i], rule, e) && e <= {n}
    ensures HoldsDone(g, s1, n, i + 1, rule) && Only(g, s, s1, n, rule, extra)
    ensures n !in e ==> s1[n] == s0[n]
    ensures forall k | 0 <= k < |g.kids[n]| && k != i :: s1[g.kids[n][k]] == s0[g.kids[n][k]]
  {
    var c := g.kids[n][i];
    UnderKid(g, n, i);
    forall k, x | 0 <= k < i + 1 && 0 <= x < |g.nodes| && Under(g, x, g.kids[n][k])
      ensures Holds(g, s1, x, rule)
    {
      if k != i {
        UnderKid(g, n, k);
        KidsUnder(g, g.kids[n][k], x);
        forall j | 0 <= j < |g.kids[x]| ensures s1[g.kids[x][j]] == s0[g.kids[x][j]] {
          if Under(g, g.kids[x][j], c) {
            Apart(g, n, i, k, g.kids[x][j]);
          }
        }
        if Under(g, x, c) {
          Apart(g, n, i, k, x);
        }
        HoldsKept(g, s0, s1, x, rule);
      }
    }
    forall k | 0 <= k < |g.kids[n]| && k != i ensures s1[g.kids[n][k]] == s0[g.kids[n][k]] {
      UnderKid(g, n, k);
      assert g.pos[g.kids[n][k]] == k && g.pos[c] == i;
    }
  }

  /** Once every child is done, the rule at `n` itself completes the subtree. */
  lemma Finish(g: Universe, s: seq<Fields>, s0: seq<Fields>, s1: seq<Fields>,
               n: nat, rule: Rule, extra: set<nat>)
    requires Covers(g, s) && Covers(g, s0) && Covers(g, s1) && n < |g.nodes|
    requires HoldsDone(g, s0, n, |g.kids[n]|, rule) && Only(g, s, s0, n, rule, extra)
    requires forall y | 0 <= y < |g.nodes| && y != n :: s1[y] == s0[y]
    requires Allowed(g, n, s0[n], s1[n], rule) && Holds(g, s1, n, rule)
    ensures HoldsBelow(g, s1, n, rule) && Only(g, s, s1, n, rule, extra)
  {
    forall x | 0 <= x < |g.nodes| && Under(g, x, n) ensures Holds(g, s1, x, rule) {
      if x != n {
        var k := Branch(g, n, x);
        UnderKid(g, n, k);
        KidsUnder(g, g.kids[n][k], x);
        HoldsKept(g, s0, s1, x, rule);
      }
    }
  }

  /** The rule below `n` gives the rule below each child. */
  lemma HoldsWithin(g: Universe, st: seq<Fields>, n: nat, i: nat, rule: Rule)
    requires Covers(g, st) && n < |g.nodes| && i < |g.kids[n]| && HoldsBelow(g, st, n, rule)
    ensures HoldsBelow(g, st, g.kids[n][i], rule)
  {
    UnderKid(g, n, i);
  }

  /** The allowed changes below `n` are also allowed below each child. */
  lemma WithinChild(g: Universe, s0: seq<Fields>, s1: seq<Fields>, n: nat, i: nat, rule: Rule)
    requires Covers(g, s0) && Covers(g, s1) && n < |g.nodes| && i < |g.kids[n]|
    requires Within(g, s0, s1, n, rule)
    ensures Within(g, s0, s1, g.kids[n][i], rule)
  {
    UnderKid(g, n, i);
  }

  /** Wherever every internal node sums its children, the value tree is consistent. */
  lemma {:induction false} SummedConsistent(g: Universe, st: seq<Fields>, n: nat)
    requires Covers(g, st) && n < |g.nodes| && HoldsBelow(g, st, n, Summed)
    ensures Consistent(Model(g, st, n))
    decreases g.height - |g.path[n]|
  {
    var m := Model(g, st, n);
    forall k | 0 <= k < |m.children| ensures Consistent(m.children[k]) {
      HoldsWithin(g, st, n, k, Summed);
      SummedConsistent(g, st, g.kids[n][k]);
    }
    if m.children != [] {
      assert Holds(g, st, n, Summed);
      forall k | 0 <= k < |m.children| ensures Sizes(m.children)[k] == KidSizes(g, st, n)[k] {
        assert m.children[k] == Model(g, st, g.kids[n][k]);
      }
      assert Sizes(m.children) == KidSizes(g, st, n);
    }
  }

  /** Changing only the sizes of internal nodes keeps the skeleton of the value tree. */
  lemma {:induction false} SkeletonKept(g: Universe, s0: seq<Fields>, s1: seq<Fields>, n: nat)
    requires Covers(g, s0) && Covers(g, s1) && n < |g.nodes| && Within(g, s0, s1, n, Summed)
    ensures Skeleton(Model(g, s1, n)) == Skeleton(Model(g, s0, n))
    decreases g.height - |g.path[n]|
  {
    forall k | 0 <= k < |g.kids[n]|
      ensures Skeleton(Model(g, s1, g.kids[n][k])) == Skeleton(Model(g, s0, g.kids[n][k]))
    {
      WithinChild(g, s0, s1, n, k, Summed);
      SkeletonKept(g, s0, s1, g.kids[n][k]);
    }
    assert Skeleton(Model(g, s1, n)).children == Skeleton(Model(g, s0, n)).children;
  }

  /** What the summing recursion leaves behind is exactly the recomputed value tree. */
  lemma SummedIsRecompute(g: Universe, s0: seq<Fields>, s1: seq<Fields>, n: nat)
    requires Covers(g, s0) && Covers(g, s1) && n < |g.nodes|
    requires HoldsBelow(g, s1, n, Summed) && Within(g, s0, s1, n, Summed)
    ensures Model(g, s1, n) == Recompute(Model(g, s0, n))
  {
    SummedConsistent(g, s1, n);
    SkeletonKept(g, s0, s1, n);
    RecomputeUnique(Model(g, s0, n), Model(g, s1, n));
  }

  /** What `expand_all` leaves behind is exactly the fully expanded value tree. */
  lemma {:induction false} OpenedIsExpandAll(g: Universe, s0: seq<Fields>, s1: seq<Fields>, n: nat)
    requires Covers(g, s0) && Covers(g, s1) && n < |g.nodes|
    requires HoldsBelow(g, s1, n, Opened) && Within(g, s0, s1, n, Opened)
    ensures Model(g, s1, n) == Display.ExpandAll(Model(g, s0, n))
    decreases g.height - |g.path[n]|
  {
    forall k | 0 <= k < |g.kids[n]|
      ensures Model(g, s1, g.kids[n][k]) == Display.ExpandAll(Model(g, s0, g.kids[n][k]))
    {
      HoldsWithin(g, s1, n, k, Opened);
      WithinChild(g, s0, s1, n, k, Opened);
      OpenedIsExpandAll(g, s0, s1, g.kids[n][k]);
    }
    if g.kids[n] != [] {
      assert Holds(g, s1, n, Opened);
      assert Model(g, s1, n).children == Display.ExpandAll(Model(g, s0, n)).children;
    }
  }

  /** The children of `n`'s value tree are the value trees of its children. */
  lemma ModelKids(g: Universe, st: seq<Fields>, n: nat)
    requires Covers(g, st) && n < |g.nodes|
    ensures |Model(g, st, n).children| == |g.kids[n]|
    ensures forall k | 0 <= k < |g.kids[n]| :: Model(g, st, n).children[k] == Model(g, st, g.kids[n][k])
    ensures Sizes(Model(g, st, n).children) == KidSizes(g, st, n)
  {
    assert Sizes(Model(g, st, n).children) == KidSizes(g, st, n);
  }

  /** The subtrees of `n`'s children from the `i`th on are as in `s0`: the ones a layout loop has yet to reach. */
  ghost predicate Pending(g: Universe, s0: seq<Fields>, s1: seq<Fields>, n: nat, i: nat)
    requires Covers(g, s0) && Covers(g, s1) && n < |g.nodes|
  {
    forall k, x | i <= k < |g.kids[n]| && 0 <= x < |g.nodes| && Under(g, x, g.kids[n][k]) :: s1[x] == s0[x]
  }

  /** Changing `n` alone leaves every child's subtree pending. */
  lemma PendingStart(g: Universe, s0: seq<Fields>, s1: seq<Fields>, n: nat)
    requires Covers(g, s0) && Covers(g, s1) && n < |g.nodes|
    requires forall y | 0 <= y < |g.nodes| && y != n :: s1[y] == s0[y]
    ensures Pending(g, s0, s1, n, 0)
  {
    forall k | 0 <= k < |g.kids[n]| {
      UnderKid(g, n, k);
    }
  }

  /** Laying out child `i` leaves the later children's subtrees pending. */
  lemma PendingStep(g: Universe, s: seq<Fields>, s0: seq<Fields>, s1: seq<Fields>, n: nat, i: nat)
    requires Covers(g, s) && Covers(g, s0) && Covers(g, s1) && n < |g.nodes| && i < |g.kids[n]|
    requires Pending(g, s, s0, n, i) && Only(g, s0, s1, g.kids[n][i], Placed, {})
    ensures Pending(g, s, s1, n, i + 1)
  {
    forall k, x | i + 1 <= k < |g.kids[n]| && 0 <= x < |g.nodes| && Under(g, x, g.kids[n][k])
      ensures s1[x] == s0[x]
    {
      if Under(g, x, g.kids[n][i]) {
        Apart(g, n, i, k, x);
      }
    }
  }

  /**
   * A pending child can be laid out: the split is well defined and the
   * child's subtree accepts the rectangle the parent hands it.
   */
  lemma Ready(g: Universe, s0: seq<Fields>, st: seq<Fields>, n: nat, r: Rect, i: nat)
    requires Covers(g, s0) && Covers(g, st) && n < |g.nodes| && i < |g.kids[n]| && g.nodes[n].name.Some?
    requires LayoutOk(Model(g, s0, n), r) && Pending(g, s0, st, n, i)
    ensures SplitOk(KidSizes(g, s0, n), s0[n].size, r)
    ensures LayoutOk(Model(g, st, g.kids[n][i]), ChildRect(KidSizes(g, s0, n), s0[n].size, r, i))
  {
    ModelKids(g, s0, n);
    ModelSame(g, s0, st, g.kids[n][i]);
  }

  /**
   * The state of a layout loop over `n`'s children after `i` of them: those
   * are laid out, each in the rectangle the split hands it, the rest are
   * untouched since `s0`, and since `s` only what a layout may change changed.
   */
  ghost predicate Progress(g: Universe, s0: seq<Fields>, s: seq<Fields>, st: seq<Fields>, n: nat, i: nat, r: Rect)
    requires Covers(g, s0) && Covers(g, s) && Covers(g, st) && n < |g.nodes| && i <= |g.kids[n]|
  {
    && HoldsDone(g, st, n, i, Placed) && Only(g, s, st, n, Placed, {}) && Pending(g, s0, st, n, i)
    && SplitOk(KidSizes(g, s0, n), s0[n].size, r)
    && forall k | 0 <= k < i :: st[g.kids[n][k]].rect == ChildRect(KidSizes(g, s0, n), s0[n].size, r, k)
  }

  /** The state of a layout loop before child `i`: this node is unchanged since `s` and children `..i` are placed. */
  ghost predicate Placing(g: Universe, s0: seq<Fields>, s: seq<Fields>, n: nat, i: nat, r: Rect)
    reads g.nodes
  {
    && Linked(g) && Covers(g, s0) && Covers(g, s) && n < |g.nodes| && i <= |g.kids[n]|
    && FieldsOf(g)[n] == s[n] && s[n].size == s0[n].size
    && Progress(g, s0, s, FieldsOf(g), n, i, r)
  }

  /** While child `i` is still pending, its node and this node carry the sizes of the snapshot the layout divides. */
  lemma ChildSize(g: Universe, s0: seq<Fields>, s: seq<Fields>, n: nat, i: nat, r: Rect)
    requires Placing(g, s0, s, n, i, r) && i < |g.kids[n]|
    ensures g.nodes[n].dataSize == s0[n].size
    ensures g.nodes[n].children[i].dataSize == KidSizes(g, s0, n)[i]
  {
    var c := g.kids[n][i];
    assert g.nodes[n].children[i] == g.nodes[c];
    assert FieldsOf(g)[c] == s0[c];
  }

  /** Laying out child `i` in its rectangle advances the loop by one child. */
  lemma Advance(g: Universe, s0: seq<Fields>, s: seq<Fields>, s1: seq<Fields>, st: seq<Fields>, n: nat, i: nat, r: Rect)
    requires Covers(g, s0) && Covers(g, s) && Covers(g, s1) && Covers(g, st) && n < |g.nodes| && i < |g.kids[n]|
    requires Progress(g, s0, s, s1, n, i, r)
    requires HoldsBelow(g, st, g.kids[n][i], Placed) && Only(g, s1, st, g.kids[n][i], Placed, {})
    requires st[g.kids[n][i]].rect == ChildRect(KidSizes(g, s0, n), s0[n].size, r, i)
    ensures Progress(g, s0, s, st, n, i + 1, r) && st[n] == s1[n]
  {
    Step(g, s, s1, st, n, i, Placed, {}, {});
    PendingStep(g, s0, s1, st, n, i);
  }

  /** Once every child is laid out, the children tile the node's rectangle. */
  lemma AllPlaced(g: Universe, s0: seq<Fields>, s: seq<Fields>, st: seq<Fields>, n: nat, r: Rect)
    requires Covers(g, s0) && Covers(g, s) && Covers(g, st) && n < |g.nodes|
    requires Progress(g, s0, s, st, n, |g.kids[n]|, r) && Pending(g, s0, s, n, 0)
    requires st[n].rect == r && st[n].size == s0[n].size
    ensures HoldsDone(g, st, n, |g.kids[n]|, Placed) && Tiled(g, st, n) && Only(g, s, st, n, Placed, {})
  {
    PlacedSizes(g, s0, s, st, n);
  }

  /** A layout keeps every size, so the children's sizes are still those the layout divided by. */
  lemma PlacedSizes(g: Universe, s0: seq<Fields>, s: seq<Fields>, st: seq<Fields>, n: nat)
    requires Covers(g, s0) && Covers(g, s) && Covers(g, st) && n < |g.nodes|
    requires Pending(g, s0, s, n, 0) && Only(g, s, st, n, Placed, {})
    ensures KidSizes(g, st, n) == KidSizes(g, s0, n)
  {
    forall k | 0 <= k < |g.kids[n]| ensures st[g.kids[n][k]].size == s0[g.kids[n][k]].size {
      assert s[g.kids[n][k]] == s0[g.kids[n][k]];
    }
  }

  /** What the layout recursion leaves behind is exactly the laid-out value tree. */
  lemma {:induction false} PlacedIsLayout(g: Universe, s0: seq<Fields>, s1: seq<Fields>, n: nat, r: Rect)
    requires Covers(g, s0) && Covers(g, s1) && n < |g.nodes|
    requires HoldsBelow(g, s1, n, Placed) && Within(g, s0, s1, n, Placed)
    requires LayoutOk(Model(g, s0, n), r) && (g.nodes[n].name.Some? ==> s1[n].rect == r)
    ensures Model(g, s1, n) == Layout(Model(g, s0, n), r)
    decreases g.height - |g.path[n]|
  {
    if g.kids[n] != [] {
      var sizes := KidSizes(g, s0, n);
      ModelKids(g, s0, n);
      ModelKids(g, s1, n);
      assert Holds(g, s1, n, Placed);
      assert KidSizes(g, s1, n) == sizes;
      forall k | 0 <= k < |g.kids[n]|
        ensures Model(g, s1, g.kids[n][k]) == Layout(Model(g, s0, g.kids[n][k]), ChildRect(sizes, s0[n].size, r, k))
      {
        HoldsWithin(g, s1, n, k, Placed);
        WithinChild(g, s0, s1, n, k, Placed);
        PlacedIsLayout(g, s0, s1, g.kids[n][k], ChildRect(sizes, s0[n].size, r, k));
      }
      assert Model(g, s1, n).children == Layout(Model(g, s0, n), r).children;
    }
  }

  /** What `collapse` leaves behind in the subtree is exactly the fully collapsed value tree. */
  lemma {:induction false} ClosedIsFolded(g: Universe, s0: seq<Fields>, s1: seq<Fields>, n: nat)
    requires Covers(g, s0) && Covers(g, s1) && n < |g.nodes|
    requires HoldsBelow(g, s1, n, Closed) && Within(g, s0, s1, n, Closed)
    ensures Model(g, s1, n) == Folded(Model(g, s0, n))
    decreases g.height - |g.path[n]|
  {
    forall k | 0 <= k < |g.kids[n]|
      ensures Model(g, s1, g.kids[n][k]) == Folded(Model(g, s0, g.kids[n][k]))
    {
      HoldsWithin(g, s1, n, k, Closed);
      WithinChild(g, s0, s1, n, k, Closed);
      ClosedIsFolded(g, s0, s1, g.kids[n][k]);
    }
    assert Holds(g, s1, n, Closed);
    assert Model(g, s1, n).children == Folded(Model(g, s0, n)).children;
  }
}
