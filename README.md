# Treemap trees

A model of `TMTree` from `tm_trees.py`: the tree behind an interactive
treemap. Each node has a name, a data size, a colour, a display rectangle, an
expanded flag, a list of subtrees and a link to its parent. The displayed tree
is the part of the tree reached through expanded nodes. Its frontier, the
collapsed nodes and the leaves, is what the treemap draws.

The project has nine modules:

- `Wrappers` (`wrappers.dfy`): an `Option` type.
- `Geometry` (`geometry.dfy`): rectangles, points, and Python's floor
  division and `math.ceil`.
- `TreeModel` (`tree_model.dfy`): a value tree `Tree<Id>` with the same
  fields as a node. `Recompute` is the bottom-up size rule that
  `update_data_sizes` implements; its lemmas say what that rule produces.
- `TreemapLayout` (`layout.dfy`): the treemap split of `update_rectangles`
  as a pure function `Layout`. Its lemmas cover tiling, the proportional
  shares and the absence of division by zero.
- `Display` (`display.dfy`): the displayed tree's frontier, `Flatten`
  (what `get_rectangles` returns), `HitTest` (what `get_tree_at_position`
  returns), and the pure effects `Expand`, `ExpandAll` and `Folded` of the
  expand and collapse operations.
- `Resize` (`resize.dfy`): the new size `change_size` computes, and its
  bounds.
- `TMTrees` (`tm_trees.dfy`): the nodes themselves, as a class `Node` whose
  methods update `rect`, `dataSize`, `expanded`, `children` and `parent` in
  place, with the same branches and loops as the source.
- `Forest` (`forest.dfy`): how the initializer builds a forest. A new node
  over some roots becomes their parent, and the grown `Universe` is valid.
- `Coverage` (`coverage.dfy`): after a layout, the hit test finds a node
  for exactly the points of the laid-out rectangle.

A ghost `Universe` value numbers the nodes of a forest and records its shape:
each node's children, its path of ancestors and its position among its
siblings. `Valid` says that the heap's children lists and parent links agree
with that shape. `FieldsOf` snapshots every node's size, flag and rectangle,
and `Model` reads a node's subtree out of a snapshot as a `Tree<nat>`. Each
recursive method is proved node by node on the snapshots before and after it.
A lemma then shows that the new subtree is exactly the pure function of the
old one: `Recompute`, `Layout`, `ExpandAll` or `Folded`.

Where the code and its docstrings differ, the model follows the code:

- `get_tree_at_position` tests `is_empty()` but then does nothing
  (`pass`). An empty tree therefore goes through the same rectangle
  containment check as a leaf.
- `move` gives the moved leaf a new parent link only if it had a parent.
  Moving a root leaf leaves its link null even though it is now in
  `destination`'s list. `Move` therefore promises that the links are valid
  afterwards only when the leaf had a parent.
- The docstring of `collapse` says that nothing happens at the root of the
  whole tree. The code still clears the root's own flag and collapses every
  node below it.

The code also treats the two split directions differently. The width branch
of `update_rectangles` tests the parent's size for zero, and the height branch
tests the child's size. `Share` models both tests as written.

## Model

| member | source | states |
|---|---|---|
| TMTrees.Node.constructor | tm_trees.py:86-123 | A leaf takes the given size and an internal node the sum of its subtrees' sizes; every subtree's parent becomes the new node; the rectangle is empty, the flag cleared, no parent |
| TMTrees.Node.TotalSize | tm_trees.py:114-119 | The summing loop returns the sum of the subtrees' sizes |
| TMTrees.Node.Adopt | tm_trees.py:121-123 | After the loop every subtree's parent is the new node |
| TMTrees.Node.IsEmpty | tm_trees.py:125-128 | True exactly for the unnamed tree, which then has no children |
| TMTrees.Node.UpdateDataSizes | tm_trees.py:220-233 | The subtree becomes its old value tree with every internal size recomputed from the leaves; leaves and everything outside the subtree are unchanged; the result is the node's new size |
| TMTrees.Node.SumChildren | tm_trees.py:229-233 | The loop re-sums each child's subtree in turn and returns the sum of the children's new sizes; nothing outside the subtree changes |
| TMTrees.SummedIsRecompute | tm_trees.py:220-233 | A subtree in which every internal node sums its children, reached by changing only internal sizes, equals `Recompute` of the old subtree |
| TreeModel.RecomputeConsistent | tm_trees.py:220-233 | After recomputation every internal size is the sum of its children's sizes |
| TreeModel.RecomputeIsLeafTotal | tm_trees.py:220-225 | The recomputed size of a tree is the total of its leaves' sizes |
| TreeModel.RecomputeKeepsSkeleton | tm_trees.py:220-233 | Recomputation changes nothing but internal sizes |
| TreeModel.RecomputeFixesConsistent | tm_trees.py:114-123 | A tree whose sizes already follow the construction rule is unchanged by `update_data_sizes` |
| TreeModel.RecomputeUnique | tm_trees.py:220-233 | Any consistent tree with the same leaves and shape is the recomputed tree |
| TreeModel.RecomputeIdempotent | tm_trees.py:220-233 | Recomputing twice is recomputing once |
| TMTrees.Node.Move | tm_trees.py:235-254 | No change at all unless this node is a leaf and the destination is not. Otherwise: the children lists become those of the moved shape (this leaf last under the destination, gone from its old parent's list); the parent link becomes the destination only if there was one; the destination's and old parent's subtrees hold recomputed sizes (an emptied old parent has size 0); no flag, rectangle or other size changes |
| TMTrees.Node.Relocate | tm_trees.py:244-254 | The move itself once the guard passed, with the same promises as `Move` |
| TMTrees.Node.Attach | tm_trees.py:245-247 | Appending to the destination and then removing the first occurrence from the old parent's list gives the moved shape's lists; no size or link changes |
| TMTrees.Node.Append | tm_trees.py:245-245 | Only this node's list changes, by one element at its end |
| TMTrees.Node.Release | tm_trees.py:247-247 | Only this node's list changes: its first occurrence of the node is removed |
| TMTrees.Node.Settle | tm_trees.py:246-254 | The re-summing of the old parent and then the destination leaves both subtrees recomputed over the vacated sizes and every other node as it was |
| TMTrees.Node.LeaveParent | tm_trees.py:246-253 | With a parent: the parent's subtree is re-summed (size 0 when its list is empty) and the link moves to the destination; without one nothing changes |
| TMTrees.Node.Resum | tm_trees.py:248-252 | An emptied parent gets size 0; otherwise its subtree is re-summed and its new size stored; nothing outside it changes |
| TMTrees.Node.Reparent | tm_trees.py:253-253 | The new link makes all parent links agree with the moved shape |
| TMTrees.Node.Refresh | tm_trees.py:251-254 | `data_size = update_data_sizes()` leaves the subtree summed, changes only its internal sizes, and changes no list or link |
| TMTrees.MoveSums | tm_trees.py:246-254 | The two re-summing steps together give the recomputed value trees of the destination and the old parent in the moved shape; no flag or rectangle changes, and sizes change only inside those two subtrees |
| TMTrees.MovedShaped | tm_trees.py:245-247 | Moving a named leaf under a named node other than itself keeps a forest; the leaf's path becomes the destination's path plus the destination, every other path is kept |
| TMTrees.MovedKid | tm_trees.py:245-247 | Child `k` of any node in the moved shape is a named node one level below it whose recorded position is `k` |
| TMTrees.MovedParent | tm_trees.py:245-247 | In the moved shape every non-root node is found at its recorded position in its parent's list |
| TMTrees.MovedLinked | tm_trees.py:245-247 | The rewired lists (`append`, then `remove`) hold exactly the moved shape |
| TMTrees.MovedList | tm_trees.py:245-247 | For each node, the list after `append` and `remove` names its children in the moved shape |
| TMTrees.MovedParented | tm_trees.py:253-253 | The old links with the moved leaf's link turned to the destination agree with the moved shape |
| TMTrees.RemoveFirst | tm_trees.py:247-247 | `list.remove` leaves the multiset of elements less one occurrence of the value |
| TMTrees.RemoveAt | tm_trees.py:247-247 | `list.remove` drops exactly the first position holding the value, keeping the order of the rest |
| TMTrees.IndexOfAt | tm_trees.py:247-247 | The first occurrence is the one position that holds the value with none before it |
| TMTrees.Node.ChangeSize | tm_trees.py:265-284 | A non-leaf keeps its size; a leaf gets `NewSize(size, factor)`; no other node changes |
| Resize.NewSizeScales | tm_trees.py:274-284 | The new size is `ceil(size * (1 + factor))` when growing and `max(1, floor(size * (1 + factor)))` when shrinking |
| Resize.GrowthIncreases | tm_trees.py:278-279 | Growing never lowers a non-negative size and strictly raises a positive one for a positive factor |
| Resize.ShrinkBounds | tm_trees.py:280-284 | Shrinking never goes below 1, strictly lowers a size above 1, and never raises a positive size |
| Resize.ShrinkByHalf | tm_trees.py:277-284 | Size 5 shrunk by factor -0.5 becomes 2 |
| Resize.ShrinkClampsAtOne | tm_trees.py:281-282 | Size 5 shrunk by factor -10 is clamped to 1 |
| Resize.GrowRoundsUp | tm_trees.py:277-279 | Size 10 grown by 0.15 becomes 12: the change 1.5 rounds up |
| Geometry.Ceil | tm_trees.py:277-277 | `math.ceil`: the least integer not below the value |
| TMTrees.Node.Expand | tm_trees.py:294-301 | Only this node's flag changes: it is set on an internal node, and a leaf is untouched |
| Display.ExpandShowsChildren | tm_trees.py:294-301 | After `expand` a leaf still shows itself and an internal node shows its children's frontiers |
| TMTrees.Node.ExpandAll | tm_trees.py:303-313 | The subtree becomes its old value tree with every internal node expanded; nothing else changes |
| TMTrees.OpenedIsExpandAll | tm_trees.py:303-313 | A subtree in which every internal node is expanded, reached by changing only internal flags, equals `ExpandAll` of the old subtree |
| Display.ExpandAllShowsLeaves | tm_trees.py:303-313 | After `expand_all` the displayed frontier is exactly the leaves, in order |
| Display.ExpandAllHitsLeaf | tm_trees.py:303-313 | After `expand_all` a hit test finds the first leaf containing the point |
| Display.ExpandThenExpandAll | tm_trees.py:294-313 | `expand` followed by `expand_all` is `expand_all` |
| TMTrees.Node.Collapse | tm_trees.py:315-326 | Every node of the subtree and the immediate parent are collapsed; no other node, size or rectangle changes; the subtree becomes its fully folded value tree |
| TMTrees.Node.Shut | tm_trees.py:320-324 | This node and its parent, if any, are collapsed and nothing else changes |
| TMTrees.Node.CollapseChildren | tm_trees.py:325-326 | After the loop every node of every child's subtree is collapsed and nothing outside the subtree changes |
| TMTrees.ClosedIsFolded | tm_trees.py:315-326 | A subtree with every flag cleared, reached by changing only flags, equals `Folded` of the old subtree |
| Display.FoldedClearsEverything | tm_trees.py:315-326 | A folded tree has no expanded node and displays as its root alone |
| TMTrees.Node.CollapseAll | tm_trees.py:328-339 | At a root: the whole tree becomes its folded value tree. Elsewhere: exactly this node and its ancestors lose their flag. Either way the root of the tree ends collapsed, so the displayed tree is its root alone |
| TMTrees.Node.CloseLine | tm_trees.py:333-339 | The walk up the parent links clears this node and every ancestor, and nothing else |
| TMTrees.Node.UpdateRectangles | tm_trees.py:130-173 | The subtree becomes `Layout` of its old value tree in `rect`: an empty tree is untouched, a named node takes `rect`, and only rectangles change |
| TMTrees.Node.Divide | tm_trees.py:146-173 | An internal node takes `rect` and its children end tiled by the treemap split, each child's subtree laid out in its share |
| TMTrees.Node.PlaceHeight | tm_trees.py:146-159 | The height loop lays out every non-last child's subtree in its split rectangle, leaves the last child's subtree untouched, and returns the last child's rectangle |
| TMTrees.Node.PlaceWidth | tm_trees.py:160-173 | The width loop lays out every non-last child's subtree in its split rectangle, leaves the last child's subtree untouched, and returns the last child's rectangle |
| TMTrees.Node.LayChild | tm_trees.py:149-159 | One child is laid out in the rectangle the split gives it, and the children not yet reached are untouched |
| TMTrees.PlacedIsLayout | tm_trees.py:130-173 | A subtree whose children are tiled at every level, reached by changing only rectangles, equals `Layout` of the old subtree |
| TreemapLayout.LayoutTiles | tm_trees.py:146-173 | After layout the node has `rect`; the split is along the height iff height >= width; the children are contiguous from `y` (or `x`), start there, and end exactly at the far edge; the other coordinate is shared |
| TreemapLayout.ChildRectsTile | tm_trees.py:146-173 | The split's rectangles follow one another along the axis and fill it exactly |
| TreemapLayout.LayoutChildRect | tm_trees.py:146-173 | Each named child's rectangle in the layout is its split rectangle |
| TreemapLayout.ChildRectShare | tm_trees.py:149-171 | A non-last child of positive size gets `floor(size / total * extent)` and the full other side; a zero-size child (height) or any child of a zero-size parent (width) gets an empty placement at the cursor |
| TreemapLayout.HeightStep | tm_trees.py:149-157 | One step of the height loop: a zero-size child gets `(x, y, 0, 0)` and does not advance the cursor; otherwise it gets the floored share and the cursor advances by it |
| TreemapLayout.WidthStep | tm_trees.py:163-171 | One step of the width loop: with a zero-size parent a child gets `(x, y, 0, 0)`; otherwise the floored share, and the cursor advances by it |
| TreemapLayout.CursorAfterUsed | tm_trees.py:148-172 | Each child is placed at the rectangle's origin plus the summed extents, along the split axis, of the children before it |
| TreemapLayout.LastChildAbsorbs | tm_trees.py:158-173 | The last child starts where the other children end. Its extent along the split axis is the parent's extent less the sum of theirs, and it spans the whole other side |
| TreemapLayout.ChildRectsNonNegative | tm_trees.py:146-173 | With consistent non-negative sizes every child rectangle has non-negative sides, so the last child's remainder is never negative |
| TreemapLayout.ConsistentLayoutOk | tm_trees.py:146-173 | With consistent non-negative sizes the layout never divides by zero |
| TreemapLayout.LayoutOnlyMovesRects | tm_trees.py:130-173 | Layout changes nothing but rectangles |
| TreemapLayout.ShareIsRealFloor | tm_trees.py:154-155 | The integer share equals the floor of the exact real proportion times the extent |
| TreemapLayout.ExampleSecond | tm_trees.py:160-173 | Sizes 10, 20, 30 in a 100-wide strip: the second child starts at 16 and is 33 wide |
| TreemapLayout.ExampleLast | tm_trees.py:172-173 | In the same strip the last child takes the remaining 51 |
| Geometry.FloorDivIsRealFloor | tm_trees.py:154-155 | The floor division used for shares is the floor of the exact quotient, for either sign |
| TMTrees.Node.GetRectangles | tm_trees.py:175-194 | Returns `Flatten` of the node's value tree: nothing for size 0, the node's rectangle and colour when collapsed or a leaf, else the children's results concatenated in order |
| Display.FlattenIsDrawnFrontier | tm_trees.py:175-194 | With consistent non-negative sizes the result is the frontier of the displayed tree in order, less its size-0 nodes |
| Display.ZeroDrawsNothing | tm_trees.py:183-184 | A consistent subtree of size 0 contributes nothing |
| TMTrees.Node.GetTreeAtPosition | tm_trees.py:196-218 | Returns the node `HitTest` finds in the node's value tree, or null when it finds none |
| TMTrees.Node.HitKids | tm_trees.py:213-218 | The loop returns the first child's non-null answer, in child order |
| Display.HitTestIsFirstContaining | tm_trees.py:196-218 | The hit test returns the first frontier node, in order, whose rectangle contains the point, edges included |
| Display.HitTestSound | tm_trees.py:196-218 | A returned node is on the frontier, contains the point, and no earlier frontier node does; none is returned iff no frontier node contains the point |
| Display.FirstContainingMeans | tm_trees.py:210-217 | The first match in a list is none iff nothing matches, and otherwise a matching element with no match before it |
| Coverage.HitCovers | tm_trees.py:196-199 | After `update_rectangles(r)` on a consistent tree with non-negative sizes, the hit test finds a node iff the point lies in `r`, edges included |
| Coverage.SplitCovers | tm_trees.py:146-173 | A point lies in some child's split rectangle iff it lies in the parent's rectangle |
| Coverage.ChildRectWithin | tm_trees.py:146-173 | Every child's split rectangle lies inside the parent's rectangle |
| Coverage.FindChild | tm_trees.py:146-173 | A point of the parent's rectangle at or past child `k`'s cursor lies in child `k`'s rectangle or a later one |
| Coverage.HitFromSome | tm_trees.py:213-218 | The loop over the subtrees finds a node iff some subtree's hit test does |
| TMTrees.Node.PathString | tm_trees.py:342-357 | The path string is the names from the root down to the node joined by the separator, plus the suffix when `final_node` holds or when the node is a non-root leaf |
| TMTrees.Node.Suffix | tm_trees.py:413-419 | The descriptor is " (file)" or " (folder)", and " (file)" exactly for a leaf, which is a regular file |
| TMTrees.PathStringEnds | tm_trees.py:342-357 | The string starts with the root's name; a leaf's string ends in " (file)" when final or below a root; an internal node's final string ends in " (folder)"; any other string is exactly the joined names |
| Forest.AdjoinShaped | tm_trees.py:86-123 | Adding a new node over distinct named roots keeps a well-shaped forest, with the roots' trees one level lower under it |
| Forest.AdjoinKid | tm_trees.py:102-102 | In the grown forest each of the new node's subtrees sits below it at its place in the list |
| Forest.AdjoinLast | tm_trees.py:121-123 | In the grown forest every non-root node is found at its recorded position in its parent's list |
| Forest.TopKid | tm_trees.py:86-123 | A child belongs to the same tree as its parent |
| Forest.AdjoinValid | tm_trees.py:86-123 | Once the new node lists the roots as its subtrees and is their parent, the grown forest's lists and links agree with its shape |
| Forest.NewRoot | tm_trees.py:86-123 | The initializer over roots of a valid forest creates a fresh parentless node whose subtrees are those roots; the forest grown by it is valid and no other link changes |

## Left out

- Floating point: the shares `float(sub.data_size / self.data_size)` and the
  `factor` of `change_size` are exact (integer floor division, and `real`).
  IEEE rounding is not modelled.
- `FileSystemTree.__init__`: it reads the file system. Trees are built with
  the constructor instead.
- `get_separator` returns `os.sep`. The separator is a parameter of
  `PathString`.
- The colour is drawn at random in the source. Here it is a constructor
  parameter.
- The propagation of sizes to all ancestors in `move` and `change_size` is
  commented out in the source and is not modelled.
- contract.py and the `python_ta` blocks are not part of this model.
- TMTrees.Node.UpdateRectangles: requires `LayoutOk`, which holds exactly
  when no division by zero occurs. The source raises `ZeroDivisionError`
  instead, when a height-split parent has size 0 and a non-last child does
  not. `ConsistentLayoutOk` shows that consistent sizes always satisfy it.
- TMTrees.Node.Move: the empty (unnamed) tree is not moved. Its source
  behaviour is the same as any leaf's, but a moved unnamed node would break
  the rule of `Shaped` that every child is named.
- TMTrees.Node.Move: the destination must be a node of the same forest as
  the moved leaf, because the ghost `Universe` describes one forest.
- TMTrees.Node.Move: when the leaf had no parent, the children lists are
  proved to be the moved shape but the parent links are not. The source
  leaves the leaf's link null while the leaf sits in `destination`'s list.
- The methods that walk the tree or change its lists and links take a ghost
  `Universe` and the node's index in it. These only tie the heap to the
  recorded shape and are not source parameters. The constructor, `Adopt`,
  `TotalSize`, `ChangeSize` and `Suffix` work on the node alone and take
  none.
- `update_data_sizes` stores the total once, after the loop, instead of
  accumulating into `data_size`. No intermediate value is observable, since
  no child reads its parent's size.
- TMTrees.Node.PathString: requires a named node. For the empty tree the
  source returns `None` when `final_node` is false and raises `TypeError`
  when it is true.
- Default arguments: the initializer's `data_size=0` and `get_path_string`'s
  `final_node=True` are not modelled. Callers pass both explicitly.
