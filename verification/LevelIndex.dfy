/** The invariant of the level array: two AVL trees in price order and a free list share it. */
module LevelIndex {
  import opened Types
  import opened LevelTree
  import opened PriceOrder
  import opened Rotations
  import opened Rebalance
  import opened Splice
  import opened Pools

  /** The AVL tree t at `root` is in strict price order. */
  ghost predicate PriceTree(levels: seq<PriceLevel>, t: Tree, root: int) {
    Avl(levels, t, root) && Sorted(levels, Inorder(t)) &&
    forall i :: i in Nodes(t) ==> InRange(levels, i) && levels[i].active
  }

  ghost predicate LevelsOk(levels: seq<PriceLevel>, bids: Tree, bidRoot: int, asks: Tree, askRoot: int, freeLevel: int,
                           free: seq<int>) {
    |levels| <= MAX_INDEX && PriceTree(levels, bids, bidRoot) && PriceTree(levels, asks, askRoot) &&
    Nodes(bids) !! Nodes(asks) && LevelPool(levels, freeLevel, free)
  }

  ghost predicate HasPrice(levels: seq<PriceLevel>, t: Tree, p: u32) {
    exists j :: j in Nodes(t) && InRange(levels, j) && levels[j].price == p
  }

  /** Everything that an operation on levels can change. */
  datatype LevelsView = LevelsView(levels: seq<PriceLevel>, freeLevel: int, free: seq<int>, active: int,
                                   bidRoot: int, askRoot: int, bids: Tree, asks: Tree)
  {
    function TreeOf(side: Side): Tree { if side == Buy then bids else asks }

    function RootOf(side: Side): int { if side == Buy then bidRoot else askRoot }
  }

  function Opposite(side: Side): Side { if side == Buy then Sell else Buy }

  ghost predicate ViewOk(v: LevelsView) {
    LevelsOk(v.levels, v.bids, v.bidRoot, v.asks, v.askRoot, v.freeLevel, v.free)
  }

  /** From v to w, level n has been taken from the pool and entered in one side's tree at price p. */
  ghost predicate Grown(v: LevelsView, w: LevelsView, side: Side, p: u32, n: int) {
    v.free != [] && n == v.free[0] && w.free == v.free[1..] && w.active == v.active + 1 &&
    LevelAdded(v.levels, w.levels, n, p) &&
    Nodes(w.TreeOf(side)) == Nodes(v.TreeOf(side)) + {n} && w.TreeOf(Opposite(side)) == v.TreeOf(Opposite(side)) &&
    w.RootOf(Opposite(side)) == v.RootOf(Opposite(side))
  }

  /** From v to w, level z has been taken out of one side's tree and returned to the pool. */
  ghost predicate Shrunk(v: LevelsView, w: LevelsView, side: Side, z: int) {
    w.free == [z] + v.free && w.active == v.active - 1 && LevelDropped(v.levels, w.levels, z) &&
    Nodes(w.TreeOf(side)) == Nodes(v.TreeOf(side)) - {z} && w.TreeOf(Opposite(side)) == v.TreeOf(Opposite(side)) &&
    w.RootOf(Opposite(side)) == v.RootOf(Opposite(side))
  }

  /** A level as LevelAcquire hands it out. */
  function FreshLevel(price: u32): PriceLevel {
    PriceLevel(price, 0, 0, NONE, NONE, NONE, NONE, NONE, NONE, 1, true)
  }

  function WithoutLinks(l: PriceLevel): PriceLevel { l.(left := NONE, right := NONE, parent := NONE, height := 1) }

  lemma {:induction false} FreeNotInTree(levels: seq<PriceLevel>, t: Tree, root: int, head: int, free: seq<int>)
    requires PriceTree(levels, t, root) && LevelPool(levels, head, free)
    ensures forall i :: i in free ==> i !in Nodes(t)
  {}

  /** A tree does not see changes that spare the links and prices of its nodes. */
  lemma {:induction false} PriceTreeFrame(before: seq<PriceLevel>, after: seq<PriceLevel>, t: Tree, root: int)
    requires PriceTree(before, t, root) && |after| == |before|
    requires forall i :: i in Nodes(t) && InRange(before, i) ==>
      SameLinks(before[i], after[i]) && after[i].price == before[i].price && after[i].active
    ensures PriceTree(after, t, root)
  {
    LinkedFrame(before, after, t, root, NONE);
    forall i | 0 <= i < |before| && i in Inorder(t) ensures after[i].price == before[i].price {
      NodesInorder(t, i);
    }
    SortedFrame(before, after, Inorder(t));
  }

  /** Data that no tree operation touches: prices and flags travel with SameData. */
  lemma {:induction false} PriceTreeFrom(before: seq<PriceLevel>, after: seq<PriceLevel>, t: Tree, root: int,
                                         order: seq<int>)
    requires Avl(after, t, root) && Inorder(t) == order && Sorted(before, order) && SameData(before, after)
    requires forall i :: i in Nodes(t) ==> InRange(before, i) && before[i].active
    ensures PriceTree(after, t, root)
  {
    SortedFrame(before, after, order);
  }

  // ---------- Searching ----------

  lemma {:induction false} StartSearch(levels: seq<PriceLevel>, t: Tree, root: int, p: int)
    requires PriceTree(levels, t, root)
    ensures Descent(levels, Top, t, root, NONE, root) && Narrowed(levels, Top, t, p)
    ensures NodesAround(Top, t) == Nodes(t) && OrderAround(Top, t) == Inorder(t)
  {
    DescentTop(levels, t, root);
  }

  lemma {:induction false} DescentShape(levels: seq<PriceLevel>, path: Path, t: Tree, root: int, parent: int, cur: int)
    requires Descent(levels, path, t, root, parent, cur)
    ensures cur == NONE <==> t == Leaf
    ensures t.Node? ==>
      t.at == cur && InRange(levels, cur) && levels[cur].parent == parent &&
      cur in NodesAround(path, t)
  {}

  lemma {:induction false} SearchFailed(levels: seq<PriceLevel>, path: Path, t: Tree, root: int, parent: int, p: int)
    requires Descent(levels, path, t, root, parent, NONE) && Narrowed(levels, path, t, p)
    ensures t == Leaf
    ensures forall j :: j in NodesAround(path, t) ==> InRange(levels, j) && levels[j].price != p
  {
    hide Sorted, AllAbove, AllBelow;
    NotFound(levels, path, p);
  }

  // ---------- Adding a level ----------

  lemma {:induction false} LeafFacts(n: int)
    ensures var leaf := Node(Leaf, n, Leaf);
            Inorder(leaf) == [n] && Nodes(leaf) == {n} && Disjoint(leaf) && Balanced(leaf) && Height(leaf) == 1
  {
    assert Inorder(Leaf) == [] && Nodes(Leaf) == {} && Height(Leaf) == 0;
  }

  lemma {:induction false} SingleLevel(levels: seq<PriceLevel>, t: Tree, n: int)
    requires PriceTree(levels, t, NONE) && InRange(levels, n)
    requires levels[n].left == NONE && levels[n].right == NONE && levels[n].parent == NONE && levels[n].height == 1 &&
             levels[n].active
    ensures t == Leaf && PriceTree(levels, Node(Leaf, n, Leaf), n)
    ensures Nodes(Node(Leaf, n, Leaf)) == Nodes(t) + {n}
    ensures Within(levels, levels, Nodes(Node(Leaf, n, Leaf)))
  {
    LeafFacts(n);
    assert Linked(levels, Leaf, NONE, n);
    assert Linked(levels, Node(Leaf, n, Leaf), n, NONE);
  }

  /** Where a search for a price that is not in the tree ends: the hole is on the side that the price says. */
  lemma {:induction false} SearchEnd(levels: seq<PriceLevel>, path: Path, t: Tree, root: int, parent: int, p: int,
                                     nodes: set<int>)
    requires Descent(levels, path, t, root, parent, NONE) && Narrowed(levels, path, t, p) && path != Top &&
             NodesAround(path, t) == nodes
    ensures t == Leaf && InRange(levels, parent) && parent in nodes
    ensures p < levels[parent].price <==> path.InLeft?
  {
    if path.InLeft? {
      assert After(path)[0] == parent;
    } else {
      assert Before(path)[|Before(path)| - 1] == parent;
    }
  }

  /** Linking n into the hole. */
  ghost predicate Hung(before: seq<PriceLevel>, after: seq<PriceLevel>, path: Path, parent: int, n: int) {
    InRange(before, n) && InRange(before, parent) && n != parent &&
    after == (var l := before[n := before[n].(parent := parent)];
              l[parent := if path.InLeft? then l[parent].(left := n) else l[parent].(right := n)])
  }

  lemma {:induction false} AttachLeaf(before: seq<PriceLevel>, after: seq<PriceLevel>, path: Path, root: int,
                                      parent: int, n: int, p: int, t: Tree)
    returns (next: Climb)
    requires PriceTree(before, t, root) && Descent(before, path, Leaf, root, parent, NONE) && path != Top &&
             NodesAround(path, Leaf) == Nodes(t)
    requires n !in Nodes(t) && Hung(before, after, path, parent, n)
    requires before[n].left == NONE && before[n].right == NONE && before[n].height == 1
    ensures next.Climb? && Climbing(after, next.path, root, next.left, parent, next.right, next.hl, next.hr)
    ensures OrderAround(next.path, Node(next.left, parent, next.right)) == Before(path) + [n] + After(path)
    ensures NodesAround(next.path, Node(next.left, parent, next.right)) == Nodes(t) + {n}
    ensures SameData(before, after)
  {
    hide PriceTree, Refilled, Hung, Climbing, Linked, PathLinked, PathHeights, PathBalanced, PathDisjoint, PathNodes,
         Before, After;
    var leaf := Node(Leaf, n, Leaf);
    LeafFacts(n);
    LeafRefills(before, after, path, root, parent, n);
    HungKeepsData(before, after, path, parent, n);
    assert Separate(path, leaf);
    next := Refill(before, after, path, root, parent, NONE, 0, leaf, n);
  }

  lemma {:induction false} LeafRefills(before: seq<PriceLevel>, after: seq<PriceLevel>, path: Path, root: int,
                                       parent: int, n: int)
    requires PathLinked(before, path, root, parent, NONE) && path != Top && Hung(before, after, path, parent, n) &&
             n !in PathNodes(path)
    requires before[n].left == NONE && before[n].right == NONE && before[n].height == 1
    ensures Refilled(before, after, path, parent, Node(Leaf, n, Leaf), n)
  {
    PathInRange(before, path, root, parent, NONE);
    LeafFacts(n);
    hide PathLinked, PathNodes;
    assert Linked(after, Node(Leaf, n, Leaf), n, parent);
  }

  lemma {:induction false} HungKeepsData(before: seq<PriceLevel>, after: seq<PriceLevel>, path: Path, parent: int,
                                         n: int)
    requires Hung(before, after, path, parent, n)
    ensures SameData(before, after)
  {}

  /** After rebalancing, the tree holds the new level at its place in the price order. */
  lemma {:induction false} AttachDone(before: seq<PriceLevel>, hung: seq<PriceLevel>, after: seq<PriceLevel>,
                                      path: Path, root: int,
                                      parent: int, n: int, p: int, t: Tree, next: Climb, t': Tree, root': int)
    requires PriceTree(before, t, root) && Narrowed(before, path, Leaf, p)
    requires InRange(before, n) && before[n].price == p && before[n].active
    requires Hung(before, hung, path, parent, n) && parent in Nodes(t) && n !in Nodes(t)
    requires SameData(before, hung) && Within(hung, after, Nodes(t'))
    requires Avl(after, t', root') && Inorder(t') == Before(path) + [n] + After(path) && Nodes(t') == Nodes(t) + {n}
    ensures PriceTree(after, t', root') && Within(before, after, Nodes(t'))
  {
    assert Before(path) + Inorder(Leaf) + After(path) == Before(path) + After(path);
    SortedJoin(before, Before(path), n, After(path));
    hide Sorted, Avl, Narrowed;
    assert Within(before, hung, Nodes(t'));
    WithinTransitive(before, hung, after, Nodes(t'));
    PriceTreeFrom(before, after, t', root', Before(path) + [n] + After(path));
  }

  // ---------- Level operations on the whole array ----------

  /** Level `n` has been taken from the pool for price p; nothing else about any level's contents has changed. */
  ghost predicate LevelAdded(before: seq<PriceLevel>, after: seq<PriceLevel>, n: int, p: u32) {
    |after| == |before| && InRange(before, n) && WithoutLinks(after[n]) == FreshLevel(p) &&
    forall i :: 0 <= i < |before| && i != n ==> WithoutLinks(after[i]) == WithoutLinks(before[i])
  }

  /** Level z has gone back to the pool; nothing else about any level's contents has changed. */
  ghost predicate LevelDropped(before: seq<PriceLevel>, after: seq<PriceLevel>, z: int) {
    |after| == |before| && InRange(before, z) &&
    forall i :: 0 <= i < |before| && i != z ==> WithoutLinks(after[i]) == WithoutLinks(before[i])
  }

  /** Taking a level from the pool leaves both trees and the rest of the pool in place. */
  lemma {:induction false} AcquireKeeps(before: seq<PriceLevel>, after: seq<PriceLevel>, t: Tree, root: int, head: int,
                                        free: seq<int>, p: u32)
    requires PriceTree(before, t, root) && LevelPool(before, head, free) && free != []
    requires InRange(before, free[0]) && after == before[free[0] := FreshLevel(p)]
    ensures PriceTree(after, t, root) && free[0] !in Nodes(t)
  {
    FreeNotInTree(before, t, root, head, free);
    assert free[0] in free;
    PriceTreeFrame(before, after, t, root);
  }

  /** A change within one tree leaves the other tree and the free list alone. */
  lemma {:induction false} OtherTreeKeeps(before: seq<PriceLevel>, after: seq<PriceLevel>, t: Tree, root: int,
                                          nodes: set<int>)
    requires PriceTree(before, t, root) && Within(before, after, nodes) && Nodes(t) !! nodes
    ensures PriceTree(after, t, root)
  {
    PriceTreeFrame(before, after, t, root);
  }

  /** Neither the nodes of a tree nor the level just taken are in the rest of the pool. */
  lemma {:induction false} TreesAvoidPool(levels: seq<PriceLevel>, t: Tree, root: int, head: int, free: seq<int>)
    requires PriceTree(levels, t, root) && LevelPool(levels, head, free) && free != []
    ensures forall i :: i in Nodes(t) + {free[0]} ==> i !in free[1..]
  {
    FreeNotInTree(levels, t, root, head, free);
    LevelPoolPop(levels, head, free);
    forall i | i in free[1..] ensures i in free {}
  }

  lemma {:induction false} PoolKeeps(before: seq<PriceLevel>, after: seq<PriceLevel>, head: int, free: seq<int>,
                                     nodes: set<int>)
    requires LevelPool(before, head, free) && Within(before, after, nodes) && forall i :: i in nodes ==> i !in free
    ensures LevelPool(after, head, free)
  {
    LevelPoolFrame(before, after, head, free);
  }

  lemma {:induction false} AddedSummary(start: seq<PriceLevel>, taken: seq<PriceLevel>, after: seq<PriceLevel>, n: int,
                                        p: u32, nodes: set<int>)
    requires InRange(start, n) && taken == start[n := FreshLevel(p)] && Within(taken, after, nodes)
    ensures LevelAdded(start, after, n, p)
  {
    forall i | 0 <= i < |start| ensures WithoutLinks(after[i]) == WithoutLinks(taken[i]) {
      assert taken[i] == after[i].(left := taken[i].left, right := taken[i].right, parent := taken[i].parent,
                                   height := taken[i].height);
    }
  }

  lemma {:induction false} AddedLength(before: seq<PriceLevel>, after: seq<PriceLevel>, n: int, p: u32)
    requires LevelAdded(before, after, n, p)
    ensures |after| == |before|
  {}
}
