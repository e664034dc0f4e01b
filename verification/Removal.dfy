/** Taking a level out of a tree: the three cases of the splice, seen as one removal from the price order. */
module Removal {
  import opened Types
  import opened LevelTree
  import opened PriceOrder
  import opened Rotations
  import opened Rebalance
  import opened Splice
  import opened Successor
  import opened Pools
  import opened LevelIndex

  /** How the node was unlinked: its only subtree moved up, or its successor took its place. */
  datatype Unlinking =
    | Lifted(path: Path, left: Tree, right: Tree)
    | Succeeded(path: Path, left: Tree, right: Tree, down: Path, y: int, yr: Tree)

  /** The array and the root after the unlinking of z, before its slot is released. */
  ghost predicate Unlinked(before: seq<PriceLevel>, after: seq<PriceLevel>, root: int, root': int, z: int,
                           rebalance: int, u: Unlinking)
  {
    InRange(before, z) && Descent(before, u.path, Node(u.left, z, u.right), root, before[z].parent, z) &&
    (before[z].parent == NONE || InRange(before, before[z].parent)) &&
    match u
    case Lifted(path, l, r) =>
      (l == Leaf || r == Leaf) &&
      var c := if l == Leaf then before[z].right else before[z].left;
      (c == NONE || InRange(before, c)) && after == ChildReplaced(before, before[z].parent, z, c) &&
      root' == SetRoot(root, before[z].parent, c) && rebalance == before[z].parent
    case Succeeded(path, l, r, down, y, yr) =>
      IsSuccessor(before, path, l, z, r, root, down, y, yr) && CanReplace(before, z, y) &&
      after == Writes(before, z, y) &&
      root' == SetRoot(root, before[z].parent, y) && rebalance == Rename(z, y, before[y].parent)
  }

  lemma {:induction false} OrderOfNode(path: Path, l: Tree, z: int, r: Tree)
    requires l == Leaf || r == Leaf
    ensures var b, a := Before(path) + Inorder(l), Inorder(r) + After(path);
            OrderAround(path, Node(l, z, r)) == b + [z] + a && OrderAround(path, if l == Leaf then r else l) == b + a
  {
    OrderSplit(path, l, z, r);
    assert Inorder(Leaf) == [];
    var b, a, i, j := Before(path), After(path), Inorder(l), Inorder(r);
    hide Inorder, Before, After;
    if l == Leaf {
      assert b + i == b && b + j + a == b + (j + a);
    } else {
      assert j + a == a;
    }
  }

  lemma {:induction false} LiftedRefills(before: seq<PriceLevel>, after: seq<PriceLevel>, root: int, path: Path,
                                         l: Tree, z: int, r: Tree)
    requires InRange(before, z) && Descent(before, path, Node(l, z, r), root, before[z].parent, z) &&
             (l == Leaf || r == Leaf)
    requires before[z].parent == NONE || InRange(before, before[z].parent)
    requires var c := if l == Leaf then before[z].right else before[z].left;
             (c == NONE || InRange(before, c)) && |after| == |before| &&
             forall i :: 0 <= i < |before| && i != z ==> after[i] == ChildReplaced(before, before[z].parent, z, c)[i]
    ensures var t, c := if l == Leaf then r else l, if l == Leaf then before[z].right else before[z].left;
            Refilled(before, after, path, before[z].parent, t, c) && Separate(path, t) && Balanced(t) &&
            -1 <= Height(t) - Height(Node(l, z, r)) <= 1 && Nodes(t) == Nodes(Node(l, z, r)) - {z}
  {
    var t, c, p := if l == Leaf then r else l, if l == Leaf then before[z].right else before[z].left, before[z].parent;
    assert Nodes(Node(l, z, r)) == Nodes(l) + {z} + Nodes(r) && Nodes(Leaf) == {} && Height(Leaf) == 0;
    assert Linked(before, t, c, z) && Disjoint(t);
    LinkedInRange(before, t, c, z);
    PathInRange(before, path, root, p, z);
    if p != NONE {
      SetChildRedirects(before, path, root, p, z, c);
    }
    LinkedMove(before, after, t, c, z, p);
  }

  /** What is left to do after z's slot has been released: nothing, or to rebalance from `rebalance`. */
  lemma {:induction false} AfterUnlinking(before: seq<PriceLevel>, unlinked: seq<PriceLevel>, after: seq<PriceLevel>,
                                          root: int, root': int,
                                          z: int, rebalance: int, u: Unlinking, t: Tree)
    returns (next: Climb, b: seq<int>, a: seq<int>)
    requires Unlinked(before, unlinked, root, root', z, rebalance, u) && |before| <= MAX_INDEX
    requires |after| == |unlinked| && forall i :: 0 <= i < |unlinked| && i != z ==> after[i] == unlinked[i]
    requires Avl(before, t, root)
    requires OrderAround(u.path, Node(u.left, z, u.right)) == Inorder(t) &&
             NodesAround(u.path, Node(u.left, z, u.right)) == Nodes(t)
    ensures next.Climb? <==> rebalance != NONE
    ensures Inorder(t) == b + [z] + a
    ensures next.Climb? ==>
      Climbing(after, next.path, root', next.left, rebalance, next.right, next.hl, next.hr) &&
      OrderAround(next.path, Node(next.left, rebalance, next.right)) == b + a &&
      NodesAround(next.path, Node(next.left, rebalance, next.right)) == Nodes(t) - {z}
    ensures next.Done? ==>
      Avl(after, next.tree, root') && Inorder(next.tree) == b + a &&
      Nodes(next.tree) == Nodes(t) - {z}
  {
    match u
    case Lifted(path, l, r) =>
      next := AfterLifting(before, after, root, root', z, path, l, r);
      b, a := Before(path) + Inorder(l), Inorder(r) + After(path);
    case Succeeded(path, l, r, down, y, yr) =>
      hide Climbing, Inorder, Before, After, OrderAround, NodesAround, IsSuccessor, CanReplace, Writes;
      TreeMutual(before, t, root, NONE);
      assert Removed(before, after, z, y);
      next := ReplaceBySuccessor(before, after, path, l, z, r, root, down, y, yr);
      b, a := Before(path) + Inorder(l), [y] + Inorder(yr) + After(down);
  }

  lemma {:induction false} AfterLifting(before: seq<PriceLevel>, after: seq<PriceLevel>, root: int, root': int, z: int,
                                        path: Path, l: Tree, r: Tree)
    returns (next: Climb)
    requires InRange(before, z) && Descent(before, path, Node(l, z, r), root, before[z].parent, z) &&
             (l == Leaf || r == Leaf)
    requires before[z].parent == NONE || InRange(before, before[z].parent)
    requires var c := if l == Leaf then before[z].right else before[z].left;
             (c == NONE || InRange(before, c)) && |after| == |before| && root' == SetRoot(root, before[z].parent, c) &&
             forall i :: 0 <= i < |before| && i != z ==> after[i] == ChildReplaced(before, before[z].parent, z, c)[i]
    ensures next.Climb? <==> before[z].parent != NONE
    ensures var b, a, parent := Before(path) + Inorder(l), Inorder(r) + After(path), before[z].parent;
            OrderAround(path, Node(l, z, r)) == b + [z] + a &&
            match next
            case Climb(up, cl, cr, hl, hr) =>
              Climbing(after, up, root', cl, parent, cr, hl, hr) &&
              OrderAround(up, Node(cl, parent, cr)) == b + a &&
              NodesAround(up, Node(cl, parent, cr)) == NodesAround(path, Node(l, z, r)) - {z}
            case Done(t) =>
              Avl(after, t, root') && Inorder(t) == b + a && Nodes(t) == NodesAround(path, Node(l, z, r)) - {z}
  {
    var t, c := if l == Leaf then r else l, if l == Leaf then before[z].right else before[z].left;
    LiftedRefills(before, after, root, path, l, z, r);
    OrderOfNode(path, l, z, r);
    assert z !in PathNodes(path);
    hide Climbing, Refilled, Inorder, Before, After, Linked, PathLinked, Balanced, PathBalanced, PathHeights, Separate,
         OrderAround, SetChild, ChildReplaced, Nodes, PathNodes, Height, Avl;
    next := Refill(before, after, path, root, before[z].parent, z, Height(Node(l, z, r)), t, c);
  }

  /** Unlinking touches links only, and only of nodes of the tree. */
  lemma {:induction false} UnlinkingWithin(before: seq<PriceLevel>, after: seq<PriceLevel>, root: int, root': int,
                                           z: int, rebalance: int,
                                           u: Unlinking, t: Tree)
    requires Unlinked(before, after, root, root', z, rebalance, u) && Avl(before, t, root) && z in Nodes(t)
    requires u.Succeeded? ==> u.y in Nodes(t)
    ensures Within(before, after, Nodes(t))
  {
    TreeMutual(before, t, root, NONE);
    hide Descent, IsSuccessor, Linked, Avl, Mutual, Within, ChildReplaced, Writes, CanReplace, Nodes;
    match u
    case Lifted(path, l, r) =>
      LiftedWithin(before, Nodes(t), root, z, if l == Leaf then before[z].right else before[z].left);
    case Succeeded(path, l, r, down, y, yr) =>
      WritesWithin(before, Nodes(t), root, z, y);
  }

  lemma {:induction false} CutWithin(before: seq<PriceLevel>, after: seq<PriceLevel>, z: int, y: int, nodes: set<int>)
    requires CanReplace(before, z, y) && CutAt(before, after, z, y)
    requires y in nodes && before[y].parent in nodes && before[z].right in nodes &&
             (before[y].right != NONE ==> before[y].right in nodes)
    ensures Within(before, after, nodes) && after[z] == before[z]
  {}

  lemma {:induction false} PlacedWithin(before: seq<PriceLevel>, after: seq<PriceLevel>, z: int, y: int, a: int,
                                        pz: int, nodes: set<int>)
    requires PlacedAt(before, after, z, y, a, pz) && y in nodes && a in nodes && (pz != NONE ==> pz in nodes)
    ensures Within(before, after, nodes)
  {}

  lemma {:induction false} WritesWithin(levels: seq<PriceLevel>, nodes: set<int>, root: int, z: int, y: int)
    requires CanReplace(levels, z, y) && Mutual(levels, nodes, root, NONE) && z in nodes && y in nodes
    ensures Within(levels, Writes(levels, z, y), nodes)
  {
    var l0 := CutWrites(levels, z, y);
    var a, pz := levels[z].left, levels[z].parent;
    MutualMembers(levels, nodes, root, z);
    MutualMembers(levels, nodes, root, y);
    hide Mutual, Within;
    CutWritesAt(levels, z, y);
    CutWithin(levels, l0, z, y, nodes);
    hide CutWrites;
    PlaceWrites(l0, z, y, a, pz);
    PlacedWithin(l0, Writes(levels, z, y), z, y, a, pz, nodes);
    WithinTransitive(levels, l0, Writes(levels, z, y), nodes);
  }

  lemma {:induction false} MutualMembers(levels: seq<PriceLevel>, nodes: set<int>, root: int, i: int)
    requires Mutual(levels, nodes, root, NONE) && i in nodes
    ensures InRange(levels, i)
    ensures levels[i].left != NONE ==> levels[i].left in nodes
    ensures levels[i].right != NONE ==> levels[i].right in nodes
    ensures levels[i].parent != NONE ==> levels[i].parent in nodes
  {}

  lemma {:induction false} LiftedWithin(levels: seq<PriceLevel>, nodes: set<int>, root: int, z: int, c: int)
    requires Mutual(levels, nodes, root, NONE) && z in nodes && InRange(levels, z) &&
             (c == levels[z].left || c == levels[z].right)
    requires c == NONE || InRange(levels, c)
    requires levels[z].parent == NONE || InRange(levels, levels[z].parent)
    ensures Within(levels, ChildReplaced(levels, levels[z].parent, z, c), nodes)
  {
    MutualMembers(levels, nodes, root, z);
  }

  lemma {:induction false} NodePlace(levels: seq<PriceLevel>, path: Path, l: Tree, z: int, r: Tree, root: int)
    requires InRange(levels, z) && Descent(levels, path, Node(l, z, r), root, levels[z].parent, z)
    ensures levels[z].left == NONE <==> l == Leaf
    ensures levels[z].right == NONE <==> r == Leaf
    ensures levels[z].left == NONE || InRange(levels, levels[z].left)
    ensures levels[z].right == NONE || InRange(levels, levels[z].right)
    ensures levels[z].parent == NONE || InRange(levels, levels[z].parent)
  {
    LinkedInRange(levels, l, levels[z].left, z);
    LinkedInRange(levels, r, levels[z].right, z);
  }

  lemma {:induction false} ChainStart(base: Path)
    ensures LeftChain(base, base)
  {}

  /** Between the writes of the two-children case, the links read next are still those of z. */
  lemma {:induction false} BetweenWrites(levels: seq<PriceLevel>, z: int, y: int)
    requires CanReplace(levels, z, y)
    ensures var l0 := CutWrites(levels, z, y);
            |l0| == |levels| && l0[z] == levels[z] && (l0[y].right == NONE || InRange(levels, l0[y].right))
  {
    CutWritesAt(levels, z, y);
  }

  lemma {:induction false} ReleaseReady(before: seq<PriceLevel>, unlinked: seq<PriceLevel>, t: Tree, root: int, z: int)
    requires PriceTree(before, t, root) && Within(before, unlinked, Nodes(t)) && z in Nodes(t)
    ensures |unlinked| == |before| && InRange(before, z) && unlinked[z].active
  {
    assert before[z] == unlinked[z].(left := before[z].left, right := before[z].right, parent := before[z].parent,
                                     height := before[z].height);
  }

  /** From before the removal to after it, only nodes of the tree have changed, and only z in more than its links. */
  ghost predicate RemovedOnly(before: seq<PriceLevel>, after: seq<PriceLevel>, nodes: set<int>, z: int) {
    |after| == |before| &&
    forall i :: 0 <= i < |before| ==>
      (i !in nodes ==> after[i] == before[i]) && (i != z ==> WithoutLinks(after[i]) == WithoutLinks(before[i]))
  }

  lemma {:induction false} RemovalFrame(before: seq<PriceLevel>, unlinked: seq<PriceLevel>, released: seq<PriceLevel>,
                                        after: seq<PriceLevel>,
                                        nodes: set<int>, z: int, head: int)
    requires Within(before, unlinked, nodes) && z in nodes && InRange(unlinked, z)
    requires released == unlinked[z := BlankLevel(head)] && Within(released, after, nodes - {z})
    ensures RemovedOnly(before, after, nodes, z)
  {
    forall i | 0 <= i < |before| && i != z ensures WithoutLinks(after[i]) == WithoutLinks(before[i]) {
      assert before[i] == unlinked[i].(left := before[i].left, right := before[i].right, parent := before[i].parent,
                                       height := before[i].height);
      assert released[i] == after[i].(left := released[i].left, right := released[i].right,
                                      parent := released[i].parent, height := released[i].height);
    }
  }

  lemma {:induction false} RemovalDone(before: seq<PriceLevel>, after: seq<PriceLevel>, t: Tree, root: int, t': Tree,
                                       root': int,
                                       b: seq<int>, z: int, a: seq<int>)
    requires PriceTree(before, t, root) && RemovedOnly(before, after, Nodes(t), z) && z in Nodes(t)
    requires Avl(after, t', root') && Inorder(t) == b + [z] + a && Inorder(t') == b + a && Nodes(t') == Nodes(t) - {z}
    ensures PriceTree(after, t', root') && LevelDropped(before, after, z)
  {
    SortedDrop(before, b, z, a);
    forall i | i in Nodes(t') ensures InRange(before, i) && after[i].price == before[i].price && after[i].active {
      assert WithoutLinks(after[i]) == WithoutLinks(before[i]);
    }
    forall i | 0 <= i < |before| && i in b + a ensures after[i].price == before[i].price {
      NodesInorder(t', i);
    }
    hide Avl;
    SortedFrame(before, after, b + a);
  }

  lemma {:induction false} RemovalSpares(before: seq<PriceLevel>, after: seq<PriceLevel>, t: Tree, root: int,
                                         nodes: set<int>, z: int)
    requires PriceTree(before, t, root) && RemovedOnly(before, after, nodes, z) && Nodes(t) !! nodes
    ensures PriceTree(after, t, root)
  {
    PriceTreeFrame(before, after, t, root);
  }

  lemma {:induction false} TreeAvoids(levels: seq<PriceLevel>, t: Tree, root: int, head: int, free: seq<int>, z: int)
    requires PriceTree(levels, t, root) && LevelPool(levels, head, free)
    ensures forall i :: i in Nodes(t) ==> i !in free
    ensures forall i :: i in Nodes(t) - {z} ==> i !in [z] + free
  {
    FreeNotInTree(levels, t, root, head, free);
  }

  lemma {:induction false} PriceTreeAvl(levels: seq<PriceLevel>, t: Tree, root: int)
    requires PriceTree(levels, t, root)
    ensures Avl(levels, t, root)
  {}

  lemma {:induction false} RemovedLengths(before: seq<PriceLevel>, after: seq<PriceLevel>, nodes: set<int>, z: int)
    requires RemovedOnly(before, after, nodes, z)
    ensures |after| == |before|
  {}
}
