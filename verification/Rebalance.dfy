/** The invariant of the loop that rebalances a tree from a changed node up to the root. */
module Rebalance {
  import opened Types
  import opened LevelTree
  import opened AvlBalance
  import opened PriceOrder
  import opened Rotations

  /**
   Node i is in focus; its children are balanced, had heights hl and hr when the tree was last an AVL
   tree, and the path above still stores the heights of that time.
   */
  ghost predicate Climbing(levels: seq<PriceLevel>, path: Path, root: int, l: Tree, i: int, r: Tree, hl: int, hr: int) {
    Focus(levels, path, root, l, i, r) && Balanced(l) && Balanced(r) && Disturbed(l, r, hl, hr) &&
    PathHeights(levels, path, 1 + Max(hl, hr)) && PathBalanced(path, 1 + Max(hl, hr))
  }

  /** The array stores the AVL tree t at `root`, with every stored height exact. */
  ghost predicate Avl(levels: seq<PriceLevel>, t: Tree, root: int) {
    Linked(levels, t, root, NONE) && Balanced(t) && Disjoint(t)
  }

  /** The price order of the tree around the node in focus. */
  function OrderAround(path: Path, t: Tree): seq<int> { Before(path) + Inorder(t) + After(path) }

  function NodesAround(path: Path, t: Tree): set<int> { PathNodes(path) + Nodes(t) }

  lemma {:induction false} ClimbTop(levels: seq<PriceLevel>, root: int, t: Tree)
    requires Settled(levels, Top, root, t) && Balanced(t)
    ensures Avl(levels, t, root) && t.Node? && InRange(levels, t.at) && levels[t.at].parent == NONE
    ensures Inorder(t) == OrderAround(Top, t) && Nodes(t) == NodesAround(Top, t)
  {}

  lemma {:induction false} ClimbLeft(levels: seq<PriceLevel>, up: Path, j: int, s: Tree, root: int, t: Tree, h: int)
    requires Settled(levels, InLeft(up, j, s), root, t) && Balanced(t) && -1 <= Height(t) - h <= 1
    requires PathHeights(levels, InLeft(up, j, s), h) && PathBalanced(InLeft(up, j, s), h)
    ensures t.Node? && InRange(levels, t.at) && levels[t.at].parent == j && j != NONE
    ensures Climbing(levels, up, root, t, j, s, h, Height(s))
    ensures OrderAround(up, Node(t, j, s)) == OrderAround(InLeft(up, j, s), t)
    ensures NodesAround(up, Node(t, j, s)) == NodesAround(InLeft(up, j, s), t)
  {
    hide Focus, Inorder, Nodes, Before, After, PathNodes, Linked, PathLinked, Separate, OrderAround, NodesAround,
         Balanced, Height;
    FocusUpLeft(levels, up, root, t, j, s, levels[t.at].parent);
    OrderLeft(up, j, s, t);
  }

  lemma {:induction false} OrderLeft(up: Path, j: int, s: Tree, t: Tree)
    ensures OrderAround(up, Node(t, j, s)) == OrderAround(InLeft(up, j, s), t)
    ensures NodesAround(up, Node(t, j, s)) == NodesAround(InLeft(up, j, s), t)
  {
    OrderSplit(up, t, j, s);
  }

  lemma {:induction false} ClimbRight(levels: seq<PriceLevel>, up: Path, s: Tree, j: int, root: int, t: Tree, h: int)
    requires Settled(levels, InRight(up, s, j), root, t) && Balanced(t) && -1 <= Height(t) - h <= 1
    requires PathHeights(levels, InRight(up, s, j), h) && PathBalanced(InRight(up, s, j), h)
    ensures t.Node? && InRange(levels, t.at) && levels[t.at].parent == j && j != NONE
    ensures Climbing(levels, up, root, s, j, t, Height(s), h)
    ensures OrderAround(up, Node(s, j, t)) == OrderAround(InRight(up, s, j), t)
    ensures NodesAround(up, Node(s, j, t)) == NodesAround(InRight(up, s, j), t)
  {
    hide Focus, Inorder, Nodes, Before, After, PathNodes, Linked, PathLinked, Separate, OrderAround, NodesAround,
         Balanced, Height;
    FocusUpRight(levels, up, root, s, j, t, levels[t.at].parent);
    OrderRight(up, s, j, t);
    assert Max(h, Height(s)) == Max(Height(s), h);
  }

  lemma {:induction false} OrderRight(up: Path, s: Tree, j: int, t: Tree)
    ensures OrderAround(up, Node(s, j, t)) == OrderAround(InRight(up, s, j), t)
    ensures NodesAround(up, Node(s, j, t)) == NodesAround(InRight(up, s, j), t)
  {
    OrderSplit(up, s, j, t);
  }

  /** Where the loop stands after one turn: at the parent, or done. */
  datatype Climb = Climb(path: Path, left: Tree, right: Tree, hl: int, hr: int) | Done(tree: Tree)

  lemma {:induction false} LocalHeights(before: seq<PriceLevel>, after: seq<PriceLevel>, path: Path, nodes: set<int>,
                                        h: int)
    requires Local(before, after, path, nodes) && PathHeights(before, path, h)
    ensures PathHeights(after, path, h)
  {
    PathHeightsFrame(before, after, path, h);
  }

  /** One turn of the loop, given what the rotations did to the array. */
  lemma {:induction false} ClimbStep(before: seq<PriceLevel>, after: seq<PriceLevel>, path: Path, root: int,
                                     l: Tree, i: int, r: Tree, hl: int, hr: int, root': int)
    returns (next: Climb)
    requires Climbing(before, path, root, l, i, r, hl, hr)
    requires Settled(after, path, root', Rebalanced(l, i, r))
    requires Local(before, after, path, Nodes(Node(l, i, r)))
    ensures Rebalanced(l, i, r).Node? && InRange(after, Rebalanced(l, i, r).at)
    ensures var parent := after[Rebalanced(l, i, r).at].parent;
            match next
            case Climb(up, l', r', hl', hr') =>
              parent != NONE && path != Top && up == path.up &&
              Climbing(after, up, root', l', parent, r', hl', hr') &&
              OrderAround(up, Node(l', parent, r')) == OrderAround(path, Node(l, i, r)) &&
              NodesAround(up, Node(l', parent, r')) == NodesAround(path, Node(l, i, r))
            case Done(t) =>
              parent == NONE && Avl(after, t, root') &&
              Inorder(t) == OrderAround(path, Node(l, i, r)) && Nodes(t) == NodesAround(path, Node(l, i, r))
  {
    var t, h := Rebalanced(l, i, r), 1 + Max(hl, hr);
    hide Focus, Settled, Local, Balanced, Disturbed, Rebalanced, Inorder, Nodes, PathHeights, PathBalanced, Before,
         After, PathNodes, Height, Max;
    RebalancedIsBalanced(l, i, r, hl, hr);
    RebalancedKeepsOrder(l, i, r);
    LocalHeights(before, after, path, Nodes(Node(l, i, r)), h);
    match path {
      case Top =>
        ClimbTop(after, root', t);
        next := Done(t);
      case InLeft(up, j, s) =>
        ClimbLeft(after, up, j, s, root', t, h);
        next := Climb(up, t, s, h, Height(s));
      case InRight(up, s, j) =>
        ClimbRight(after, up, s, j, root', t, h);
        next := Climb(up, s, t, Height(s), h);
    }
  }

  lemma {:induction false} WithinRefl(levels: seq<PriceLevel>, s: set<int>)
    ensures Within(levels, levels, s)
  {}

  /** What the loop body reads of the state it starts in. */
  lemma {:induction false} ClimbFacts(levels: seq<PriceLevel>, path: Path, root: int, l: Tree, i: int, r: Tree, hl: int,
                                      hr: int)
    requires Climbing(levels, path, root, l, i, r, hl, hr) && |levels| <= MAX_INDEX
    ensures Focus(levels, path, root, l, i, r)
    ensures InRange(levels, i) && HeightIs(levels, levels[i].left, l) && HeightIs(levels, levels[i].right, r)
    ensures Height(l) <= 44 && Height(r) <= 44 && -2 <= Height(l) - Height(r) <= 2
    ensures Disturbed(l, r, hl, hr)
  {
    FocusHeights(levels, path, root, l, i, r);
    ChildHeights(levels, path, root, l, i, r);
  }

  lemma {:induction false} UpdateStep(before: seq<PriceLevel>, path: Path, root: int, l: Tree, i: int, r: Tree)
    requires Focus(before, path, root, l, i, r) && Height(l) <= 44 && Height(r) <= 44
    requires InRange(before, i) && HeightIs(before, before[i].left, l) && HeightIs(before, before[i].right, r)
    ensures var after := Updated(before, i);
            Focus(after, path, root, l, i, r) && Settled(after, path, root, Node(l, i, r)) &&
            Local(before, after, path, Nodes(Node(l, i, r))) &&
            InRange(after, i) && HeightIs(after, after[i].left, l) && HeightIs(after, after[i].right, r)
  {
    var after := Updated(before, i);
    FocusUpdate(before, after, path, root, l, i, r);
    FocusHeights(after, path, root, l, i, r);
  }

  lemma {:induction false} LocalTransitive(a: seq<PriceLevel>, b: seq<PriceLevel>, c: seq<PriceLevel>, path: Path,
                                           nodes: set<int>)
    requires Local(a, b, path, nodes) && Local(b, c, path, nodes)
    ensures Local(a, c, path, nodes)
  {
    WithinTransitive(a, b, c, PathNodes(path) + nodes);
  }

  lemma {:induction false} LocalWithin(a: seq<PriceLevel>, b: seq<PriceLevel>, c: seq<PriceLevel>, path: Path, t: Tree,
                                       nodes: set<int>)
    requires Within(a, b, nodes) && Local(b, c, path, Nodes(t)) && nodes == NodesAround(path, t)
    ensures Within(a, c, nodes) && |c| == |a|
  {
    WithinTransitive(a, b, c, nodes);
  }
}
