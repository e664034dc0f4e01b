/** How many turns the loops over a price tree can take: logarithmically many in the number of its levels. */
module Cost {
  import opened Types
  import opened LevelTree
  import opened AvlBalance
  import opened Rebalance
  import opened Splice
  import opened Wrapping

  /** The greatest height of an AVL tree with n nodes. */
  function MaxHeight(n: nat): (h: nat)
    ensures MinNodes(h) <= n < MinNodes(h + 1)
  {
    MinNodesGrow(n);
    Highest(n, 0)
  }

  function Highest(n: nat, h: nat): (top: nat)
    requires MinNodes(h) <= n
    ensures MinNodes(top) <= n < MinNodes(top + 1)
    decreases n - h
  {
    hide MinNodes;
    MinNodesGrow(h + 1);
    if MinNodes(h + 1) <= n then Highest(n, h + 1) else h
  }

  lemma {:induction false} MinNodesGrow(h: nat)
    ensures MinNodes(h) >= h
  {
    if h > 1 { MinNodesGrow(h - 1); }
  }

  /** Whatever fits n nodes is no higher. */
  lemma {:induction false} FitsBelow(h: nat, n: nat)
    requires MinNodes(h) <= n
    ensures h <= MaxHeight(n)
  {
    hide MinNodes;
    var top := MaxHeight(n);
    if h > top { MinNodesMonotone(top + 1, h); }
  }

  lemma {:induction false} MaxHeightMonotone(m: nat, n: nat)
    requires m <= n
    ensures MaxHeight(m) <= MaxHeight(n)
  {
    FitsBelow(MaxHeight(m), n);
  }

  /** MaxHeight is logarithmic: every two levels of height double the nodes. */
  lemma {:induction false} Logarithmic(n: nat)
    ensures Pow2(MaxHeight(n) / 2) <= n + 1
  {
    Doubling(MaxHeight(n));
  }

  lemma {:induction false} Doubling(h: nat)
    ensures Pow2(h / 2) <= MinNodes(h) + 1
  {
    if h >= 2 {
      Doubling(h - 2);
      MinNodesMonotone(h - 2, h - 1);
    }
  }

  lemma {:induction false} MaxHeightBound(n: nat)
    requires n <= MAX_INDEX
    ensures MaxHeight(n) <= 44
  {
    hide MinNodes;
    MinNodesAt45();
    if MaxHeight(n) > 44 { MinNodesMonotone(45, MaxHeight(n)); }
  }

  // ---------- Paths in balanced trees ----------

  function Length(path: Path): nat {
    match path
    case Top => 0
    case InLeft(up, _, _) => 1 + Length(up)
    case InRight(up, _, _) => 1 + Length(up)
  }

  function PathSize(path: Path): nat {
    match path
    case Top => 0
    case InLeft(up, _, r) => 1 + Size(r) + PathSize(up)
    case InRight(up, l, _) => 1 + Size(l) + PathSize(up)
  }

  lemma {:induction false} PathSizeIsCardinality(path: Path)
    requires PathDisjoint(path)
    ensures |PathNodes(path)| == PathSize(path)
  {
    match path
    case Top =>
    case InLeft(up, i, r) =>
      PathSizeIsCardinality(up);
      SizeIsCardinality(r);
    case InRight(up, l, i) =>
      PathSizeIsCardinality(up);
      SizeIsCardinality(l);
  }

  lemma {:induction false} SizeAround(path: Path, t: Tree)
    requires Separate(path, t)
    ensures |NodesAround(path, t)| == PathSize(path) + Size(t)
  {
    PathSizeIsCardinality(path);
    SizeIsCardinality(t);
  }

  lemma {:induction false} Recurrence(h: nat)
    ensures MinNodes(h + 2) == 1 + MinNodes(h + 1) + MinNodes(h)
    ensures MinNodes(0) == 0 && MinNodes(1) == 1
  {}

  /** A long path over a hole of height h has many nodes beside it. */
  lemma {:induction false} PathSizeBound(path: Path, h: nat)
    requires PathBalanced(path, h)
    ensures MinNodes(h + Length(path)) <= MinNodes(h) + PathSize(path)
  {
    hide MinNodes, Size, Balanced, Height, Max;
    match path
    case Top =>
    case InLeft(up, _, r) => OneUp(up, h, r);
    case InRight(up, l, _) => OneUp(up, h, l);
  }

  lemma {:induction false} OneUp(up: Path, h: nat, s: Tree)
    requires Balanced(s) && -1 <= h - Height(s) <= 1 && PathBalanced(up, 1 + Max(h, Height(s)))
    ensures MinNodes(h + (1 + Length(up))) <= MinNodes(h) + (1 + Size(s) + PathSize(up))
    decreases up
  {
    hide MinNodes, Size, Balanced, Height, PathSize, Length, PathBalanced;
    var k := 1 + Max(h, Height(s));
    PathSizeBound(up, k);
    BalancedHasMinNodes(s);
    NextHeight(h, Height(s));
    MinNodesMonotone(h + 1 + Length(up), k + Length(up));
  }

  /** A node with children of heights h and j has the fewest nodes if both children have. */
  lemma {:induction false} NextHeight(h: nat, j: nat)
    requires -1 <= h - j <= 1
    ensures MinNodes(1 + Max(h, j)) <= 1 + MinNodes(h) + MinNodes(j)
  {
    hide MinNodes;
    var low, high := if h < j then h else j, Max(h, j);
    if low < high {
      Recurrence(low);
    } else if low == 0 {
      Recurrence(0);
    } else {
      Recurrence(low - 1);
      MinNodesMonotone(low - 1, low);
    }
  }

  /** MinNodes grows faster from further up. */
  lemma {:induction false} Growth(h: nat, n: nat)
    requires h >= 1
    ensures MinNodes(1 + n) - MinNodes(1) <= MinNodes(h + n) - MinNodes(h)
  {
    hide MinNodes;
    if h > 1 {
      Growth(h - 1, n);
      Recurrence(h - 2);
      Recurrence(h + n - 2);
      MinNodesMonotone(h - 2, h + n - 2);
    }
  }

  /** The turns of a walk down that has come this far, counting the node reached. */
  lemma {:induction false} DescentCost(levels: seq<PriceLevel>, path: Path, t: Tree, root: int, parent: int, cur: int)
    requires Descent(levels, path, t, root, parent, cur)
    ensures Length(path) + Reached(t) <= MaxHeight(|NodesAround(path, t)|)
  {
    hide MinNodes, Linked, PathLinked, PathHeights, PathBalanced, Separate, Balanced, NodesAround, PathSize, Length,
         Size;
    PathSizeBound(path, Height(t));
    BalancedHasMinNodes(t);
    SizeAround(path, t);
    ReachedHeight(t);
    MinNodesMonotone(Length(path) + Reached(t), Height(t) + Length(path));
    FitsBelow(Length(path) + Reached(t), |NodesAround(path, t)|);
  }

  /** The node reached, if there is one. */
  function Reached(t: Tree): nat { if t.Node? then 1 else 0 }

  lemma {:induction false} ReachedHeight(t: Tree)
    ensures Reached(t) <= Height(t)
  {}

  /** The turns of the rebalancing loop that are left at this node. */
  lemma {:induction false} ClimbCost(levels: seq<PriceLevel>, path: Path, root: int, l: Tree, i: int, r: Tree, hl: int,
                                     hr: int)
    requires Climbing(levels, path, root, l, i, r, hl, hr)
    ensures Length(path) + 1 <= MaxHeight(|NodesAround(path, Node(l, i, r))|)
  {
    hide Climbing, MinNodes, PathBalanced, Separate, NodesAround, PathSize, Length, Height, Max, Nodes;
    ClimbParts(levels, path, root, l, i, r, hl, hr);
    var h := 1 + Max(hl, hr);
    PathSizeBound(path, h);
    SizeAround(path, Node(l, i, r));
    Growth(h, Length(path));
    Recurrence(0);
    FitsBelow(Length(path) + 1, |NodesAround(path, Node(l, i, r))|);
  }

  lemma {:induction false} ClimbParts(levels: seq<PriceLevel>, path: Path, root: int, l: Tree, i: int, r: Tree, hl: int,
                                      hr: int)
    requires Climbing(levels, path, root, l, i, r, hl, hr)
    ensures 1 + Max(hl, hr) >= 1 && PathBalanced(path, 1 + Max(hl, hr)) && Separate(path, Node(l, i, r))
  {
    hide PathBalanced, Separate, PathLinked, Linked, Balanced, PathHeights;
  }

  lemma {:induction false} OneMore(nodes: set<int>, n: int)
    requires n !in nodes
    ensures MaxHeight(|nodes|) <= MaxHeight(|nodes + {n}|)
  {
    MaxHeightMonotone(|nodes|, |nodes + {n}|);
  }

  lemma {:induction false} OneLess(nodes: set<int>, z: int)
    requires z in nodes
    ensures MaxHeight(|nodes - {z}|) <= MaxHeight(|nodes|)
  {
    OneMore(nodes - {z}, z);
    assert nodes - {z} + {z} == nodes;
  }
}
