/** Walking down to a place in an AVL tree, attaching a leaf there, and cutting a node out. */
module Splice {
  import opened Types
  import opened LevelTree
  import opened Rebalance

  /** A walk from the root of an AVL tree has reached subtree t, rooted at `cur` and hanging below `parent`. */
  ghost predicate Descent(levels: seq<PriceLevel>, path: Path, t: Tree, root: int, parent: int, cur: int) {
    PathLinked(levels, path, root, parent, cur) && Linked(levels, t, cur, parent) && Separate(path, t) &&
    PathHeights(levels, path, Height(t)) && PathBalanced(path, Height(t)) && Balanced(t)
  }

  lemma {:induction false} DescentTop(levels: seq<PriceLevel>, t: Tree, root: int)
    requires Avl(levels, t, root)
    ensures Descent(levels, Top, t, root, NONE, root)
    ensures OrderAround(Top, t) == Inorder(t) && NodesAround(Top, t) == Nodes(t)
  {}

  lemma {:induction false} DescentLeft(levels: seq<PriceLevel>, path: Path, l: Tree, i: int, r: Tree, root: int,
                                       parent: int)
    requires Descent(levels, path, Node(l, i, r), root, parent, i)
    ensures InRange(levels, i) && Descent(levels, InLeft(path, i, r), l, root, i, levels[i].left)
    ensures OrderAround(InLeft(path, i, r), l) == OrderAround(path, Node(l, i, r))
    ensures NodesAround(InLeft(path, i, r), l) == NodesAround(path, Node(l, i, r))
  {
    OrderLeft(path, i, r, l);
    assert Nodes(Node(l, i, r)) == Nodes(l) + {i} + Nodes(r);
    assert Separate(InLeft(path, i, r), l);
  }

  lemma {:induction false} DescentRight(levels: seq<PriceLevel>, path: Path, l: Tree, i: int, r: Tree, root: int,
                                        parent: int)
    requires Descent(levels, path, Node(l, i, r), root, parent, i)
    ensures InRange(levels, i) && Descent(levels, InRight(path, l, i), r, root, i, levels[i].right)
    ensures Separate(InRight(path, l, i), r)
    ensures OrderAround(InRight(path, l, i), r) == OrderAround(path, Node(l, i, r))
    ensures NodesAround(InRight(path, l, i), r) == NodesAround(path, Node(l, i, r))
  {
    OrderRight(path, l, i, r);
    assert Nodes(Node(l, i, r)) == Nodes(l) + {i} + Nodes(r);
    assert Separate(InRight(path, l, i), r);
    assert Max(Height(l), Height(r)) == Max(Height(r), Height(l));
  }

  /** Every node of a tree can be walked to. */
  lemma {:induction false} Locate(levels: seq<PriceLevel>, path: Path, t: Tree, root: int, parent: int, cur: int,
                                  z: int)
    returns (to: Path, l: Tree, r: Tree)
    requires Descent(levels, path, t, root, parent, cur) && z in Nodes(t)
    ensures InRange(levels, z) && Descent(levels, to, Node(l, z, r), root, levels[z].parent, z)
    ensures OrderAround(to, Node(l, z, r)) == OrderAround(path, t)
    ensures NodesAround(to, Node(l, z, r)) == NodesAround(path, t)
    decreases t
  {
    var Node(a, i, b) := t;
    if i == z {
      to, l, r := path, a, b;
    } else if z in Nodes(a) {
      DescentLeft(levels, path, a, i, b, root, parent);
      to, l, r := Locate(levels, InLeft(path, i, b), a, root, i, levels[i].left, z);
    } else {
      DescentRight(levels, path, a, i, b, root, parent);
      to, l, r := Locate(levels, InRight(path, a, i), b, root, i, levels[i].right, z);
    }
  }

  // ---------- Filling a hole with another tree ----------

  predicate SamePointers(a: PriceLevel, b: PriceLevel) {
    a.left == b.left && a.right == b.right && a.parent == b.parent
  }

  /** The parent of a hole, with the link into the hole redirected. */
  function Redirected(level: PriceLevel, path: Path, child: int): PriceLevel {
    match path
    case Top => level
    case InLeft(_, _, _) => level.(left := child)
    case InRight(_, _, _) => level.(right := child)
  }

  /**
   From `before` to `after`, the hole of `path` has been refilled: the parent's link into the hole
   leads to the root `child` of tree t, and that root's parent link leads back.
   */
  ghost predicate Refilled(before: seq<PriceLevel>, after: seq<PriceLevel>, path: Path, parent: int, t: Tree,
                           child: int) {
    |after| == |before| &&
    (forall i :: i in PathNodes(path) ==> InRange(before, i) && (i != parent ==> SameLinks(before[i], after[i]))) &&
    (parent != NONE ==>
       InRange(before, parent) &&
       SamePointers(Redirected(before[parent], path, child), after[parent])) &&
    Linked(after, t, child, parent)
  }

  /** ReplaceChild redirects the link into the hole that holds a node of the tree. */
  lemma {:induction false} SetChildRedirects(levels: seq<PriceLevel>, path: Path, root: int, parent: int, oldChild: int,
                                             newChild: int)
    requires PathLinked(levels, path, root, parent, oldChild)
    requires oldChild != NONE && oldChild !in PathNodes(path) && parent != NONE
    ensures InRange(levels, parent) && parent in PathNodes(path)
    ensures SetChild(levels, parent, oldChild, newChild)[parent] == Redirected(levels[parent], path, newChild)
  {
    match path
    case Top =>
    case InLeft(up, i, r) =>
    case InRight(up, l, i) =>
      LinkedInRange(levels, l, levels[i].left, i);
  }

  lemma {:induction false} RefillLeft(before: seq<PriceLevel>, after: seq<PriceLevel>, up: Path, j: int, s: Tree,
                                      root: int,
                                      oldChild: int, h: int, t: Tree, child: int)
    requires Refilled(before, after, InLeft(up, j, s), j, t, child)
    requires PathLinked(before, InLeft(up, j, s), root, j, oldChild)
    requires PathHeights(before, InLeft(up, j, s), h) && PathBalanced(InLeft(up, j, s), h)
    requires Separate(InLeft(up, j, s), t) && Balanced(t) && -1 <= Height(t) - h <= 1
    ensures Climbing(after, up, root, t, j, s, h, Height(s))
    ensures OrderAround(up, Node(t, j, s)) == OrderAround(InLeft(up, j, s), t)
    ensures NodesAround(up, Node(t, j, s)) == NodesAround(InLeft(up, j, s), t)
  {
    hide Climbing;
    OrderLeft(up, j, s, t);
    LinkedInRange(before, s, before[j].right, j);
    LinkedFrame(before, after, s, before[j].right, j);
    PathFrame(before, after, up, root, before[j].parent, j);
    PathHeightsFrame(before, after, up, before[j].height);
    FocusParts(after, up, root, t, j, s);
    ClimbingParts(after, up, root, t, j, s, h, Height(s), before[j].height);
  }

  lemma {:induction false} RefillRight(before: seq<PriceLevel>, after: seq<PriceLevel>, up: Path, s: Tree, j: int,
                                       root: int,
                                       oldChild: int, h: int, t: Tree, child: int)
    requires Refilled(before, after, InRight(up, s, j), j, t, child)
    requires PathLinked(before, InRight(up, s, j), root, j, oldChild)
    requires PathHeights(before, InRight(up, s, j), h) && PathBalanced(InRight(up, s, j), h)
    requires Separate(InRight(up, s, j), t) && Balanced(t) && -1 <= Height(t) - h <= 1
    ensures Climbing(after, up, root, s, j, t, Height(s), h)
    ensures OrderAround(up, Node(s, j, t)) == OrderAround(InRight(up, s, j), t)
    ensures NodesAround(up, Node(s, j, t)) == NodesAround(InRight(up, s, j), t)
  {
    hide Climbing;
    OrderRight(up, s, j, t);
    LinkedInRange(before, s, before[j].left, j);
    LinkedFrame(before, after, s, before[j].left, j);
    PathFrame(before, after, up, root, before[j].parent, j);
    PathHeightsFrame(before, after, up, before[j].height);
    FocusParts(after, up, root, s, j, t);
    assert Max(Height(s), h) == Max(h, Height(s));
    ClimbingParts(after, up, root, s, j, t, Height(s), h, before[j].height);
  }

  /** Refilling the hole leaves a finished tree, or a disturbed parent for the rebalancing loop. */
  lemma {:induction false} Refill(before: seq<PriceLevel>, after: seq<PriceLevel>, path: Path, root: int, parent: int,
                                  oldChild: int, h: int, t: Tree, child: int)
    returns (next: Climb)
    requires PathLinked(before, path, root, parent, oldChild) && PathHeights(before, path, h) && PathBalanced(path, h)
    requires Refilled(before, after, path, parent, t, child)
    requires Separate(path, t) && Balanced(t) && -1 <= Height(t) - h <= 1
    ensures match next
            case Climb(up, l, r, hl, hr) =>
              parent != NONE && Climbing(after, up, root, l, parent, r, hl, hr) &&
              OrderAround(up, Node(l, parent, r)) == OrderAround(path, t) &&
              NodesAround(up, Node(l, parent, r)) == NodesAround(path, t)
            case Done(t') =>
              parent == NONE && path == Top && t' == t && Avl(after, t, child) &&
              Inorder(t) == OrderAround(path, t) && Nodes(t) == NodesAround(path, t)
  {
    match path
    case Top =>
      next := Done(t);
    case InLeft(up, j, s) =>
      hide Refilled, PathHeights, PathBalanced, Separate, Balanced, Climbing, OrderAround, NodesAround, Linked;
      RefillLeft(before, after, up, j, s, root, oldChild, h, t, child);
      next := Climb(up, t, s, h, Height(s));
    case InRight(up, s, j) =>
      hide Refilled, PathHeights, PathBalanced, Separate, Balanced, Climbing, OrderAround, NodesAround, Linked;
      RefillRight(before, after, up, s, j, root, oldChild, h, t, child);
      next := Climb(up, s, t, Height(s), h);
  }

  lemma {:induction false} FocusParts(levels: seq<PriceLevel>, path: Path, root: int, l: Tree, i: int, r: Tree)
    requires InRange(levels, i) && PathLinked(levels, path, root, levels[i].parent, i)
    requires Linked(levels, l, levels[i].left, i) && Linked(levels, r, levels[i].right, i)
    requires PathDisjoint(path) && Disjoint(l) && Disjoint(r) && Nodes(l) !! Nodes(r)
    requires i !in Nodes(l) && i !in Nodes(r) && i !in PathNodes(path)
    requires PathNodes(path) !! Nodes(l) && PathNodes(path) !! Nodes(r)
    ensures Focus(levels, path, root, l, i, r)
  {}

  lemma {:induction false} ClimbingParts(levels: seq<PriceLevel>, path: Path, root: int, l: Tree, i: int, r: Tree,
                                         hl: int, hr: int, h: int)
    requires Focus(levels, path, root, l, i, r) && Balanced(l) && Balanced(r)
    requires -1 <= hl - hr <= 1
    requires (hl == Height(l) && -1 <= hr - Height(r) <= 1) || (hr == Height(r) && -1 <= hl - Height(l) <= 1)
    requires h == 1 + Max(hl, hr) && PathHeights(levels, path, h) && PathBalanced(path, h)
    ensures Climbing(levels, path, root, l, i, r, hl, hr)
  {}
}
