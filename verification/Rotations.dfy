/** What one rotation of the level array does to the tree stored in it. */
module Rotations {
  import opened Types
  import opened LevelTree
  import opened AvlBalance

  /** Only the links of x, y, beta and p may differ, as a rotation of y over x rewrites them. */
  ghost predicate RotatedLeft(before: seq<PriceLevel>, after: seq<PriceLevel>, x: int, y: int, hx: int, hy: int)
    requires InRange(before, x) && InRange(before, y)
  {
    var p, beta := before[x].parent, before[y].left;
    |after| == |before| &&
    (p == NONE || InRange(before, p)) && (beta == NONE || InRange(before, beta)) &&
    after[x] == before[x].(parent := y, right := beta, height := hx) &&
    after[y] == before[y].(parent := p, left := x, height := hy) &&
    (beta != NONE ==> after[beta] == before[beta].(parent := x)) &&
    (p != NONE ==> after[p] == SetChild(before, p, x, y)[p]) &&
    forall i :: 0 <= i < |before| && i != x && i != y && i != beta && i != p ==> after[i] == before[i]
  }

  ghost predicate RotatedRight(before: seq<PriceLevel>, after: seq<PriceLevel>, y: int, x: int, hy: int, hx: int)
    requires InRange(before, x) && InRange(before, y)
  {
    var p, beta := before[y].parent, before[x].right;
    |after| == |before| &&
    (p == NONE || InRange(before, p)) && (beta == NONE || InRange(before, beta)) &&
    after[y] == before[y].(parent := x, left := beta, height := hy) &&
    after[x] == before[x].(parent := p, right := y, height := hx) &&
    (beta != NONE ==> after[beta] == before[beta].(parent := y)) &&
    (p != NONE ==> after[p] == SetChild(before, p, y, x)[p]) &&
    forall i :: 0 <= i < |before| && i != x && i != y && i != beta && i != p ==> after[i] == before[i]
  }

  /** The stored height at index i (0 for none) is that of t. */
  predicate HeightIs(levels: seq<PriceLevel>, i: int, t: Tree) {
    (i == NONE && Height(t) == 0) || (InRange(levels, i) && levels[i].height == Height(t))
  }

  predicate NoneOrOther(levels: seq<PriceLevel>, i: int, x: int, y: int) {
    i == NONE || (InRange(levels, i) && i != x && i != y)
  }

  /** The indices a left rotation at x dereferences exist and are distinct. */
  predicate CanRotateLeft(levels: seq<PriceLevel>, x: int) {
    InRange(levels, x) && InRange(levels, levels[x].right) &&
    var y := levels[x].right;
    x != y && NoneOrOther(levels, levels[x].parent, x, y) && NoneOrOther(levels, levels[x].left, x, y) &&
    NoneOrOther(levels, levels[y].left, x, y) && NoneOrOther(levels, levels[y].right, x, y) &&
    (levels[y].left == NONE || levels[y].left != levels[x].parent)
  }

  predicate CanRotateRight(levels: seq<PriceLevel>, y: int) {
    InRange(levels, y) && InRange(levels, levels[y].left) &&
    var x := levels[y].left;
    x != y && NoneOrOther(levels, levels[y].parent, x, y) && NoneOrOther(levels, levels[y].right, x, y) &&
    NoneOrOther(levels, levels[x].left, x, y) && NoneOrOther(levels, levels[x].right, x, y) &&
    (levels[x].right == NONE || levels[x].right != levels[y].parent)
  }

  function HeightAt(levels: seq<PriceLevel>, i: int): int
    requires i == NONE || InRange(levels, i)
  {
    if i == NONE then 0 else levels[i].height
  }

  /** The four indices a rotation touches are distinct, and it finds them where the shape says. */
  lemma {:induction false} LeftPivot(levels: seq<PriceLevel>, path: Path, root: int,
                                     a: Tree, x: int, b: Tree, y: int, c: Tree)
    requires Focus(levels, path, root, a, x, Node(b, y, c))
    ensures InRange(levels, x) && InRange(levels, y) && levels[x].right == y
    ensures Linked(levels, b, levels[y].left, y) && Linked(levels, c, levels[y].right, y)
    ensures levels[y].left == (if b == Leaf then NONE else b.at)
    ensures CanRotateLeft(levels, x)
    ensures HeightIs(levels, levels[x].left, a) && HeightIs(levels, levels[y].left, b) &&
            HeightIs(levels, levels[y].right, c)
  {
    assert y in Nodes(Node(b, y, c));
    assert a != Leaf ==> a.at in Nodes(a);
    assert b != Leaf ==> b.at in Nodes(b) && b.at in Nodes(Node(b, y, c));
    assert c != Leaf ==> c.at in Nodes(c) && c.at in Nodes(Node(b, y, c));
    assert levels[x].parent != NONE ==> levels[x].parent in PathNodes(path);
  }

  lemma {:induction false} RightPivot(levels: seq<PriceLevel>, path: Path, root: int,
                                      a: Tree, x: int, b: Tree, y: int, c: Tree)
    requires Focus(levels, path, root, Node(a, x, b), y, c)
    ensures InRange(levels, x) && InRange(levels, y) && levels[y].left == x
    ensures Linked(levels, a, levels[x].left, x) && Linked(levels, b, levels[x].right, x)
    ensures levels[x].right == (if b == Leaf then NONE else b.at)
    ensures CanRotateRight(levels, y)
    ensures HeightIs(levels, levels[x].left, a) && HeightIs(levels, levels[x].right, b) &&
            HeightIs(levels, levels[y].right, c)
  {
    assert x in Nodes(Node(a, x, b));
    assert a != Leaf ==> a.at in Nodes(a) && a.at in Nodes(Node(a, x, b));
    assert b != Leaf ==> b.at in Nodes(b) && b.at in Nodes(Node(a, x, b));
    assert c != Leaf ==> c.at in Nodes(c);
    assert levels[y].parent != NONE ==> levels[y].parent in PathNodes(path);
  }

  lemma {:induction false} RotateLeftLinks(before: seq<PriceLevel>, after: seq<PriceLevel>, path: Path, root: int,
                                           a: Tree, x: int, b: Tree, y: int, c: Tree)
    requires Focus(before, path, root, a, x, Node(b, y, c)) && InRange(before, y)
    requires RotatedLeft(before, after, x, y, Height(Node(a, x, b)), Height(Node(Node(a, x, b), y, c)))
    ensures Focus(after, path, SetRoot(root, before[x].parent, y), Node(a, x, b), y, c)
    ensures Linked(after, Node(Node(a, x, b), y, c), y, before[x].parent)
  {
    LeftPivot(before, path, root, a, x, b, y, c);
    assert Disjoint(Node(b, y, c)) && Nodes(Node(b, y, c)) == Nodes(b) + {y} + Nodes(c);
    LinkedInRange(before, a, before[x].left, x);
    LinkedInRange(before, b, before[y].left, y);
    LinkedInRange(before, c, before[y].right, y);
    PathInRange(before, path, root, before[x].parent, x);
    LinkedMove(before, after, a, before[x].left, x, x);
    LinkedMove(before, after, b, before[y].left, y, x);
    LinkedMove(before, after, c, before[y].right, y, y);
    PathRedirect(before, after, path, root, before[x].parent, x, y);
    assert Disjoint(Node(a, x, b)) && Nodes(Node(a, x, b)) == Nodes(a) + {x} + Nodes(b);
    assert Separate(path, Node(Node(a, x, b), y, c));
  }

  lemma {:induction false} RotateRightLinks(before: seq<PriceLevel>, after: seq<PriceLevel>, path: Path, root: int,
                                            a: Tree, x: int, b: Tree, y: int, c: Tree)
    requires Focus(before, path, root, Node(a, x, b), y, c) && InRange(before, x)
    requires RotatedRight(before, after, y, x, Height(Node(b, y, c)), Height(Node(a, x, Node(b, y, c))))
    ensures Focus(after, path, SetRoot(root, before[y].parent, x), a, x, Node(b, y, c))
    ensures Linked(after, Node(a, x, Node(b, y, c)), x, before[y].parent)
  {
    RightPivot(before, path, root, a, x, b, y, c);
    assert Disjoint(Node(a, x, b)) && Nodes(Node(a, x, b)) == Nodes(a) + {x} + Nodes(b);
    LinkedInRange(before, a, before[x].left, x);
    LinkedInRange(before, b, before[x].right, x);
    LinkedInRange(before, c, before[y].right, y);
    PathInRange(before, path, root, before[y].parent, y);
    LinkedMove(before, after, a, before[x].left, x, x);
    LinkedMove(before, after, b, before[x].right, x, y);
    LinkedMove(before, after, c, before[y].right, y, y);
    PathRedirect(before, after, path, root, before[y].parent, y, x);
    assert Disjoint(Node(b, y, c)) && Nodes(Node(b, y, c)) == Nodes(b) + {y} + Nodes(c);
    assert Separate(path, Node(a, x, Node(b, y, c)));
  }

  /** Only links change, and only those of indices in s. */
  ghost predicate Within(before: seq<PriceLevel>, after: seq<PriceLevel>, s: set<int>) {
    SameData(before, after) && forall i :: 0 <= i < |before| && i !in s ==> after[i] == before[i]
  }

  ghost predicate SameHeights(before: seq<PriceLevel>, after: seq<PriceLevel>, s: set<int>) {
    |after| == |before| && forall i :: i in s ==> InRange(before, i) && after[i].height == before[i].height
  }

  /** A rotation at x stays within the tree and the path above it, and keeps the heights on that path. */
  lemma {:induction false} RotateLeftFrame(before: seq<PriceLevel>, after: seq<PriceLevel>, path: Path, root: int,
                                           a: Tree, x: int, b: Tree, y: int, c: Tree, hx: int, hy: int)
    requires Focus(before, path, root, a, x, Node(b, y, c)) && InRange(before, y)
    requires RotatedLeft(before, after, x, y, hx, hy)
    ensures Within(before, after, PathNodes(path) + Nodes(Node(a, x, Node(b, y, c))))
    ensures SameHeights(before, after, PathNodes(path))
  {
    LeftPivot(before, path, root, a, x, b, y, c);
    PathInRange(before, path, root, before[x].parent, x);
    var p, beta := before[x].parent, before[y].left;
    assert Nodes(Node(b, y, c)) == Nodes(b) + {y} + Nodes(c);
    assert b != Leaf ==> beta in Nodes(b);
    assert p != NONE ==> p in PathNodes(path);
    assert Nodes(Node(a, x, Node(b, y, c))) !! PathNodes(path);
  }

  lemma {:induction false} RotateRightFrame(before: seq<PriceLevel>, after: seq<PriceLevel>, path: Path, root: int,
                                            a: Tree, x: int, b: Tree, y: int, c: Tree, hy: int, hx: int)
    requires Focus(before, path, root, Node(a, x, b), y, c) && InRange(before, x)
    requires RotatedRight(before, after, y, x, hy, hx)
    ensures Within(before, after, PathNodes(path) + Nodes(Node(Node(a, x, b), y, c)))
    ensures SameHeights(before, after, PathNodes(path))
  {
    RightPivot(before, path, root, a, x, b, y, c);
    PathInRange(before, path, root, before[y].parent, y);
    var p, beta := before[y].parent, before[x].right;
    assert Nodes(Node(a, x, b)) == Nodes(a) + {x} + Nodes(b);
    assert b != Leaf ==> beta in Nodes(b);
    assert p != NONE ==> p in PathNodes(path);
    assert Nodes(Node(Node(a, x, b), y, c)) !! PathNodes(path);
  }

  // ---------- The rotation's writes, one after the other ----------

  /** Recomputing the stored height of i from its children. */
  function Updated(levels: seq<PriceLevel>, i: int): (r: seq<PriceLevel>)
    requires InRange(levels, i)
    requires levels[i].left == NONE || InRange(levels, levels[i].left)
    requires levels[i].right == NONE || InRange(levels, levels[i].right)
  {
    levels[i := levels[i].(height := Int8(1 + Max(HeightAt(levels, levels[i].left),
                                                  HeightAt(levels, levels[i].right))))]
  }

  /** The effect of ReplaceChild on the array. */
  function ChildReplaced(levels: seq<PriceLevel>, p: int, oldChild: int, newChild: int): (r: seq<PriceLevel>)
    requires p == NONE || InRange(levels, p)
    requires newChild == NONE || InRange(levels, newChild)
  {
    var l := SetChild(levels, p, oldChild, newChild);
    if newChild == NONE then l else l[newChild := l[newChild].(parent := p)]
  }

  lemma {:induction false} LeftWrites(levels: seq<PriceLevel>, x: int)
    requires CanRotateLeft(levels, x)
    ensures var y := levels[x].right;
            var beta, p := levels[y].left, levels[x].parent;
            var l1 := ChildReplaced(levels, p, x, y);
            var l2 := l1[y := l1[y].(left := x)];
            var l3 := l2[x := l2[x].(parent := y)];
            var l4 := l3[x := l3[x].(right := beta)];
            var l5 := if beta == NONE then l4 else l4[beta := l4[beta].(parent := x)];
            RotatedLeft(levels, l5, x, y, levels[x].height, levels[y].height)
  {}

  lemma {:induction false} RightWrites(levels: seq<PriceLevel>, y: int)
    requires CanRotateRight(levels, y)
    ensures var x := levels[y].left;
            var beta, p := levels[x].right, levels[y].parent;
            var l1 := ChildReplaced(levels, p, y, x);
            var l2 := l1[x := l1[x].(right := y)];
            var l3 := l2[y := l2[y].(parent := x)];
            var l4 := l3[y := l3[y].(left := beta)];
            var l5 := if beta == NONE then l4 else l4[beta := l4[beta].(parent := y)];
            RotatedRight(levels, l5, y, x, levels[y].height, levels[x].height)
  {}

  /** Refreshing the lower node's height and then the upper one's completes a left rotation. */
  lemma {:induction false} LeftUpdates(before: seq<PriceLevel>, after: seq<PriceLevel>, x: int)
    requires CanRotateLeft(before, x)
    requires RotatedLeft(before, after, x, before[x].right, before[x].height, before[before[x].right].height)
    ensures TurnedLeft(before, Updated(Updated(after, x), before[x].right), x)
  {
    var y := before[x].right;
    assert RotatedLeft(before, Updated(after, x), x, y, LowerLeftHeight(before, x), before[y].height);
  }

  lemma {:induction false} RightUpdates(before: seq<PriceLevel>, after: seq<PriceLevel>, y: int)
    requires CanRotateRight(before, y)
    requires RotatedRight(before, after, y, before[y].left, before[y].height, before[before[y].left].height)
    ensures TurnedRight(before, Updated(Updated(after, y), before[y].left), y)
  {
    var x := before[y].left;
    assert RotatedRight(before, Updated(after, y), y, x, LowerRightHeight(before, y), before[x].height);
  }

  function LowerLeftHeight(levels: seq<PriceLevel>, x: int): int
    requires CanRotateLeft(levels, x)
  {
    Int8(1 + Max(HeightAt(levels, levels[x].left), HeightAt(levels, levels[levels[x].right].left)))
  }

  function LowerRightHeight(levels: seq<PriceLevel>, y: int): int
    requires CanRotateRight(levels, y)
  {
    Int8(1 + Max(HeightAt(levels, levels[levels[y].left].right), HeightAt(levels, levels[y].right)))
  }

  /** The complete effect of RotateLeft at x on the array. */
  ghost predicate TurnedLeft(before: seq<PriceLevel>, after: seq<PriceLevel>, x: int)
    requires CanRotateLeft(before, x)
  {
    var y, hx := before[x].right, LowerLeftHeight(before, x);
    RotatedLeft(before, after, x, y, hx, Int8(1 + Max(hx, HeightAt(before, before[y].right))))
  }

  ghost predicate TurnedRight(before: seq<PriceLevel>, after: seq<PriceLevel>, y: int)
    requires CanRotateRight(before, y)
  {
    var x, hy := before[y].left, LowerRightHeight(before, y);
    RotatedRight(before, after, y, x, hy, Int8(1 + Max(HeightAt(before, before[x].left), hy)))
  }

  /** All that a caller of a left rotation learns. */
  lemma {:induction false} RotateLeftEffect(before: seq<PriceLevel>, after: seq<PriceLevel>, path: Path, root: int,
                                            a: Tree, x: int, b: Tree, y: int, c: Tree)
    requires Focus(before, path, root, a, x, Node(b, y, c))
    requires Height(a) <= 100 && Height(b) <= 100 && Height(c) <= 100
    requires CanRotateLeft(before, x) && TurnedLeft(before, after, x)
    ensures y == before[x].right
    ensures Focus(after, path, SetRoot(root, before[x].parent, y), Node(a, x, b), y, c)
    ensures Linked(after, Node(Node(a, x, b), y, c), y, before[x].parent)
    ensures Within(before, after, PathNodes(path) + Nodes(Node(a, x, Node(b, y, c))))
    ensures SameHeights(before, after, PathNodes(path))
  {
    LeftPivot(before, path, root, a, x, b, y, c);
    hide Focus, RotatedLeft, Linked, Within, SameHeights;
    RotateLeftLinks(before, after, path, root, a, x, b, y, c);
    RotateLeftFrame(before, after, path, root, a, x, b, y, c, Height(Node(a, x, b)), Height(Node(Node(a, x, b), y, c)));
  }

  lemma {:induction false} RotateRightEffect(before: seq<PriceLevel>, after: seq<PriceLevel>, path: Path, root: int,
                                             a: Tree, x: int, b: Tree, y: int, c: Tree)
    requires Focus(before, path, root, Node(a, x, b), y, c)
    requires Height(a) <= 100 && Height(b) <= 100 && Height(c) <= 100
    requires CanRotateRight(before, y) && TurnedRight(before, after, y)
    ensures x == before[y].left
    ensures Focus(after, path, SetRoot(root, before[y].parent, x), a, x, Node(b, y, c))
    ensures Linked(after, Node(a, x, Node(b, y, c)), x, before[y].parent)
    ensures Within(before, after, PathNodes(path) + Nodes(Node(Node(a, x, b), y, c)))
    ensures SameHeights(before, after, PathNodes(path))
  {
    RightPivot(before, path, root, a, x, b, y, c);
    hide Focus, RotatedRight, Linked, Within, SameHeights;
    RotateRightLinks(before, after, path, root, a, x, b, y, c);
    RotateRightFrame(before, after, path, root, a, x, b, y, c, Height(Node(b, y, c)),
                     Height(Node(a, x, Node(b, y, c))));
  }

  lemma {:induction false} WithinTransitive(a: seq<PriceLevel>, b: seq<PriceLevel>, c: seq<PriceLevel>, s: set<int>)
    requires Within(a, b, s) && Within(b, c, s)
    ensures Within(a, c, s)
  {
    forall i | 0 <= i < |a|
      ensures a[i] == c[i].(left := a[i].left, right := a[i].right, parent := a[i].parent, height := a[i].height)
    {
      assert a[i] == b[i].(left := a[i].left, right := a[i].right, parent := a[i].parent, height := a[i].height);
      assert b[i] == c[i].(left := b[i].left, right := b[i].right, parent := b[i].parent, height := b[i].height);
    }
  }

  // ---------- Moving the focus ----------

  /** Looking at the left child of the node in focus. */
  lemma {:induction false} FocusLeft(levels: seq<PriceLevel>, path: Path, root: int, a: Tree, x: int, b: Tree, i: int,
                                     r: Tree)
    requires Focus(levels, path, root, Node(a, x, b), i, r)
    ensures Focus(levels, InLeft(path, i, r), root, a, x, b) && levels[x].parent == i
  {
    var l := Node(a, x, b);
    assert Nodes(Node(l, i, r)) == Nodes(l) + {i} + Nodes(r);
    assert Disjoint(l) && Disjoint(r) && i !in Nodes(l) && i !in Nodes(r) && Nodes(l) !! Nodes(r);
    assert PathNodes(InLeft(path, i, r)) == PathNodes(path) + {i} + Nodes(r);
  }

  lemma {:induction false} FocusRight(levels: seq<PriceLevel>, path: Path, root: int, l: Tree, i: int, a: Tree, x: int,
                                      b: Tree)
    requires Focus(levels, path, root, l, i, Node(a, x, b))
    ensures Focus(levels, InRight(path, l, i), root, a, x, b) && levels[x].parent == i
  {
    var r := Node(a, x, b);
    assert Nodes(Node(l, i, r)) == Nodes(l) + {i} + Nodes(r);
    assert Disjoint(l) && Disjoint(r) && i !in Nodes(l) && i !in Nodes(r) && Nodes(l) !! Nodes(r);
    assert PathNodes(InRight(path, l, i)) == PathNodes(path) + {i} + Nodes(l);
  }

  /** A finished subtree that is its parent's left child lets the focus climb. */
  lemma {:induction false} FocusUpLeft(levels: seq<PriceLevel>, up: Path, root: int, t: Tree, i: int, r: Tree,
                                       parent: int)
    requires t.Node? && Linked(levels, t, t.at, parent)
    requires PathLinked(levels, InLeft(up, i, r), root, parent, t.at)
    requires Separate(InLeft(up, i, r), t)
    ensures parent == i && InRange(levels, i) && Focus(levels, up, root, t, i, r)
  {
    assert Nodes(Node(t, i, r)) == Nodes(t) + {i} + Nodes(r);
    assert PathNodes(InLeft(up, i, r)) == PathNodes(up) + {i} + Nodes(r);
  }

  lemma {:induction false} FocusUpRight(levels: seq<PriceLevel>, up: Path, root: int, l: Tree, i: int, t: Tree,
                                        parent: int)
    requires t.Node? && Linked(levels, t, t.at, parent)
    requires PathLinked(levels, InRight(up, l, i), root, parent, t.at)
    requires Separate(InRight(up, l, i), t)
    ensures parent == i && InRange(levels, i) && Focus(levels, up, root, l, i, t)
  {
    assert Nodes(Node(l, i, t)) == Nodes(l) + {i} + Nodes(t);
    assert PathNodes(InRight(up, l, i)) == PathNodes(up) + {i} + Nodes(l);
  }

  /** Refreshing the height stored at the node in focus disturbs nothing else. */
  lemma {:induction false} FocusUpdate(before: seq<PriceLevel>, after: seq<PriceLevel>, path: Path, root: int, l: Tree,
                                       i: int, r: Tree)
    requires Focus(before, path, root, l, i, r)
    requires after == before[i := before[i].(height := Height(Node(l, i, r)))]
    ensures Focus(after, path, root, l, i, r)
    ensures Linked(after, Node(l, i, r), i, before[i].parent)
    ensures Within(before, after, PathNodes(path) + Nodes(Node(l, i, r))) && SameHeights(before, after, PathNodes(path))
  {
    LinkedInRange(before, l, before[i].left, i);
    LinkedInRange(before, r, before[i].right, i);
    PathInRange(before, path, root, before[i].parent, i);
    LinkedFrame(before, after, l, before[i].left, i);
    LinkedFrame(before, after, r, before[i].right, i);
    PathFrame(before, after, path, root, before[i].parent, i);
  }

  /** What a node can read off its children. */
  lemma {:induction false} FocusHeights(levels: seq<PriceLevel>, path: Path, root: int, l: Tree, i: int, r: Tree)
    requires Focus(levels, path, root, l, i, r)
    ensures InRange(levels, i)
    ensures HeightIs(levels, levels[i].left, l) && HeightIs(levels, levels[i].right, r)
    ensures l.Node? ==>
      levels[i].left == l.at && HeightIs(levels, levels[l.at].left, l.left) &&
      HeightIs(levels, levels[l.at].right, l.right)
    ensures r.Node? ==>
      levels[i].right == r.at && HeightIs(levels, levels[r.at].left, r.left) &&
      HeightIs(levels, levels[r.at].right, r.right)
  {
    LinkedHeights(levels, l, levels[i].left, i);
    LinkedHeights(levels, r, levels[i].right, i);
  }

  lemma {:induction false} LinkedHeights(levels: seq<PriceLevel>, t: Tree, root: int, parent: int)
    requires Linked(levels, t, root, parent)
    ensures HeightIs(levels, root, t)
    ensures t.Node? ==>
      root == t.at && HeightIs(levels, levels[t.at].left, t.left) &&
      HeightIs(levels, levels[t.at].right, t.right)
  {
    match t
    case Leaf =>
    case Node(l, i, r) =>
      assert l.Node? ==> levels[l.at].height == Height(l);
      assert r.Node? ==> levels[r.at].height == Height(r);
  }

  /** The first half of a double rotation: the left child is rotated left, the node in focus stays. */
  lemma {:induction false} InnerLeft(before: seq<PriceLevel>, after: seq<PriceLevel>, path: Path, root: int,
                                     a: Tree, x: int, b: Tree, y: int, c: Tree, i: int, r: Tree)
    requires Focus(before, path, root, Node(a, x, Node(b, y, c)), i, r)
    requires Height(a) <= 100 && Height(b) <= 100 && Height(c) <= 100
    requires CanRotateLeft(before, x) && TurnedLeft(before, after, x)
    ensures SetRoot(root, before[x].parent, y) == root
    ensures Focus(after, path, root, Node(Node(a, x, b), y, c), i, r)
    ensures Local(before, after, path, Nodes(Node(Node(a, x, Node(b, y, c)), i, r)))
    ensures Nodes(Node(Node(Node(a, x, b), y, c), i, r)) == Nodes(Node(Node(a, x, Node(b, y, c)), i, r))
  {
    var down := InLeft(path, i, r);
    FocusLeft(before, path, root, a, x, Node(b, y, c), i, r);
    RotateLeftEffect(before, after, down, root, a, x, b, y, c);
    assert PathNodes(down) == PathNodes(path) + {i} + Nodes(r);
    assert before[x].parent == i && i != NONE;
    var t := Node(Node(a, x, b), y, c);
    RotationKeepsOrder(a, x, b, y, c);
    FocusUpLeft(after, path, root, t, i, r, i);
    var whole := Node(Node(a, x, Node(b, y, c)), i, r);
    assert Nodes(whole) == Nodes(Node(a, x, Node(b, y, c))) + {i} + Nodes(r);
    assert PathNodes(down) + Nodes(Node(a, x, Node(b, y, c))) == PathNodes(path) + Nodes(whole);
  }

  lemma {:induction false} InnerRight(before: seq<PriceLevel>, after: seq<PriceLevel>, path: Path, root: int,
                                      l: Tree, i: int, a: Tree, x: int, b: Tree, y: int, c: Tree)
    requires Focus(before, path, root, l, i, Node(Node(a, x, b), y, c))
    requires Height(a) <= 100 && Height(b) <= 100 && Height(c) <= 100
    requires CanRotateRight(before, y) && TurnedRight(before, after, y)
    ensures SetRoot(root, before[y].parent, x) == root
    ensures Focus(after, path, root, l, i, Node(a, x, Node(b, y, c)))
    ensures Local(before, after, path, Nodes(Node(l, i, Node(Node(a, x, b), y, c))))
    ensures Nodes(Node(l, i, Node(a, x, Node(b, y, c)))) == Nodes(Node(l, i, Node(Node(a, x, b), y, c)))
  {
    var down := InRight(path, l, i);
    FocusRight(before, path, root, l, i, Node(a, x, b), y, c);
    RotateRightEffect(before, after, down, root, a, x, b, y, c);
    assert PathNodes(down) == PathNodes(path) + {i} + Nodes(l);
    assert before[y].parent == i && i != NONE;
    var t := Node(a, x, Node(b, y, c));
    RotationKeepsOrder(a, x, b, y, c);
    FocusUpRight(after, path, root, l, i, t, i);
    var whole := Node(l, i, Node(Node(a, x, b), y, c));
    assert Nodes(whole) == Nodes(Node(Node(a, x, b), y, c)) + {i} + Nodes(l);
    assert PathNodes(down) + Nodes(Node(Node(a, x, b), y, c)) == PathNodes(path) + Nodes(whole);
  }

  /** The node in focus can be rotated right over its left child, after looking down one level. */
  lemma {:induction false} InnerLeftPivot(levels: seq<PriceLevel>, path: Path, root: int,
                                          a: Tree, x: int, b: Tree, y: int, c: Tree, i: int, r: Tree)
    requires Focus(levels, path, root, Node(a, x, Node(b, y, c)), i, r)
    ensures CanRotateLeft(levels, x) && levels[x].right == y
  {
    FocusLeft(levels, path, root, a, x, Node(b, y, c), i, r);
    LeftPivot(levels, InLeft(path, i, r), root, a, x, b, y, c);
  }

  lemma {:induction false} InnerRightPivot(levels: seq<PriceLevel>, path: Path, root: int,
                                           l: Tree, i: int, a: Tree, x: int, b: Tree, y: int, c: Tree)
    requires Focus(levels, path, root, l, i, Node(Node(a, x, b), y, c))
    ensures CanRotateRight(levels, y) && levels[y].left == x
  {
    FocusRight(levels, path, root, l, i, Node(a, x, b), y, c);
    RightPivot(levels, InRight(path, l, i), root, a, x, b, y, c);
  }

  lemma {:induction false} ChildHeights(levels: seq<PriceLevel>, path: Path, root: int, l: Tree, i: int, r: Tree)
    requires Focus(levels, path, root, l, i, r) && Balanced(l) && Balanced(r) && |levels| <= MAX_INDEX
    ensures Height(l) <= 44 && Height(r) <= 44
  {
    LinkedInRange(levels, l, levels[i].left, i);
    LinkedInRange(levels, r, levels[i].right, i);
    HeightBound(l, |levels|);
    HeightBound(r, |levels|);
  }

  /** The state in which one turn of the rebalancing loop leaves the array, with t in place of the node. */
  ghost predicate Settled(levels: seq<PriceLevel>, path: Path, root: int, t: Tree) {
    t.Node? && InRange(levels, t.at) && Linked(levels, t, t.at, levels[t.at].parent) &&
    PathLinked(levels, path, root, levels[t.at].parent, t.at) && Separate(path, t)
  }

  /** How far rebalancing one node may reach: the node's subtree and the path, whose heights stay. */
  ghost predicate Local(before: seq<PriceLevel>, after: seq<PriceLevel>, path: Path, nodes: set<int>) {
    Within(before, after, PathNodes(path) + nodes) && SameHeights(before, after, PathNodes(path))
  }

  lemma {:induction false} LocalRefl(levels: seq<PriceLevel>, path: Path, root: int, l: Tree, i: int, r: Tree)
    requires Focus(levels, path, root, l, i, r)
    ensures Local(levels, levels, path, Nodes(Node(l, i, r)))
  {
    PathInRange(levels, path, root, levels[i].parent, i);
  }

  /** The last rotation of a rebalancing step settles the node. */
  lemma {:induction false} OuterRight(start: seq<PriceLevel>, before: seq<PriceLevel>, after: seq<PriceLevel>,
                                      path: Path, root: int,
                                      a: Tree, x: int, b: Tree, i: int, r: Tree, nodes: set<int>)
    requires Focus(before, path, root, Node(a, x, b), i, r)
    requires Height(a) <= 100 && Height(b) <= 100 && Height(r) <= 100
    requires CanRotateRight(before, i) && TurnedRight(before, after, i)
    requires Local(start, before, path, nodes) && Nodes(Node(Node(a, x, b), i, r)) == nodes
    ensures Settled(after, path, SetRoot(root, before[i].parent, x), Node(a, x, Node(b, i, r)))
    ensures Local(start, after, path, nodes)
  {
    RotateRightEffect(before, after, path, root, a, x, b, i, r);
    WithinTransitive(start, before, after, PathNodes(path) + nodes);
  }

  lemma {:induction false} OuterLeft(start: seq<PriceLevel>, before: seq<PriceLevel>, after: seq<PriceLevel>,
                                     path: Path, root: int,
                                     l: Tree, i: int, a: Tree, x: int, b: Tree, nodes: set<int>)
    requires Focus(before, path, root, l, i, Node(a, x, b))
    requires Height(a) <= 100 && Height(b) <= 100 && Height(l) <= 100
    requires CanRotateLeft(before, i) && TurnedLeft(before, after, i)
    requires Local(start, before, path, nodes) && Nodes(Node(l, i, Node(a, x, b))) == nodes
    ensures Settled(after, path, SetRoot(root, before[i].parent, x), Node(Node(l, i, a), x, b))
    ensures Local(start, after, path, nodes)
  {
    RotateLeftEffect(before, after, path, root, l, i, a, x, b);
    WithinTransitive(start, before, after, PathNodes(path) + nodes);
  }
}
