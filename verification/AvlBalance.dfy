/**
 Pure facts about AVL shape: how high a balanced tree over a bounded array can be, and that the
 rotations chosen by the rebalancing step restore balance and move the height by at most one.
 */
module AvlBalance {
  import opened Types
  import opened LevelTree
  import opened Pools

  function Size(t: Tree): nat {
    match t
    case Leaf => 0
    case Node(l, _, r) => 1 + Size(l) + Size(r)
  }

  /** The fewest nodes an AVL tree of height h can have. */
  function MinNodes(h: nat): nat {
    if h == 0 then 0 else if h == 1 then 1 else 1 + MinNodes(h - 1) + MinNodes(h - 2)
  }

  lemma {:induction false} MinNodesMonotone(a: nat, b: nat)
    requires a <= b
    ensures MinNodes(a) <= MinNodes(b)
    decreases b
  {
    if a < b {
      MinNodesMonotone(a, b - 1);
    }
  }

  lemma {:induction false} BalancedHasMinNodes(t: Tree)
    requires Balanced(t)
    ensures MinNodes(Height(t)) <= Size(t)
  {
    match t
    case Leaf =>
    case Node(l, _, r) =>
      BalancedHasMinNodes(l);
      BalancedHasMinNodes(r);
      var h := Height(t);
      if h >= 2 {
        MinNodesMonotone(h - 2, Height(l));
        MinNodesMonotone(h - 2, Height(r));
      }
  }

  lemma {:induction false} SizeIsCardinality(t: Tree)
    requires Disjoint(t)
    ensures |Nodes(t)| == Size(t)
  {
    match t
    case Leaf =>
    case Node(l, i, r) =>
      SizeIsCardinality(l);
      SizeIsCardinality(r);
  }

  lemma {:induction false} MinNodesAt45()
    ensures MinNodes(45) > MAX_INDEX
  {
    assert MinNodes(8) == 54 && MinNodes(9) == 88;
    assert MinNodes(16) == 2583 && MinNodes(17) == 4180;
    assert MinNodes(24) == 121392 && MinNodes(25) == 196417;
    assert MinNodes(32) == 5702886 && MinNodes(33) == 9227464;
    assert MinNodes(40) == 267914295 && MinNodes(41) == 433494436;
  }

  /** Every balanced tree over at most INT32_MAX levels is at most 44 high. */
  lemma {:induction false} HeightBound(t: Tree, n: nat)
    requires Balanced(t) && Disjoint(t) && n <= MAX_INDEX
    requires forall i :: i in Nodes(t) ==> 0 <= i < n
    ensures Height(t) <= 44
  {
    hide MinNodes;
    BalancedHasMinNodes(t);
    SizeIsCardinality(t);
    BoundedSetCardinality(Nodes(t), n);
    MinNodesAt45();
    if Height(t) > 44 {
      MinNodesMonotone(45, Height(t));
    }
  }

  /** A height that the stored int8 represents exactly. */
  lemma Int8Exact(x: int)
    requires 0 <= x <= 127
    ensures Int8(x) == x
  {}

  /** The tree that one rebalancing step leaves in place of Node(l, i, r). */
  function Rebalanced(l: Tree, i: int, r: Tree): Tree {
    if Height(l) > Height(r) + 1 then
      if Height(l.left) < Height(l.right) then
        Node(Node(l.left, l.at, l.right.left), l.right.at, Node(l.right.right, i, r))
      else Node(l.left, l.at, Node(l.right, i, r))
    else if Height(r) > Height(l) + 1 then
      if Height(r.right) < Height(r.left) then
        Node(Node(l, i, r.left.left), r.left.at, Node(r.left.right, r.at, r.right))
      else Node(Node(l, i, r.left), r.at, r.right)
    else Node(l, i, r)
  }

  /**
   A node that was balanced while its children had heights hl and hr, of which at most one has moved
   since, and by at most one: the children now are l and r.
   */
  ghost predicate Disturbed(l: Tree, r: Tree, hl: int, hr: int) {
    -1 <= hl - hr <= 1 &&
    ((hl == Height(l) && -1 <= hr - Height(r) <= 1) || (hr == Height(r) && -1 <= hl - Height(l) <= 1))
  }

  lemma {:induction false} LeftHeavySingle(a: Tree, x: int, b: Tree, i: int, r: Tree)
    requires Balanced(Node(a, x, b)) && Balanced(r)
    requires Height(Node(a, x, b)) == Height(r) + 2 && Height(a) >= Height(b)
    ensures Balanced(Node(a, x, Node(b, i, r)))
    ensures Height(Node(a, x, Node(b, i, r))) == Height(r) + (if Height(a) == Height(b) then 3 else 2)
  {
    assert Height(a) == Height(r) + 1;
    assert Balanced(Node(b, i, r));
  }

  lemma {:induction false} RightHeavySingle(l: Tree, i: int, a: Tree, x: int, b: Tree)
    requires Balanced(l) && Balanced(Node(a, x, b))
    requires Height(Node(a, x, b)) == Height(l) + 2 && Height(b) >= Height(a)
    ensures Balanced(Node(Node(l, i, a), x, b))
    ensures Height(Node(Node(l, i, a), x, b)) == Height(l) + (if Height(a) == Height(b) then 3 else 2)
  {
    assert Height(b) == Height(l) + 1;
    assert Balanced(Node(l, i, a));
  }

  lemma {:induction false} LeftHeavyDouble(a: Tree, x: int, b: Tree, y: int, c: Tree, i: int, r: Tree)
    requires Balanced(Node(a, x, Node(b, y, c))) && Balanced(r)
    requires Height(Node(a, x, Node(b, y, c))) == Height(r) + 2 && Height(a) < Height(Node(b, y, c))
    ensures Balanced(Node(Node(a, x, b), y, Node(c, i, r)))
    ensures Height(Node(Node(a, x, b), y, Node(c, i, r))) == Height(r) + 2
  {
    assert Balanced(Node(b, y, c));
    assert Height(a) == Height(r) && Height(Node(b, y, c)) == Height(r) + 1;
    assert Balanced(Node(a, x, b)) && Balanced(Node(c, i, r));
  }

  lemma {:induction false} RightHeavyDouble(l: Tree, i: int, a: Tree, y: int, b: Tree, x: int, c: Tree)
    requires Balanced(l) && Balanced(Node(Node(a, y, b), x, c))
    requires Height(Node(Node(a, y, b), x, c)) == Height(l) + 2 && Height(c) < Height(Node(a, y, b))
    ensures Balanced(Node(Node(l, i, a), y, Node(b, x, c)))
    ensures Height(Node(Node(l, i, a), y, Node(b, x, c))) == Height(l) + 2
  {
    assert Balanced(Node(a, y, b));
    assert Height(c) == Height(l) && Height(Node(a, y, b)) == Height(l) + 1;
    assert Balanced(Node(l, i, a)) && Balanced(Node(b, x, c));
  }

  /** The rotations restore balance, and the height of the subtree moves by at most one. */
  lemma {:induction false} RebalancedIsBalanced(l: Tree, i: int, r: Tree, hl: int, hr: int)
    requires Balanced(l) && Balanced(r) && Disturbed(l, r, hl, hr)
    ensures Balanced(Rebalanced(l, i, r))
    ensures -1 <= Height(Rebalanced(l, i, r)) - (1 + Max(hl, hr)) <= 1
  {
    if Height(l) > Height(r) + 1 {
      var Node(a, x, b) := l;
      if Height(a) < Height(b) {
        var Node(b1, y, b2) := b;
        LeftHeavyDouble(a, x, b1, y, b2, i, r);
      } else {
        LeftHeavySingle(a, x, b, i, r);
      }
    } else if Height(r) > Height(l) + 1 {
      var Node(a, x, b) := r;
      if Height(b) < Height(a) {
        var Node(a1, y, a2) := a;
        RightHeavyDouble(l, i, a1, y, a2, x, b);
      } else {
        RightHeavySingle(l, i, a, x, b);
      }
    }
  }

  /** Rotating keeps the price order, the set of nodes and their distinctness. */
  lemma {:induction false} RotationKeepsOrder(a: Tree, x: int, b: Tree, y: int, c: Tree)
    ensures Inorder(Node(Node(a, x, b), y, c)) == Inorder(Node(a, x, Node(b, y, c)))
    ensures Nodes(Node(Node(a, x, b), y, c)) == Nodes(Node(a, x, Node(b, y, c)))
    ensures Disjoint(Node(Node(a, x, b), y, c)) <==> Disjoint(Node(a, x, Node(b, y, c)))
  {
    assert Inorder(Node(a, x, b)) == Inorder(a) + [x] + Inorder(b);
    assert Inorder(Node(b, y, c)) == Inorder(b) + [y] + Inorder(c);
    assert Nodes(Node(a, x, b)) == Nodes(a) + {x} + Nodes(b);
    assert Nodes(Node(b, y, c)) == Nodes(b) + {y} + Nodes(c);
    assert Disjoint(Node(a, x, b)) <==>
      x !in Nodes(a) && x !in Nodes(b) && Nodes(a) !! Nodes(b) && Disjoint(a) && Disjoint(b);
    assert Disjoint(Node(b, y, c)) <==>
      y !in Nodes(b) && y !in Nodes(c) && Nodes(b) !! Nodes(c) && Disjoint(b) && Disjoint(c);
  }

  /** The whole rebalancing step keeps the price order, the set of nodes and their distinctness. */
  lemma {:induction false} RebalancedKeepsOrder(l: Tree, i: int, r: Tree)
    ensures Inorder(Rebalanced(l, i, r)) == Inorder(Node(l, i, r))
    ensures Nodes(Rebalanced(l, i, r)) == Nodes(Node(l, i, r))
    ensures Disjoint(Node(l, i, r)) ==> Disjoint(Rebalanced(l, i, r))
  {
    if Height(l) > Height(r) + 1 {
      var Node(a, x, b) := l;
      if Height(a) < Height(b) {
        var Node(b1, y, b2) := b;
        var m := Node(Node(a, x, b1), y, b2);
        RotationKeepsOrder(a, x, b1, y, b2);
        RotationKeepsOrder(Node(a, x, b1), y, b2, i, r);
        assert Disjoint(Node(l, i, r)) ==> Disjoint(Node(m, i, r));
      } else {
        RotationKeepsOrder(a, x, b, i, r);
      }
    } else if Height(r) > Height(l) + 1 {
      var Node(a, x, b) := r;
      if Height(b) < Height(a) {
        var Node(a1, y, a2) := a;
        var m := Node(a1, y, Node(a2, x, b));
        RotationKeepsOrder(a1, y, a2, x, b);
        RotationKeepsOrder(l, i, a1, y, Node(a2, x, b));
        assert Disjoint(Node(l, i, r)) ==> Disjoint(Node(l, i, m));
      } else {
        RotationKeepsOrder(l, i, a, x, b);
      }
    }
  }
}
