/** Strict price order of the levels of a tree, and how a descent by price narrows it. */
module PriceOrder {
  import opened Types
  import opened LevelTree

  ghost predicate Sorted(levels: seq<PriceLevel>, s: seq<int>) {
    (forall a :: 0 <= a < |s| ==> InRange(levels, s[a])) &&
    (forall a, b :: 0 <= a < b < |s| ==> levels[s[a]].price < levels[s[b]].price)
  }

  ghost predicate AllBelow(levels: seq<PriceLevel>, s: seq<int>, p: int) {
    forall a :: 0 <= a < |s| ==> InRange(levels, s[a]) && levels[s[a]].price < p
  }

  ghost predicate AllAbove(levels: seq<PriceLevel>, s: seq<int>, p: int) {
    forall a :: 0 <= a < |s| ==> InRange(levels, s[a]) && levels[s[a]].price > p
  }

  /** The tree that has t in the hole of `path` is in price order, and a search for p has led to that hole. */
  ghost predicate Narrowed(levels: seq<PriceLevel>, path: Path, t: Tree, p: int) {
    Sorted(levels, Before(path) + Inorder(t) + After(path)) &&
    AllBelow(levels, Before(path), p) && AllAbove(levels, After(path), p)
  }

  lemma {:induction false} SortedParts(levels: seq<PriceLevel>, b: seq<int>, i: int, a: seq<int>)
    requires Sorted(levels, b + [i] + a)
    ensures InRange(levels, i)
    ensures Sorted(levels, b) && Sorted(levels, a)
    ensures AllBelow(levels, b, levels[i].price) && AllAbove(levels, a, levels[i].price)
  {
    var s := b + [i] + a;
    assert s[|b|] == i;
    forall k | 0 <= k < |b| ensures s[k] == b[k] {}
    forall k | 0 <= k < |a| ensures s[|b| + 1 + k] == a[k] {}
    forall k | 0 <= k < |b| ensures InRange(levels, b[k]) && levels[b[k]].price < levels[i].price {
      assert levels[s[k]].price < levels[s[|b|]].price;
    }
    forall k | 0 <= k < |a| ensures InRange(levels, a[k]) && levels[a[k]].price > levels[i].price {
      assert levels[s[|b|]].price < levels[s[|b| + 1 + k]].price;
    }
    forall j, k | 0 <= j < k < |a| ensures levels[a[j]].price < levels[a[k]].price {
      assert levels[s[|b| + 1 + j]].price < levels[s[|b| + 1 + k]].price;
    }
  }

  lemma {:induction false} SortedJoin(levels: seq<PriceLevel>, b: seq<int>, i: int, a: seq<int>)
    requires InRange(levels, i)
    requires Sorted(levels, b + a)
    requires AllBelow(levels, b, levels[i].price) && AllAbove(levels, a, levels[i].price)
    ensures Sorted(levels, b + [i] + a)
  {
    var s, t := b + [i] + a, b + a;
    forall j, k | 0 <= j < k < |s|
      ensures InRange(levels, s[j]) && InRange(levels, s[k]) && levels[s[j]].price < levels[s[k]].price
    {
      if j != |b| && k != |b| {
        var j', k' := if j < |b| then j else j - 1, if k < |b| then k else k - 1;
        assert t[j'] == s[j] && t[k'] == s[k];
        assert levels[t[j']].price < levels[t[k']].price;
      }
    }
    forall j | 0 <= j < |s| ensures InRange(levels, s[j]) {
      if j != |b| {
        var j' := if j < |b| then j else j - 1;
        assert t[j'] == s[j];
      }
    }
  }

  /** Dropping one index keeps the order. */
  lemma {:induction false} SortedDrop(levels: seq<PriceLevel>, b: seq<int>, i: int, a: seq<int>)
    requires Sorted(levels, b + [i] + a)
    ensures Sorted(levels, b + a)
  {
    var s, t := b + [i] + a, b + a;
    forall j, k | 0 <= j < k < |t|
      ensures InRange(levels, t[j]) && InRange(levels, t[k]) && levels[t[j]].price < levels[t[k]].price
    {
      var j', k' := if j < |b| then j else j + 1, if k < |b| then k else k + 1;
      assert s[j'] == t[j] && s[k'] == t[k];
      assert levels[s[j']].price < levels[s[k']].price;
    }
    forall j | 0 <= j < |t| ensures InRange(levels, t[j]) {
      var j' := if j < |b| then j else j + 1;
      assert s[j'] == t[j];
    }
  }

  lemma {:induction false} SortedFrame(before: seq<PriceLevel>, after: seq<PriceLevel>, s: seq<int>)
    requires Sorted(before, s) && |after| == |before|
    requires forall i :: 0 <= i < |before| && i in s ==> after[i].price == before[i].price
    ensures Sorted(after, s)
  {
    forall j | 0 <= j < |s| ensures InRange(after, s[j]) && after[s[j]].price == before[s[j]].price {
      assert s[j] in s;
    }
  }

  lemma {:induction false} AboveCons(levels: seq<PriceLevel>, i: int, s: seq<int>, p: int)
    requires InRange(levels, i) && p < levels[i].price && AllAbove(levels, s, levels[i].price)
    ensures AllAbove(levels, [i] + s, p)
  {
    var t := [i] + s;
    forall k | 0 <= k < |t| ensures InRange(levels, t[k]) && levels[t[k]].price > p {
      if k > 0 { assert t[k] == s[k - 1]; }
    }
  }

  lemma {:induction false} BelowSnoc(levels: seq<PriceLevel>, s: seq<int>, i: int, p: int)
    requires InRange(levels, i) && p > levels[i].price && AllBelow(levels, s, levels[i].price)
    ensures AllBelow(levels, s + [i], p)
  {
    var t := s + [i];
    forall k | 0 <= k < |t| ensures InRange(levels, t[k]) && levels[t[k]].price < p {
      if k < |s| { assert t[k] == s[k]; }
    }
  }

  lemma {:induction false} Regroup(b: seq<int>, l: seq<int>, i: int, r: seq<int>, a: seq<int>)
    ensures b + (l + [i] + r) + a == (b + l) + [i] + (r + a)
    ensures b + l + ([i] + r + a) == b + (l + [i] + r) + a
    ensures (b + l + [i]) + r + a == b + (l + [i] + r) + a
    ensures [i] + r + a == [i] + (r + a)
  {}

  /** The price order around a node, split at that node; it is the same seen from either child. */
  lemma {:induction false} OrderSplit(path: Path, l: Tree, i: int, r: Tree)
    ensures Before(path) + Inorder(Node(l, i, r)) + After(path) ==
              (Before(path) + Inorder(l)) + [i] + (Inorder(r) + After(path))
    ensures Before(InLeft(path, i, r)) + Inorder(l) + After(InLeft(path, i, r)) ==
              Before(path) + Inorder(Node(l, i, r)) + After(path)
    ensures Before(InRight(path, l, i)) + Inorder(r) + After(InRight(path, l, i)) ==
              Before(path) + Inorder(Node(l, i, r)) + After(path)
    ensures After(InLeft(path, i, r)) == [i] + (Inorder(r) + After(path)) && Before(InLeft(path, i, r)) == Before(path)
    ensures Before(InRight(path, l, i)) == (Before(path) + Inorder(l)) + [i] &&
            After(InRight(path, l, i)) == After(path)
  {
    Regroup(Before(path), Inorder(l), i, Inorder(r), After(path));
  }

  lemma {:induction false} DescendLeft(levels: seq<PriceLevel>, path: Path, l: Tree, i: int, r: Tree, p: int)
    requires Narrowed(levels, path, Node(l, i, r), p) && InRange(levels, i) && p < levels[i].price
    ensures Narrowed(levels, InLeft(path, i, r), l, p)
  {
    hide Inorder, Before, After, Sorted, AllAbove, AllBelow;
    OrderSplit(path, l, i, r);
    SortedParts(levels, Before(path) + Inorder(l), i, Inorder(r) + After(path));
    AboveCons(levels, i, Inorder(r) + After(path), p);
  }

  lemma {:induction false} DescendRight(levels: seq<PriceLevel>, path: Path, l: Tree, i: int, r: Tree, p: int)
    requires Narrowed(levels, path, Node(l, i, r), p) && InRange(levels, i) && p > levels[i].price
    ensures Narrowed(levels, InRight(path, l, i), r, p)
  {
    hide Inorder, Before, After, Sorted, AllAbove, AllBelow;
    OrderSplit(path, l, i, r);
    SortedParts(levels, Before(path) + Inorder(l), i, Inorder(r) + After(path));
    BelowSnoc(levels, Before(path) + Inorder(l), i, p);
  }

  lemma {:induction false} PathNodesInorder(path: Path, j: int)
    ensures j in PathNodes(path) <==> j in Before(path) || j in After(path)
  {
    match path
    case Top =>
    case InLeft(up, i, r) =>
      PathNodesInorder(up, j);
      NodesInorder(r, j);
    case InRight(up, l, i) =>
      PathNodesInorder(up, j);
      NodesInorder(l, j);
  }

  /** A search that has run out of tree has looked at every level that could hold the price. */
  lemma {:induction false} NotFound(levels: seq<PriceLevel>, path: Path, p: int)
    requires AllBelow(levels, Before(path), p) && AllAbove(levels, After(path), p)
    ensures forall i :: i in PathNodes(path) ==> InRange(levels, i) && levels[i].price != p
  {
    hide PathNodes, Before, After;
    forall i | i in PathNodes(path) ensures InRange(levels, i) && levels[i].price != p {
      PathNodesInorder(path, i);
    }
  }
}
