/** Walking the levels of one side in price order along child and parent links, as a market-depth query does. */
module Walk {
  import opened Types
  import opened LevelTree
  import opened AvlBalance
  import opened PriceOrder
  import opened Rebalance
  import opened Splice
  import opened Successor
  import opened LevelIndex
  import opened Fifo
  import opened BookSpec
  import opened Represent
  import opened Compose
  import opened Pools
  import opened Depth
  import opened Cost

  /** What a walk that stands at a node has passed: the cheaper asks, or the dearer bids. */
  function Passed(side: Side, path: Path, l: Tree, r: Tree): seq<int> {
    if side == Sell then Before(path) + Inorder(l) else Inorder(r) + After(path)
  }

  /** The same, with the node itself passed as well. */
  function PassedToo(side: Side, path: Path, l: Tree, i: int, r: Tree): seq<int> {
    if side == Sell then Before(path) + Inorder(l) + [i] else [i] + Inorder(r) + After(path)
  }

  /** What has been passed once the whole subtree t and what is on its near side have been. */
  function PassedAll(side: Side, path: Path, t: Tree): seq<int> {
    if side == Sell then Before(path) + Inorder(t) else Inorder(t) + After(path)
  }

  /** A walk stands at node i of a tree, which has passed and to-be-passed nodes around it. */
  ghost predicate At(levels: seq<PriceLevel>, path: Path, l: Tree, i: int, r: Tree, root: int, order: seq<int>) {
    InRange(levels, i) && Descent(levels, path, Node(l, i, r), root, levels[i].parent, i) &&
    OrderAround(path, Node(l, i, r)) == order
  }

  lemma {:induction false} ChainEnds(path: Path, base: Path)
    ensures LeftChain(path, base) ==> Before(path) == Before(base)
    ensures RightChain(path, base) ==> After(path) == After(base)
  {
    if path != base && path != Top {
      ChainEnds(path.up, base);
    }
  }

  // ---------- Climbing ----------

  /** A subtree below its parent is also seen from the parent. */
  lemma {:induction false} AscendLeft(levels: seq<PriceLevel>, up: Path, i: int, r: Tree, t: Tree, root: int, cur: int)
    requires Descent(levels, InLeft(up, i, r), t, root, i, cur)
    ensures InRange(levels, i) && Descent(levels, up, Node(t, i, r), root, levels[i].parent, i)
    ensures OrderAround(up, Node(t, i, r)) == OrderAround(InLeft(up, i, r), t)
    ensures cur != NONE ==> levels[i].left == cur && levels[i].right != cur
  {
    OrderLeft(up, i, r, t);
    LinkedInRange(levels, r, levels[i].right, i);
    LinkedInRange(levels, t, cur, i);
    assert Nodes(Node(t, i, r)) == Nodes(t) + {i} + Nodes(r);
    hide PathLinked, PathHeights, PathBalanced;
    assert Separate(up, Node(t, i, r));
  }

  lemma {:induction false} AscendRight(levels: seq<PriceLevel>, up: Path, l: Tree, i: int, t: Tree, root: int, cur: int)
    requires Descent(levels, InRight(up, l, i), t, root, i, cur)
    ensures InRange(levels, i) && Descent(levels, up, Node(l, i, t), root, levels[i].parent, i)
    ensures OrderAround(up, Node(l, i, t)) == OrderAround(InRight(up, l, i), t)
    ensures cur != NONE ==> levels[i].right == cur && levels[i].left != cur
  {
    OrderRight(up, l, i, t);
    LinkedInRange(levels, l, levels[i].left, i);
    LinkedInRange(levels, t, cur, i);
    assert Nodes(Node(l, i, t)) == Nodes(l) + {i} + Nodes(t);
    hide PathLinked, PathHeights, PathBalanced;
    assert Separate(up, Node(l, i, t));
  }

  lemma {:induction false} ParentOf(levels: seq<PriceLevel>, path: Path, t: Tree, root: int, parent: int, cur: int)
    requires Descent(levels, path, t, root, parent, cur)
    ensures parent == (if path == Top then NONE else path.at)
    ensures path != Top ==> parent != NONE
  {}

  /** The child link along which a walk goes on, and along which climbing finds only nodes it has passed. */
  function Onward(level: PriceLevel, side: Side): int { if side == Buy then level.left else level.right }

  /** One step up: either everything below the parent has been passed as well, or the parent is next. */
  lemma {:induction false} StepUp(levels: seq<PriceLevel>, side: Side, q: Path, t: Tree, root: int, p: int, cur: int)
    returns (up: Path, l: Tree, r: Tree)
    requires Descent(levels, q, t, root, p, cur) && p != NONE && cur != NONE
    ensures InRange(levels, p) && At(levels, up, l, p, r, root, OrderAround(q, t)) && q != Top && up == q.up
    ensures if Onward(levels[p], side) == cur then PassedAll(side, up, Node(l, p, r)) == PassedAll(side, q, t)
            else Passed(side, up, l, r) == PassedAll(side, q, t)
    ensures Potential(side, q) == Potential(side, up) + if Onward(levels[p], side) == cur then 1 else -1
  {
    hide Descent, OrderAround, At, Passed, PassedAll;
    ParentOf(levels, q, t, root, p, cur);
    match q
    case InLeft(q', i, s) =>
      up, l, r := q', t, s;
      AscendLeft(levels, q', i, s, t, root, cur);
      PassedLeft(q', i, s, t);
      Arrive(levels, up, l, p, r, root, OrderAround(q, t));
    case InRight(q', s, i) =>
      up, l, r := q', s, t;
      AscendRight(levels, q', s, i, t, root, cur);
      PassedRight(q', s, i, t);
      Arrive(levels, up, l, p, r, root, OrderAround(q, t));
  }

  /** What has been passed, seen from a left child and from its parent. */
  lemma {:induction false} PassedLeft(up: Path, i: int, s: Tree, t: Tree)
    ensures PassedAll(Buy, up, Node(t, i, s)) == PassedAll(Buy, InLeft(up, i, s), t)
    ensures Passed(Sell, up, t, s) == PassedAll(Sell, InLeft(up, i, s), t)
  {
    assert Inorder(Node(t, i, s)) == Inorder(t) + [i] + Inorder(s);
  }

  lemma {:induction false} PassedRight(up: Path, s: Tree, i: int, t: Tree)
    ensures PassedAll(Sell, up, Node(s, i, t)) == PassedAll(Sell, InRight(up, s, i), t)
    ensures Passed(Buy, up, s, t) == PassedAll(Buy, InRight(up, s, i), t)
  {
    assert Inorder(Node(s, i, t)) == Inorder(s) + [i] + Inorder(t);
  }

  lemma {:induction false} ClimbStart(side: Side, path: Path, l: Tree, i: int, r: Tree)
    requires if side == Buy then l == Leaf else r == Leaf
    ensures PassedAll(side, path, Node(l, i, r)) == PassedToo(side, path, l, i, r)
  {
    assert Inorder(Leaf) == [];
  }

  lemma {:induction false} ClimbedOut(levels: seq<PriceLevel>, side: Side, q: Path, t: Tree, root: int, cur: int)
    requires Descent(levels, q, t, root, NONE, cur)
    ensures PassedAll(side, q, t) == OrderAround(q, t) && q == Top
  {
    ParentOf(levels, q, t, root, NONE, cur);
  }

  /** The children of the node where a walk stands. */
  lemma {:induction false} AtChildren(levels: seq<PriceLevel>, path: Path, l: Tree, i: int, r: Tree, root: int,
                                      order: seq<int>)
    requires At(levels, path, l, i, r, root, order)
    ensures InRange(levels, i) && OrderAround(path, Node(l, i, r)) == order
    ensures i != NONE && (levels[i].left == NONE <==> l == Leaf) && (levels[i].right == NONE <==> r == Leaf)
    ensures Descent(levels, InLeft(path, i, r), l, root, i, levels[i].left) &&
            OrderAround(InLeft(path, i, r), l) == order
    ensures Descent(levels, InRight(path, l, i), r, root, i, levels[i].right) &&
            OrderAround(InRight(path, l, i), r) == order
    ensures Descent(levels, path, Node(l, i, r), root, levels[i].parent, i)
  {
    hide Descent;
    DescentLeft(levels, path, l, i, r, root, levels[i].parent);
    DescentRight(levels, path, l, i, r, root, levels[i].parent);
    DescentShape(levels, InLeft(path, i, r), l, root, i, levels[i].left);
    DescentShape(levels, InRight(path, l, i), r, root, i, levels[i].right);
  }

  /** Where Extreme ends below node i, exactly i and what was passed before it have been passed. */
  lemma {:induction false} ExtremePassed(side: Side, path: Path, l: Tree, i: int, r: Tree, to: Path, child: Tree)
    requires if side == Buy then RightChain(to, InLeft(path, i, r)) else LeftChain(to, InRight(path, l, i))
    ensures Passed(side, to, if side == Buy then child else Leaf, if side == Buy then Leaf else child) ==
              PassedToo(side, path, l, i, r)
  {
    hide LeftChain, RightChain;
    assert Inorder(Leaf) == [];
    if side == Buy { ChainEnds(to, InLeft(path, i, r)); } else { ChainEnds(to, InRight(path, l, i)); }
  }

  lemma {:induction false} Arrive(levels: seq<PriceLevel>, path: Path, l: Tree, i: int, r: Tree, root: int,
                                  order: seq<int>)
    requires InRange(levels, i) && Descent(levels, path, Node(l, i, r), root, levels[i].parent, i) &&
             OrderAround(path, Node(l, i, r)) == order
    ensures At(levels, path, l, i, r, root, order)
  {
    hide Descent, OrderAround;
  }

  lemma {:induction false} ParentInRange(levels: seq<PriceLevel>, path: Path, t: Tree, root: int, parent: int, cur: int)
    requires Descent(levels, path, t, root, parent, cur)
    ensures parent == NONE || InRange(levels, parent)
  {}

  // ---------- The cost of a walk ----------

  /** The ancestors that a best-first walk has yet to visit: those it has turned away from to better prices. */
  function Pending(side: Side, path: Path): nat {
    match path
    case Top => 0
    case InLeft(up, _, _) => Pending(side, up) + if side == Sell then 1 else 0
    case InRight(up, _, _) => Pending(side, up) + if side == Buy then 1 else 0
  }

  /** A walk that follows many links in one go has lowered this before. */
  function Potential(side: Side, path: Path): int { Length(path) - 2 * Pending(side, path) }

  lemma {:induction false} PendingBound(side: Side, path: Path)
    ensures Pending(side, path) <= Length(path)
  {
    if path != Top { PendingBound(side, path.up); }
  }

  /** Every link of the descent to the best price of a subtree leaves one more ancestor to visit. */
  lemma {:induction false} ChainPotential(side: Side, path: Path, base: Path)
    requires if side == Buy then RightChain(path, base) else LeftChain(path, base)
    ensures Potential(side, path) == Potential(side, base) + Length(base) - Length(path)
  {
    if path != base { ChainPotential(side, path.up, base); }
  }

  lemma {:induction false} OrderSize(t: Tree)
    ensures |Inorder(t)| == Size(t)
  {
    if t.Node? {
      OrderSize(t.left);
      OrderSize(t.right);
    }
  }

  lemma {:induction false} PathOrderSize(path: Path)
    ensures |Before(path)| + |After(path)| == PathSize(path)
  {
    match path
    case Top =>
    case InLeft(up, _, r) =>
      PathOrderSize(up);
      OrderSize(r);
    case InRight(up, l, _) =>
      PathOrderSize(up);
      OrderSize(l);
  }

  /** A walk never stands deeper than a tree of so many levels is high. */
  lemma {:induction false} AtCost(levels: seq<PriceLevel>, path: Path, l: Tree, i: int, r: Tree, root: int,
                                  order: seq<int>)
    requires At(levels, path, l, i, r, root, order)
    ensures Length(path) + 1 <= MaxHeight(|order|)
  {
    hide MaxHeight, Inorder, Before, After, NodesAround, PathSize, Length, PathLinked, Linked, PathHeights,
         PathBalanced, Balanced, Separate;
    DescentCost(levels, path, Node(l, i, r), root, levels[i].parent, i);
    SizeAround(path, Node(l, i, r));
    PathOrderSize(path);
    OrderSize(Node(l, i, r));
  }

  // ---------- From levels to the abstract book ----------

  function QuoteOf(level: PriceLevel): Quote { Quote(level.price, level.totalQuantity, level.orderCount) }

  /** The j-th best of the levels of one side, which `order` lists by increasing price. */
  function Best(side: Side, order: seq<int>, j: int): int
    requires 0 <= j < |order|
  {
    if side == Buy then order[|order| - 1 - j] else order[j]
  }

  lemma {:induction false} SharesTotal(orders: seq<Order>, entries: map<u64, Entry>, q: seq<int>, ids: seq<u64>)
    requires Indices(orders, q) && |ids| == |q|
    requires forall j :: 0 <= j < |q| ==> ids[j] in entries && entries[ids[j]].quantity == orders[q[j]].quantity
    ensures Shares(entries, ids) == Total(orders, q)
  {
    if q != [] {
      SharesTotal(orders, entries, q[1..], ids[1..]);
    }
  }

  /** A level quotes its price of the abstract book exactly. */
  lemma {:induction false} LevelQuotes(orders: seq<Order>, v: LevelsView, s: Shadow, side: Side, i: int)
    requires CoreOk(orders, v, s) && i in Nodes(v.TreeOf(side))
    ensures InRange(v.levels, i) && Quotes(s.book, side, QuoteOf(v.levels[i]))
  {
    hide LevelsOk, Injective, Queued, Shares, Total, Nodes;
    var k := Key(side, v.levels[i].price);
    assert k in s.at && s.at[k] == i;
    AtInRange(orders, v.levels, s, k);
    var q, ids := s.queue[k], s.book.queues[k];
    forall j | 0 <= j < |q| ensures ids[j] in s.book.orders && s.book.orders[ids[j]].quantity == orders[q[j]].quantity {
      assert EntryOk(orders, s, ids[j]);
    }
    SharesTotal(orders, s.book.orders, q, ids);
  }

  lemma {:induction false} BestOrdered(v: LevelsView, side: Side, order: seq<int>, i: int, j: int)
    requires ViewOk(v) && order == Inorder(v.TreeOf(side)) && 0 <= i < j < |order|
    ensures InRange(v.levels, Best(side, order, i)) && InRange(v.levels, Best(side, order, j))
    ensures Better(side, v.levels[Best(side, order, i)].price, v.levels[Best(side, order, j)].price)
  {
    hide Avl, LevelPool, Nodes, Inorder;
    assert Sorted(v.levels, order);
  }

  /** Every price of the book is found at some rank. */
  lemma {:induction false} Ranked(orders: seq<Order>, v: LevelsView, s: Shadow, side: Side, p: u32) returns (j: int)
    requires CoreOk(orders, v, s) && Key(side, p) in s.book.queues
    ensures var order := Inorder(v.TreeOf(side));
            0 <= j < |order| && InRange(v.levels, Best(side, order, j)) && v.levels[Best(side, order, j)].price == p
  {
    hide LevelsOk, Injective, QueueOk, EntryOk, Nodes, Inorder;
    var order, i := Inorder(v.TreeOf(side)), s.at[Key(side, p)];
    NodesInorder(v.TreeOf(side), i);
    j :| 0 <= j < |order| && order[j] == i;
    if side == Buy { j := |order| - 1 - j; }
  }

  /** `out` lists the best levels in order. */
  ghost predicate Shown(levels: seq<PriceLevel>, side: Side, order: seq<int>, out: seq<Quote>) {
    |out| <= |order| &&
    forall j :: 0 <= j < |out| ==>
        InRange(levels, Best(side, order, j)) && out[j] == QuoteOf(levels[Best(side, order, j)])
  }

  /** A walk that has passed n levels and stands at i, or has passed them all. */
  ghost predicate Standing(levels: seq<PriceLevel>, side: Side, path: Path, l: Tree, i: int, r: Tree, root: int,
                           order: seq<int>, n: int) {
    if i == NONE then n == |order| else At(levels, path, l, i, r, root, order) && |Passed(side, path, l, r)| == n
  }

  lemma {:induction false} StandingCost(levels: seq<PriceLevel>, side: Side, path: Path, l: Tree, i: int, r: Tree,
                                        root: int, order: seq<int>, n: int)
    requires Standing(levels, side, path, l, i, r, root, order, n)
    ensures i != NONE ==> 1 - Potential(side, path) <= MaxHeight(|order|) && 1 <= MaxHeight(|order|)
  {
    hide MaxHeight, At, Passed;
    if i != NONE {
      AtCost(levels, path, l, i, r, root, order);
      PendingBound(side, path);
    }
  }

  lemma {:induction false} ShowNext(levels: seq<PriceLevel>, side: Side, path: Path, l: Tree, i: int, r: Tree,
                                    root: int, order: seq<int>, out: seq<Quote>)
    requires Standing(levels, side, path, l, i, r, root, order, |out|) && i != NONE && Shown(levels, side, order, out)
    ensures InRange(levels, i) && Shown(levels, side, order, out + [QuoteOf(levels[i])]) &&
            |PassedToo(side, path, l, i, r)| == |out| + 1
    ensures At(levels, path, l, i, r, root, order)
  {
    hide At, Passed, PassedToo, Shown, Best, Descent, Inorder;
    AtChildren(levels, path, l, i, r, root, order);
    RankOf(levels, side, path, l, i, r, root, order);
    ShownSnoc(levels, side, order, out, i);
  }

  lemma {:induction false} ShownSnoc(levels: seq<PriceLevel>, side: Side, order: seq<int>, out: seq<Quote>, i: int)
    requires Shown(levels, side, order, out) && |out| < |order| && Best(side, order, |out|) == i && InRange(levels, i)
    ensures Shown(levels, side, order, out + [QuoteOf(levels[i])])
  {}

  /** A walk that has passed n levels stands at the level of rank n. */
  lemma {:induction false} StandingRank(levels: seq<PriceLevel>, side: Side, path: Path, l: Tree, i: int, r: Tree,
                                        root: int, order: seq<int>, n: int)
    requires Standing(levels, side, path, l, i, r, root, order, n)
    ensures 0 <= n <= |order| && i == if n == |order| then NONE else Best(side, order, n)
  {
    hide At, Passed, Best;
    if i != NONE { RankOf(levels, side, path, l, i, r, root, order); }
  }

  lemma {:induction false} ShownLength(levels: seq<PriceLevel>, side: Side, path: Path, l: Tree, i: int, r: Tree,
                                       root: int, order: seq<int>, out: seq<Quote>)
    requires Standing(levels, side, path, l, i, r, root, order, |out|) && i == NONE
    ensures |out| == |order|
  {}

  /** The levels in best-first order answer a depth query. */
  lemma {:induction false} DepthFromOrder(orders: seq<Order>, v: LevelsView, s: Shadow, side: Side, room: nat,
                                          out: seq<Quote>)
    requires CoreOk(orders, v, s)
    requires Shown(v.levels, side, Inorder(v.TreeOf(side)), out) && |out| <= room &&
             (|out| == room || |out| == |Inorder(v.TreeOf(side))|)
    ensures DepthOf(s.book, side, room, out)
  {
    hide CoreOk, ViewOk, Nodes, Inorder, Quotes;
    CoreView(orders, v, s);
    var order := Inorder(v.TreeOf(side));
    forall j | 0 <= j < |out| ensures Quotes(s.book, side, out[j]) {
      NodesInorder(v.TreeOf(side), Best(side, order, j));
      LevelQuotes(orders, v, s, side, Best(side, order, j));
    }
    forall i, j | 0 <= i < j < |out| ensures Better(side, out[i].price, out[j].price) {
      BestOrdered(v, side, order, i, j);
    }
    forall p: u32 | Key(side, p) in s.book.queues && !Lists(out, p)
      ensures |out| == room && forall i :: 0 <= i < |out| ==> Better(side, out[i].price, p)
    {
      var r := Ranked(orders, v, s, side, p);
      forall j | 0 <= j < |out| ensures v.levels[Best(side, order, j)].price != p {
        assert out[j].price != p;
      }
      forall i | 0 <= i < |out| ensures Better(side, out[i].price, p) {
        BestOrdered(v, side, order, i, r);
      }
    }
  }

  /** Where a walk stands, n levels having been passed, is the level of rank n. */
  lemma {:induction false} RankOf(levels: seq<PriceLevel>, side: Side, path: Path, l: Tree, i: int, r: Tree, root: int,
                                  order: seq<int>)
    requires At(levels, path, l, i, r, root, order)
    ensures |Passed(side, path, l, r)| < |order| && Best(side, order, |Passed(side, path, l, r)|) == i
    ensures |PassedToo(side, path, l, i, r)| == |Passed(side, path, l, r)| + 1
  {
    hide Descent;
    OrderSplit(path, l, i, r);
    assert order == (Before(path) + Inorder(l)) + [i] + (Inorder(r) + After(path));
  }

  lemma {:induction false} SideTree(orders: seq<Order>, v: LevelsView, s: Shadow, side: Side)
    requires CoreOk(orders, v, s)
    ensures Avl(v.levels, v.TreeOf(side), v.RootOf(side))
  {
    hide Avl, LevelMap, QueuesOk, LevelPool, Nodes, Sorted;
  }

  lemma {:induction false} NearestPassed(side: Side, path: Path, child: Tree)
    ensures Inorder(Leaf) == []
    ensures (if side == Buy then RightChain(path, Top) else LeftChain(path, Top)) ==>
      Passed(side, path, if side == Buy then child else Leaf, if side == Buy then Leaf else child) == []
  {
    hide LeftChain, RightChain;
    ChainEnds(path, Top);
  }

  lemma {:induction false} NoneShown(levels: seq<PriceLevel>, side: Side, order: seq<int>, out: seq<Quote>)
    requires out == []
    ensures Shown(levels, side, order, out)
  {}

  lemma {:induction false} BookCore(st: Snapshot, mix: u64 -> u64)
    requires BookOk(st, mix)
    ensures CoreOk(st.orders, st.view, st.shadow)
  {
    hide CoreOk, OrderPool, LookupOk, Tally, Coherent;
  }

  lemma {:induction false} TopsFrom(st: Snapshot, mix: u64 -> u64, side: Side, path: Path, l: Tree, i: int, r: Tree,
                                    root: int)
    requires BookOk(st, mix) && Standing(st.view.levels, side, path, l, i, r, root, Inorder(st.view.TreeOf(side)), 0)
    ensures i != NONE ==> InRange(st.view.levels, i)
    ensures Tops(st.shadow.book, side, if i == NONE then NO_QUOTE else QuoteOf(st.view.levels[i]))
  {
    hide BookOk, CoreOk, At, Inorder, Standing, Shown, PassedToo, OrderPool, LookupOk, Tally;
    StateFacts(st, mix);
    var order := Inorder(st.view.TreeOf(side));
    NoneShown(st.view.levels, side, order, []);
    if i == NONE {
      ShownLength(st.view.levels, side, path, l, i, r, root, order, []);
      DepthFromOrder(st.orders, st.view, st.shadow, side, 1, []);
    } else {
      ShowNext(st.view.levels, side, path, l, i, r, root, order, []);
      var q := QuoteOf(st.view.levels[i]);
      assert [] + [q] == [q];
      DepthFromOrder(st.orders, st.view, st.shadow, side, 1, [q]);
      assert Quotes(st.shadow.book, side, [q][0]);
    }
  }
}
