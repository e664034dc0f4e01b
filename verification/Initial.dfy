/** The empty book that the constructor leaves. */
module Initial {
  import opened Types
  import opened LevelTree
  import opened Pools
  import opened LevelIndex
  import opened Probing
  import opened BookSpec
  import opened Represent
  import opened Compose

  const NO_SHADOW: Shadow := Shadow(map[], map[], map[], EMPTY)

  /** The free list that links every slot to the next one. */
  function Chain(n: nat): (s: seq<int>)
    ensures |s| == n
  {
    seq(n, i => i)
  }

  function ChainNext(i: int, n: int): int { if i + 1 < n then i + 1 else NONE }

  ghost predicate Fresh(st: Snapshot) {
    0 < |st.orders| <= MAX_INDEX && 0 < |st.view.levels| <= MAX_INDEX &&
    (forall i :: 0 <= i < |st.orders| ==> st.orders[i] == BlankOrder(ChainNext(i, |st.orders|))) &&
    (forall i :: 0 <= i < |st.view.levels| ==> st.view.levels[i] == BlankLevel(ChainNext(i, |st.view.levels|))) &&
    st.freeOrder == 0 && st.view.freeLevel == 0 && st.freeOrders == Chain(|st.orders|) &&
    st.view.free == Chain(|st.view.levels|) &&
    st.view.bidRoot == NONE && st.view.askRoot == NONE && st.view.bids == Leaf && st.view.asks == Leaf &&
    st.active == 0 && st.view.active == 0 && st.shadow == NO_SHADOW &&
    |st.lookup| > 2 * |st.orders| && forall i :: 0 <= i < |st.lookup| ==> st.lookup[i] == Slot(0, NONE, Empty)
  }

  lemma {:induction false} FreshOrders(orders: seq<Order>)
    requires orders != [] && forall i :: 0 <= i < |orders| ==> orders[i] == BlankOrder(ChainNext(i, |orders|))
    ensures OrderPool(orders, 0, Chain(|orders|))
  {}

  lemma {:induction false} FreshLevels(levels: seq<PriceLevel>)
    requires levels != [] && |levels| <= MAX_INDEX &&
             forall i :: 0 <= i < |levels| ==> levels[i] == BlankLevel(ChainNext(i, |levels|))
    ensures LevelsOk(levels, Leaf, NONE, Leaf, NONE, 0, Chain(|levels|))
  {
    assert LevelPool(levels, 0, Chain(|levels|));
    assert Inorder(Leaf) == [] && Nodes(Leaf) == {};
  }

  lemma {:induction false} FreshLookup(lookup: seq<Slot<int>>, mix: u64 -> u64)
    requires lookup != [] && forall i :: 0 <= i < |lookup| ==> lookup[i] == Slot(0, NONE, Empty)
    ensures LookupOk(lookup, mix, map[])
  {}

  /** The constructed state represents the empty book. */
  lemma {:induction false} FreshOk(st: Snapshot, mix: u64 -> u64)
    requires Fresh(st)
    ensures BookOk(st, mix)
  {
    hide LevelsOk, LookupOk, OrderPool, Fits, Chain, ChainNext;
    FreshOrders(st.orders);
    FreshLevels(st.view.levels);
    FreshLookup(st.lookup, mix);
    assert |st.shadow.index| == 0 && |st.shadow.at| == 0;
    assert QueuesOk(st.orders, st.view.levels, st.shadow);
    assert Nodes(Leaf) == {};
  }
}
