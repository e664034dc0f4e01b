/** How the level trees and the queues live together in the one level array. */
module Compose {
  import opened Types
  import opened LevelTree
  import opened PriceOrder
  import opened Rebalance
  import opened Pools
  import opened LevelIndex
  import opened Probing
  import opened BookSpec
  import opened Represent

  /** A level whose queue data alone has changed. */
  ghost predicate SameShape(a: PriceLevel, b: PriceLevel) {
    SameLinks(a, b) && a.price == b.price && a.active == b.active
  }

  ghost predicate DataOnly(before: seq<PriceLevel>, after: seq<PriceLevel>, li: int) {
    |after| == |before| && InRange(before, li) && SameShape(before[li], after[li]) &&
    forall i :: 0 <= i < |before| && i != li ==> after[i] == before[i]
  }

  /** Trees, pool and level map do not see queue data. */
  lemma {:induction false} LevelsFrame(before: seq<PriceLevel>, after: seq<PriceLevel>, bids: Tree, bidRoot: int,
                                       asks: Tree, askRoot: int,
                                       freeLevel: int, free: seq<int>, at: map<Key, int>, li: int)
    requires LevelsOk(before, bids, bidRoot, asks, askRoot, freeLevel, free) && LevelMap(before, at, bids, asks)
    requires DataOnly(before, after, li) && before[li].active
    ensures LevelsOk(after, bids, bidRoot, asks, askRoot, freeLevel, free) && LevelMap(after, at, bids, asks)
  {
    hide Avl, Sorted, Nodes, Inorder;
    ActiveNotFree(before, freeLevel, free, li);
    assert forall i :: i in Nodes(bids) ==> before[i].active;
    assert forall i :: i in Nodes(asks) ==> before[i].active;
    PriceTreeFrame(before, after, bids, bidRoot);
    PriceTreeFrame(before, after, asks, askRoot);
    LevelPoolFrame(before, after, freeLevel, free);
  }

  /** The price of a new level appears in the map. */
  lemma {:induction false} LevelMapAdd(before: seq<PriceLevel>, after: seq<PriceLevel>, at: map<Key, int>, bids: Tree,
                                       asks: Tree,
                                       bids': Tree, asks': Tree, k: Key, n: int)
    requires LevelMap(before, at, bids, asks) && LevelAdded(before, after, n, k.price) && k !in at
    requires n !in Nodes(bids) && n !in Nodes(asks)
    requires if k.side == Buy then Nodes(bids') == Nodes(bids) + {n} && asks' == asks
             else Nodes(asks') == Nodes(asks) + {n} && bids' == bids
    ensures LevelMap(after, at[k := n], bids', asks')
    ensures forall x :: x in at ==> at[x] != n
  {
    hide Nodes;
  }

  /** The price of a dropped level disappears from the map. */
  lemma {:induction false} LevelMapDrop(before: seq<PriceLevel>, after: seq<PriceLevel>, at: map<Key, int>, bids: Tree,
                                        asks: Tree,
                                        bids': Tree, asks': Tree, k: Key)
    requires LevelMap(before, at, bids, asks) && k in at && LevelDropped(before, after, at[k]) &&
             Nodes(bids) !! Nodes(asks)
    requires if k.side == Buy then Nodes(bids') == Nodes(bids) - {at[k]} && asks' == asks
             else Nodes(asks') == Nodes(asks) - {at[k]} && bids' == bids
    ensures LevelMap(after, at - {k}, bids', asks')
  {
    hide Nodes;
    LevelMapInjective(before, at, bids, asks, k);
  }

  lemma {:induction false} LevelMapInjective(levels: seq<PriceLevel>, at: map<Key, int>, bids: Tree, asks: Tree, k: Key)
    requires LevelMap(levels, at, bids, asks) && k in at && Nodes(bids) !! Nodes(asks)
    ensures forall x :: x in at && x != k ==> at[x] != at[k]
  {
    hide Nodes;
    forall x | x in at && x != k ensures at[x] != at[k] {
      assert x.side == k.side ==> levels[at[x]].price == x.price;
    }
  }

  /** The level at a price is found through the tree exactly when the map has the price. */
  lemma {:induction false} InMapInTree(levels: seq<PriceLevel>, at: map<Key, int>, bids: Tree, asks: Tree, k: Key)
    requires LevelMap(levels, at, bids, asks)
    ensures var t := if k.side == Buy then bids else asks;
            (k in at <==> exists j :: j in Nodes(t) && InRange(levels, j) && levels[j].price == k.price) &&
            (k in at ==> at[k] in Nodes(t)) &&
            forall j :: j in Nodes(t) && InRange(levels, j) && levels[j].price == k.price ==> k in at && at[k] == j
  {}

  lemma {:induction false} AppendIsData(orders: seq<Order>, levels: seq<PriceLevel>, li: int, o: int)
    requires CanAppend(orders, levels, li, o)
    ensures DataOnly(levels, LevelsAfterAppend(orders, levels, li, o), li)
  {}

  lemma {:induction false} UnlinkIsData(orders: seq<Order>, levels: seq<PriceLevel>, li: int, o: int)
    requires InRange(levels, li) && 0 <= o < |orders|
    ensures DataOnly(levels, LevelsAfterUnlink(orders, levels, li, o), li)
  {}

  lemma {:induction false} ReduceIsData(orders: seq<Order>, levels: seq<PriceLevel>, li: int, o: int, quantity: u32)
    requires CanReduce(orders, levels, li, o, quantity)
    ensures DataOnly(levels, LevelsAfterReduce(orders, levels, li, o, quantity), li)
  {}

  /** Order slots named by the index are in use, so they are not free. */
  lemma {:induction false} IndexedNotFree(orders: seq<Order>, levels: seq<PriceLevel>, s: Shadow, head: int,
                                          free: seq<int>)
    requires QueuesOk(orders, levels, s) && OrderPool(orders, head, free)
    ensures forall id :: id in s.index ==> s.index[id] !in free && 0 <= s.index[id] < |orders| && s.index[id] != NONE
  {
    hide QueueOk;
    forall id | id in s.index ensures s.index[id] !in free && 0 <= s.index[id] < |orders| {
      assert EntryOk(orders, s, id);
    }
  }

  lemma {:induction false} LevelsApart(levels: seq<PriceLevel>, bids: Tree, bidRoot: int, asks: Tree, askRoot: int,
                                       freeLevel: int, free: seq<int>)
    requires LevelsOk(levels, bids, bidRoot, asks, askRoot, freeLevel, free)
    ensures Nodes(bids) !! Nodes(asks)
    ensures free != [] ==> free[0] !in Nodes(bids) && free[0] !in Nodes(asks) && free[0] != NONE
  {
    FreeNotInTree(levels, bids, bidRoot, freeLevel, free);
    FreeNotInTree(levels, asks, askRoot, freeLevel, free);
    assert free != [] ==> free[0] in free;
  }

  /** Orders, levels and shadow fit together; queues may be empty between the steps of an operation. */
  ghost predicate CoreOk(orders: seq<Order>, v: LevelsView, s: Shadow) {
    ViewOk(v) && LevelMap(v.levels, s.at, v.bids, v.asks) && QueuesOk(orders, v.levels, s)
  }

  lemma {:induction false} CoreView(orders: seq<Order>, v: LevelsView, s: Shadow)
    requires CoreOk(orders, v, s)
    ensures ViewOk(v)
  {}

  lemma {:induction false} PriceInMap(orders: seq<Order>, v: LevelsView, s: Shadow, k: Key)
    requires CoreOk(orders, v, s)
    ensures k in s.at <==> HasPrice(v.levels, v.TreeOf(k.side), k.price)
  {
    InMapInTree(v.levels, s.at, v.bids, v.asks, k);
  }

  lemma {:induction false} LevelInMap(orders: seq<Order>, v: LevelsView, s: Shadow, k: Key, li: int)
    requires CoreOk(orders, v, s) && k in s.at
    requires li in Nodes(v.TreeOf(k.side)) && InRange(v.levels, li) && v.levels[li].price == k.price
    ensures li == s.at[k] && li != NONE
  {
    InMapInTree(v.levels, s.at, v.bids, v.asks, k);
  }

  lemma {:induction false} CoreGrows(orders: seq<Order>, v: LevelsView, w: LevelsView, s: Shadow, k: Key, n: int)
    requires CoreOk(orders, v, s) && k !in s.at && ViewOk(w) && Grown(v, w, k.side, k.price, n)
    ensures CoreOk(orders, w, WithLevel(s, k, n)) && |w.levels| == |v.levels| && |w.free| == |v.free| - 1 &&
            w.active == v.active + 1
  {
    LevelsApart(v.levels, v.bids, v.bidRoot, v.asks, v.askRoot, v.freeLevel, v.free);
    hide LevelsOk, LevelMap, QueuesOk, LevelAdded, Nodes;
    LevelMapAdd(v.levels, w.levels, s.at, v.bids, v.asks, w.bids, w.asks, k, n);
    AddLevelOk(orders, v.levels, w.levels, s, k, n);
    AddedLength(v.levels, w.levels, n, k.price);
  }

  lemma {:induction false} CoreShrinks(orders: seq<Order>, v: LevelsView, w: LevelsView, s: Shadow, k: Key)
    requires CoreOk(orders, v, s) && k in s.at && k in s.queue && s.queue[k] == [] && ViewOk(w) &&
             Shrunk(v, w, k.side, s.at[k])
    ensures CoreOk(orders, w, WithoutLevel(s, k)) && |w.levels| == |v.levels| && |w.free| == |v.free| + 1 &&
            w.active == v.active - 1
  {
    LevelsApart(v.levels, v.bids, v.bidRoot, v.asks, v.askRoot, v.freeLevel, v.free);
    assert |w.levels| == |v.levels|;
    hide LevelsOk, LevelMap, QueuesOk, LevelDropped, Nodes;
    LevelMapDrop(v.levels, w.levels, s.at, v.bids, v.asks, w.bids, w.asks, k);
    DropLevelOk(orders, v.levels, w.levels, s, k);
  }

  lemma {:induction false} MappedActive(orders: seq<Order>, v: LevelsView, s: Shadow, k: Key)
    requires CoreOk(orders, v, s) && k in s.at
    ensures InRange(v.levels, s.at[k]) && v.levels[s.at[k]].active && s.at[k] in Nodes(v.TreeOf(k.side))
  {}

  /** A change of one level's queue data, with queues that fit it, keeps everything together. */
  lemma {:induction false} CoreData(orders: seq<Order>, after: seq<Order>, v: LevelsView, levels': seq<PriceLevel>,
                                    s: Shadow, s': Shadow, k: Key)
    requires CoreOk(orders, v, s) && k in s.at && DataOnly(v.levels, levels', s.at[k])
    requires s'.at == s.at && QueuesOk(after, levels', s')
    ensures CoreOk(after, v.(levels := levels'), s')
  {
    MappedActive(orders, v, s, k);
    hide LevelsOk, LevelMap, QueuesOk, DataOnly;
    LevelsFrame(v.levels, levels', v.bids, v.bidRoot, v.asks, v.askRoot, v.freeLevel, v.free, s.at, s.at[k]);
  }

  lemma {:induction false} CoreAppends(before: seq<Order>, orders: seq<Order>, v: LevelsView, s: Shadow, k: Key,
                                       id: u64, e: Entry, o: int)
    requires CoreOk(before, v, s) && Filled(before, orders, s, k, id, e, o)
    ensures CanAppend(orders, v.levels, s.at[k], o) && k in s.queue && k in s.book.queues
    ensures CoreOk(OrdersAfterAppend(orders, v.levels, s.at[k], o),
                   v.(levels := LevelsAfterAppend(orders, v.levels, s.at[k], o)),
                   WithOrder(s, k, id, e, o))
  {
    EnqueueOk(before, orders, v.levels, s, k, id, e, o);
    AppendIsData(orders, v.levels, s.at[k], o);
    FilledSame(before, orders, s, k, id, e, o);
    hide CoreOk, Filled, QueuesOk, DataOnly, OrdersAfterAppend, LevelsAfterAppend;
    CoreData(before, OrdersAfterAppend(orders, v.levels, s.at[k], o), v,
             LevelsAfterAppend(orders, v.levels, s.at[k], o), s, WithOrder(s, k, id, e, o), k);
  }

  /** Where a resting order is, and what can be read off its slot. */
  lemma {:induction false} CorePlace(orders: seq<Order>, v: LevelsView, s: Shadow, id: u64) returns (k: Key, j: int)
    requires CoreOk(orders, v, s) && id in s.index
    ensures id in s.book.orders && k == s.book.orders[id].KeyOf() && 0 <= s.index[id] < |orders|
    ensures var o := orders[s.index[id]];
            o.id == id && o.side == k.side && o.price == k.price && o.quantity == s.book.orders[id].quantity &&
            o.level == s.at[k]
    ensures k in s.at && k in s.queue && k in s.book.queues && 0 <= j < |s.queue[k]| && s.queue[k][j] == s.index[id]
    ensures CanUnlink(orders, v.levels, s.at[k], s.index[id])
  {
    j := PlaceOf(orders, v.levels, s, id);
    k := s.book.orders[id].KeyOf();
    var level := v.levels[s.at[k]];
    UnlinkAt(orders, level.head, level.tail, s.queue[k], j);
  }

  lemma {:induction false} CoreReduces(orders: seq<Order>, v: LevelsView, s: Shadow, id: u64, quantity: u32)
    requires CoreOk(orders, v, s) && id in s.index && id in s.book.orders && 0 <= s.index[id] < |orders|
    requires quantity <= orders[s.index[id]].quantity
    ensures var o := s.index[id];
            CanReduce(orders, v.levels, orders[o].level, o, quantity) &&
            CoreOk(OrdersAfterReduce(orders, o, quantity),
                   v.(levels := LevelsAfterReduce(orders, v.levels, orders[o].level, o, quantity)),
                   WithQuantity(s, id, quantity))
  {
    var o := s.index[id];
    var k, j := CorePlace(orders, v, s, id);
    ReduceOk(orders, v.levels, s, id, quantity);
    ReduceIsData(orders, v.levels, orders[o].level, o, quantity);
    hide CoreOk, QueuesOk, DataOnly, OrdersAfterReduce, LevelsAfterReduce;
    var after, levels' := OrdersAfterReduce(orders, o, quantity),
                          LevelsAfterReduce(orders, v.levels, orders[o].level, o, quantity);
    CoreData(orders, after, v, levels', s, WithQuantity(s, id, quantity), k);
  }

  lemma {:induction false} CoreUnlinks(orders: seq<Order>, after: seq<Order>, v: LevelsView, s: Shadow, id: u64, k: Key,
                                       j: int)
    requires CoreOk(orders, v, s) && Leaving(orders, v.levels, s, id, k, j, after)
    ensures CoreOk(after, v.(levels := LevelsAfterUnlink(orders, v.levels, s.at[k], s.index[id])),
                   WithoutOrder(s, k, id, j))
  {
    DequeueOk(orders, v.levels, s, id, k, j, after);
    UnlinkIsData(orders, v.levels, s.at[k], s.index[id]);
    hide CoreOk, QueuesOk, DataOnly, LevelsAfterUnlink;
    CoreData(orders, after, v, LevelsAfterUnlink(orders, v.levels, s.at[k], s.index[id]), s, WithoutOrder(s, k, id, j),
             k);
  }

  lemma {:induction false} CoreSpare(orders: seq<Order>, after: seq<Order>, v: LevelsView, s: Shadow, o: int)
    requires CoreOk(orders, v, s) && |after| == |orders| &&
             forall i :: 0 <= i < |orders| && i != o ==> after[i] == orders[i]
    requires forall x :: x in s.index ==> s.index[x] != o
    ensures CoreOk(after, v, s)
  {
    SpareSlotOk(orders, after, v.levels, s, o);
  }

  lemma {:induction false} CoreKeys(orders: seq<Order>, v: LevelsView, s: Shadow)
    requires CoreOk(orders, v, s)
    ensures SameKeys(s) && |s.index| == |s.book.orders| && |s.at| == |s.book.queues| && |orders| <= MAX_INDEX &&
            |v.levels| <= MAX_INDEX
  {
    ShadowCounts(s);
  }

  lemma {:induction false} CoreFree(orders: seq<Order>, v: LevelsView, s: Shadow, head: int, free: seq<int>)
    requires CoreOk(orders, v, s) && OrderPool(orders, head, free)
    ensures forall id :: id in s.index ==> s.index[id] !in free && 0 <= s.index[id] < |orders| && s.index[id] != NONE
  {
    IndexedNotFree(orders, v.levels, s, head, free);
  }

  lemma {:induction false} IndexPut(m: map<u64, int>, id: u64, o: int)
    requires id !in m
    ensures |m[id := o]| == |m| + 1
  {
    assert m[id := o].Keys == m.Keys + {id};
  }

  lemma {:induction false} IndexTake(m: map<u64, int>, id: u64)
    requires id in m
    ensures |m - {id}| == |m| - 1
  {
    assert (m - {id}).Keys == m.Keys - {id};
  }

  // ---------- The whole state ----------

  /** All that the operations on orders can change. */
  datatype Snapshot = Snapshot(orders: seq<Order>, view: LevelsView, lookup: seq<Slot<int>>, freeOrder: int,
                               freeOrders: seq<int>,
                               active: int, shadow: Shadow)

  /** The lookup table represents `index`, and backward-shift deletion leaves no tombstone in it. */
  ghost predicate LookupOk(lookup: seq<Slot<int>>, mix: u64 -> u64, index: map<u64, int>) {
    |lookup| > 0 && Table(lookup, Homing(mix, |lookup|), index) && NoTombstones(lookup)
  }

  /** Every slot is free or in use, and the counters say how many are. */
  ghost predicate Tally(st: Snapshot) {
    |st.lookup| > |st.orders| &&
    |st.freeOrders| + |st.shadow.index| == |st.orders| && |st.view.free| + |st.shadow.at| == |st.view.levels| &&
    st.active == |st.shadow.index| && st.view.active == |st.shadow.at|
  }

  ghost predicate BookOk(st: Snapshot, mix: u64 -> u64) {
    CoreOk(st.orders, st.view, st.shadow) && OrderPool(st.orders, st.freeOrder, st.freeOrders) &&
    LookupOk(st.lookup, mix, st.shadow.index) && Tally(st) && Coherent(st.shadow.book)
  }

  ghost function LimitsOf(st: Snapshot): Limits { Limits(|st.orders|, |st.view.levels|) }

  /** What an operation's first checks see of the abstract book. */
  lemma {:induction false} StateFacts(st: Snapshot, mix: u64 -> u64)
    requires BookOk(st, mix)
    ensures SameKeys(st.shadow) && |st.shadow.index| == |st.shadow.book.orders| &&
            |st.shadow.at| == |st.shadow.book.queues|
    ensures forall id :: id in st.shadow.index ==>
      st.shadow.index[id] !in st.freeOrders && 0 <= st.shadow.index[id] < |st.orders| && st.shadow.index[id] != NONE
    ensures |st.freeOrders| + |st.shadow.index| == |st.orders| && |st.view.free| + |st.shadow.at| == |st.view.levels|
    ensures |st.shadow.index| < |st.lookup| && Coherent(st.shadow.book) && Tally(st)
    ensures CoreOk(st.orders, st.view, st.shadow) && OrderPool(st.orders, st.freeOrder, st.freeOrders) &&
            LookupOk(st.lookup, mix, st.shadow.index)
  {
    CoreKeys(st.orders, st.view, st.shadow);
    CoreFree(st.orders, st.view, st.shadow, st.freeOrder, st.freeOrders);
  }

  /** Both pools account for every slot: what is not free is in use, and the counters say how much that is. */
  lemma {:induction false} ActiveCounts(st: Snapshot, mix: u64 -> u64)
    requires BookOk(st, mix)
    ensures st.active == |st.orders| - |st.freeOrders| == |st.shadow.book.orders|
    ensures st.view.active == |st.view.levels| - |st.view.free| == |st.shadow.book.queues|
  {
    hide CoreOk, OrderPool, LookupOk, Coherent;
    CoreKeys(st.orders, st.view, st.shadow);
  }

  lemma {:induction false} NoneNotFree(orders: seq<Order>, head: int, free: seq<int>)
    requires OrderPool(orders, head, free)
    ensures NONE !in free
  {}

  /** The tail that a new order is linked to is not free. */
  lemma {:induction false} TailNotFree(orders: seq<Order>, v: LevelsView, s: Shadow, k: Key, head: int, free: seq<int>)
    requires CoreOk(orders, v, s) && k in s.at && OrderPool(orders, head, free)
    ensures InRange(v.levels, s.at[k]) && v.levels[s.at[k]].tail !in free
  {
    hide QueueOk, LevelsOk, LevelMap, Injective, EntryOk, SameKeys;
    CoreFree(orders, v, s, head, free);
    AtInRange(orders, v.levels, s, k);
    TailOf(orders, v.levels, s, k);
    QueueParts(orders, v.levels, s, k);
    var q, tail := s.queue[k], v.levels[s.at[k]].tail;
    assert q != [] ==> s.book.queues[k][|q| - 1] in s.index && s.index[s.book.queues[k][|q| - 1]] == tail;
    NoneNotFree(orders, head, free);
  }

  /** The free list of orders does not see an order join a queue. */
  lemma {:induction false} AppendPool(before: seq<Order>, orders: seq<Order>, v: LevelsView, s: Shadow, k: Key, id: u64,
                                      e: Entry, o: int,
                                      head: int, free: seq<int>)
    requires CoreOk(before, v, s) && Filled(before, orders, s, k, id, e, o) && OrderPool(before, head, free) &&
             o !in free
    requires k in s.at && CanAppend(orders, v.levels, s.at[k], o)
    ensures OrderPool(OrdersAfterAppend(orders, v.levels, s.at[k], o), head, free)
  {
    hide CoreOk, Filled, OrdersAfterAppend, CanAppend;
    FilledSame(before, orders, s, k, id, e, o);
    TailNotFree(before, v, s, k, head, free);
    AppendKeeps(orders, v.levels, s.at[k], o);
    OrderPoolFrame(before, OrdersAfterAppend(orders, v.levels, s.at[k], o), head, free);
  }

  /** The levels after LevelFor: unchanged, or with one more price. */
  ghost predicate Provided(v: LevelsView, w: LevelsView, s: Shadow, t: Shadow, k: Key, li: int) {
    |w.levels| == |v.levels| && k in t.at && li == t.at[k] && li != NONE &&
    if k in s.at then w == v && t == s
    else v.free != [] && t == WithLevel(s, k, li) && |w.free| == |v.free| - 1 && w.active == v.active + 1
  }

  /** Both outcomes of LevelFor. */
  ghost predicate LevelForOk(orders: seq<Order>, v: LevelsView, w: LevelsView, s: Shadow, t: Shadow, k: Key, li: int,
                             err: BookError) {
    CoreOk(orders, w, t) &&
    match err
    case Ok => Provided(v, w, s, t, k, li)
    case LevelPoolExhausted => k !in s.at && v.free == [] && li == NONE && w == v && t == s
    case _ => false
  }

  lemma {:induction false} LevelForCases(orders: seq<Order>, v: LevelsView, w: LevelsView, s: Shadow, t: Shadow, k: Key,
                                         li: int, err: BookError)
    requires LevelForOk(orders, v, w, s, t, k, li, err)
    ensures err == Ok || err == LevelPoolExhausted
    ensures li == NONE <==> err == LevelPoolExhausted
    ensures err == Ok ==> Provided(v, w, s, t, k, li)
    ensures err != Ok ==> k !in s.at && v.free == [] && w == v && t == s
  {
    hide CoreOk;
  }

  /** The state after a successful add. */
  lemma {:induction false} AddDone(st: Snapshot, st': Snapshot, mix: u64 -> u64, t: Shadow, w: LevelsView, k: Key,
                                   li: int, id: u64, e: Entry, o: int)
    requires BookOk(st, mix) && id !in st.shadow.index && e.KeyOf() == k && e.quantity > 0
    requires Provided(st.view, w, st.shadow, t, k, li) && k in t.at && k in t.queue && k in t.book.queues
    requires st'.shadow == WithOrder(t, k, id, e, o) && CoreOk(st'.orders, st'.view, st'.shadow)
    requires OrderPool(st'.orders, st'.freeOrder, st'.freeOrders) && |st'.freeOrders| == |st.freeOrders| - 1
    requires LookupOk(st'.lookup, mix, t.index[id := o]) && |st'.lookup| == |st.lookup| && |st'.orders| == |st.orders|
    requires st'.view == w.(levels := st'.view.levels) && |st'.view.levels| == |w.levels| && st'.active == st.active + 1
    ensures BookOk(st', mix) && LimitsOf(st') == LimitsOf(st) && st'.shadow.book == Enqueued(st.shadow.book, id, e)
  {
    hide BookOk, CoreOk, OrderPool, LookupOk, Coherent, Enqueued, WithOrder, WithLevel, SameKeys, Provided, Tally;
    StateFacts(st, mix);
    JoinedShadow(st.view, w, st.shadow, t, k, li, id, e, o);
    EnqueuedCoherent(st.shadow.book, id, e);
    AddTally(st, st', w, t, k, li);
    BookOkFrom(st', mix);
  }

  lemma {:induction false} AddTally(st: Snapshot, st': Snapshot, w: LevelsView, t: Shadow, k: Key, li: int)
    requires Tally(st) && Provided(st.view, w, st.shadow, t, k, li) && |st'.freeOrders| == |st.freeOrders| - 1
    requires |st'.lookup| == |st.lookup| && |st'.orders| == |st.orders|
    requires st'.view == w.(levels := st'.view.levels) && |st'.view.levels| == |w.levels| && st'.active == st.active + 1
    requires |st'.shadow.index| == |st.shadow.index| + 1 &&
             |st'.shadow.at| == |st.shadow.at| + if k in st.shadow.at then 0 else 1
    ensures Tally(st') && LimitsOf(st') == LimitsOf(st)
  {}

  lemma {:induction false} BookOkFrom(st: Snapshot, mix: u64 -> u64)
    requires CoreOk(st.orders, st.view, st.shadow) && OrderPool(st.orders, st.freeOrder, st.freeOrders)
    requires LookupOk(st.lookup, mix, st.shadow.index) && Tally(st) && Coherent(st.shadow.book)
    ensures BookOk(st, mix)
  {}

  /** Counts and book of the shadow after an order has joined. */
  lemma {:induction false} JoinedShadow(v: LevelsView, w: LevelsView, s: Shadow, t: Shadow, k: Key, li: int, id: u64,
                                        e: Entry, o: int)
    requires SameKeys(s) && Provided(v, w, s, t, k, li) && id !in s.index && e.KeyOf() == k
    requires k in t.at && k in t.queue && k in t.book.queues
    ensures var r := WithOrder(t, k, id, e, o);
            t.index == s.index && r.index == t.index[id := o] && |r.index| == |s.index| + 1 &&
            |r.at| == |s.at| + (if k in s.at then 0 else 1) && r.book == Enqueued(s.book, id, e) && id !in s.book.orders
  {
    IndexPut(s.index, id, o);
    if k in s.at {
      JoinedBook(s, k, id, e, o);
    } else {
      JoinedNewBook(s, k, li, id, e, o);
      MapPut(s.at, k, li);
    }
  }

  lemma {:induction false} FilledFrom(before: seq<Order>, orders: seq<Order>, s: Shadow, k: Key, id: u64, e: Entry,
                                      o: int)
    requires 0 <= o < |before| && id !in s.index && (forall x :: x in s.index ==> s.index[x] != o) && k in s.at &&
             e.KeyOf() == k
    requires before[o] == BlankOrder(NONE).(active := true)
    requires orders == before[o := Order(id, e.price, e.quantity, e.side, s.at[k], NONE, NONE, NONE, true)]
    ensures Filled(before, orders, s, k, id, e, o)
  {}

  // ---------- Filling in an acquired slot ----------

  /** Slot o has been acquired and the level of price k provided; the order is not entered yet. */
  ghost predicate Entering(st: Snapshot, mix: u64 -> u64, id: u64, k: Key, o: int) {
    CoreOk(st.orders, st.view, st.shadow) && k in st.shadow.at && id !in st.shadow.index &&
    0 <= o < |st.orders| && st.orders[o] == BlankOrder(NONE).(active := true) &&
    (forall x :: x in st.shadow.index ==> st.shadow.index[x] != o) &&
    OrderPool(st.orders, st.freeOrder, st.freeOrders) && o !in st.freeOrders &&
    LookupOk(st.lookup, mix, st.shadow.index) && |st.shadow.index| < |st.lookup|
  }

  /** The slot's contents before it is linked. */
  function Contents(id: u64, e: Entry, li: int): Order {
    Order(id, e.price, e.quantity, e.side, li, NONE, NONE, NONE, true)
  }

  /** The order is entered: indexed, counted and queued. */
  ghost predicate Entered(st: Snapshot, st': Snapshot, mix: u64 -> u64, id: u64, e: Entry, o: int) {
    e.KeyOf() in st.shadow.queue && e.KeyOf() in st.shadow.book.queues &&
    st'.shadow == WithOrder(st.shadow, e.KeyOf(), id, e, o) && CoreOk(st'.orders, st'.view, st'.shadow) &&
    OrderPool(st'.orders, st'.freeOrder, st'.freeOrders) && LookupOk(st'.lookup, mix, st.shadow.index[id := o]) &&
    st'.freeOrders == st.freeOrders && st'.view == st.view.(levels := st'.view.levels) && st'.active == st.active + 1 &&
    |st'.orders| == |st.orders| && |st'.lookup| == |st.lookup| && |st'.view.levels| == |st.view.levels|
  }

  lemma {:induction false} EnteringFacts(st: Snapshot, mix: u64 -> u64, id: u64, e: Entry, o: int)
    requires Entering(st, mix, id, e.KeyOf(), o)
    ensures 0 <= o < |st.orders| && LookupOk(st.lookup, mix, st.shadow.index) && |st.shadow.index| < |st.lookup| &&
            id !in st.shadow.index
    ensures st.orders[o] == BlankOrder(NONE).(active := true)
    ensures e.KeyOf() in st.shadow.queue && e.KeyOf() in st.shadow.book.queues && e.KeyOf() in st.shadow.at
    ensures var filled := st.orders[o := Contents(id, e, st.shadow.at[e.KeyOf()])];
            Filled(st.orders, filled, st.shadow, e.KeyOf(), id, e, o) &&
            CanAppend(filled, st.view.levels, st.shadow.at[e.KeyOf()], o)
  {
    CoreKeys(st.orders, st.view, st.shadow);
    hide CoreOk, LookupOk, OrderPool, CanAppend;
    var filled := st.orders[o := Contents(id, e, st.shadow.at[e.KeyOf()])];
    FilledFrom(st.orders, filled, st.shadow, e.KeyOf(), id, e, o);
    CoreAppends(st.orders, filled, st.view, st.shadow, e.KeyOf(), id, e, o);
  }

  lemma {:induction false} EnterDone(st: Snapshot, st': Snapshot, mix: u64 -> u64, id: u64, e: Entry, o: int)
    requires Entering(st, mix, id, e.KeyOf(), o) && |st'.lookup| == |st.lookup| &&
             LookupOk(st'.lookup, mix, st.shadow.index[id := o])
    requires e.KeyOf() in st.shadow.queue && e.KeyOf() in st.shadow.book.queues && e.KeyOf() in st.shadow.at
    requires var li := st.shadow.at[e.KeyOf()];
             var filled := st.orders[o := Contents(id, e, li)];
             CanAppend(filled, st.view.levels, li, o) && Filled(st.orders, filled, st.shadow, e.KeyOf(), id, e, o) &&
             st'.orders == OrdersAfterAppend(filled, st.view.levels, li, o) &&
             st'.view == st.view.(levels := LevelsAfterAppend(filled, st.view.levels, li, o))
    requires st'.shadow == WithOrder(st.shadow, e.KeyOf(), id, e, o) && st'.active == st.active + 1
    requires st'.freeOrder == st.freeOrder && st'.freeOrders == st.freeOrders
    ensures Entered(st, st', mix, id, e, o)
  {
    hide CoreOk, LookupOk, OrderPool, CanAppend, Filled, OrdersAfterAppend, LevelsAfterAppend, WithOrder;
    var li := st.shadow.at[e.KeyOf()];
    var filled := st.orders[o := Contents(id, e, li)];
    CoreAppends(st.orders, filled, st.view, st.shadow, e.KeyOf(), id, e, o);
    AppendPool(st.orders, filled, st.view, st.shadow, e.KeyOf(), id, e, o, st.freeOrder, st.freeOrders);
    AppendKeeps(filled, st.view.levels, li, o);
  }

  // ---------- Add ----------

  /**
   What every operation guarantees: the invariant, the capacities, the error code and the abstract book
   that the specification gives, and on an error a state that has not changed in any way.
   */
  ghost predicate Refines(st: Snapshot, st': Snapshot, mix: u64 -> u64, err: BookError, spec: Outcome) {
    BookOk(st', mix) && LimitsOf(st') == LimitsOf(st) && Outcome(err, st'.shadow.book) == spec &&
    (err != Ok ==> st' == st)
  }

  lemma {:induction false} ReadyToFind(st: Snapshot, mix: u64 -> u64)
    requires BookOk(st, mix)
    ensures LookupOk(st.lookup, mix, st.shadow.index) && |st.shadow.index| < |st.lookup| &&
            OrderPool(st.orders, st.freeOrder, st.freeOrders)
  {
    StateFacts(st, mix);
  }

  /** LookupFind tells whether the abstract book has the order. */
  lemma {:induction false} FoundMeans(st: Snapshot, mix: u64 -> u64, id: u64)
    requires BookOk(st, mix)
    ensures (id in st.shadow.index <==> id in st.shadow.book.orders) &&
            (id in st.shadow.index ==> st.shadow.index[id] != NONE)
  {
    StateFacts(st, mix);
  }

  lemma {:induction false} AddRefused(st: Snapshot, mix: u64 -> u64, id: u64, side: Side, q: u32, p: u32,
                                      err: BookError)
    requires BookOk(st, mix)
    requires match err
             case InvalidQuantity => q == 0
             case DuplicateOrder => q != 0 && id in st.shadow.book.orders
             case OrderPoolExhausted => q != 0 && id !in st.shadow.book.orders && st.freeOrders == []
             case LevelPoolExhausted =>
               q != 0 && id !in st.shadow.book.orders && st.freeOrders != [] && Key(side, p) !in st.shadow.at &&
               st.view.free == []
             case _ => false
    ensures Refines(st, st, mix, err, Add(st.shadow.book, LimitsOf(st), id, side, q, p))
  {
    hide BookOk, CoreOk, LookupOk, OrderPool, Coherent;
    StateFacts(st, mix);
  }

  /** The state with an acquired order slot is still sound. */
  lemma {:induction false} CoreAcquired(st: Snapshot, mix: u64 -> u64, orders: seq<Order>, head: int, free: seq<int>,
                                        o: int)
    requires BookOk(st, mix) && Acquired(st.orders, st.freeOrders, orders, head, free, o)
    ensures CoreOk(orders, st.view, st.shadow)
  {
    hide BookOk, CoreOk, LookupOk, Tally, Coherent;
    StateFacts(st, mix);
    assert o in st.freeOrders;
    CoreSpare(st.orders, orders, st.view, st.shadow, o);
  }

  /** Giving the slot back restores the state exactly. */
  lemma {:induction false} AcquireUndone(st: Snapshot, orders: seq<Order>, head: int, free: seq<int>, o: int)
    requires Acquired(st.orders, st.freeOrders, orders, head, free, o) &&
             OrderPool(st.orders, st.freeOrder, st.freeOrders)
    ensures orders[o := BlankOrder(head)] == st.orders && o == st.freeOrder && [o] + free == st.freeOrders
    ensures 0 <= o < |orders| && o !in free && OrderPool(orders, head, free)
  {}

  /** Slot and level provided, the order can be entered. */
  lemma {:induction false} ReadyToEnter(st: Snapshot, mix: u64 -> u64, orders: seq<Order>, head: int, free: seq<int>,
                                        o: int,
                                        w: LevelsView, t: Shadow, k: Key, li: int, id: u64)
    requires BookOk(st, mix) && Acquired(st.orders, st.freeOrders, orders, head, free, o) && id !in st.shadow.index
    requires LevelForOk(orders, st.view, w, st.shadow, t, k, li, Ok)
    ensures Entering(Snapshot(orders, w, st.lookup, head, free, st.active, t), mix, id, k, o) && li == t.at[k]
  {
    hide BookOk, CoreOk, LookupOk, Tally, Coherent, OrderPool;
    StateFacts(st, mix);
    assert o in st.freeOrders;
    assert t.index == st.shadow.index;
  }

  lemma {:induction false} AddCompletes(st: Snapshot, mid: Snapshot, st': Snapshot, mix: u64 -> u64, id: u64,
                                        side: Side, q: u32, p: u32, li: int, o: int)
    requires BookOk(st, mix) && id !in st.shadow.book.orders && q != 0 && st.freeOrders != []
    requires Provided(st.view, mid.view, st.shadow, mid.shadow, Key(side, p), li)
    requires mid.freeOrders == st.freeOrders[1..] && mid.active == st.active && mid.lookup == st.lookup &&
             |mid.orders| == |st.orders|
    requires Entered(mid, st', mix, id, Entry(side, p, q), o)
    ensures Refines(st, st', mix, Ok, Add(st.shadow.book, LimitsOf(st), id, side, q, p))
  {
    hide BookOk, CoreOk, LookupOk, OrderPool, WithOrder, WithLevel, Enqueued, Coherent, SameKeys;
    StateFacts(st, mix);
    AddDone(st, st', mix, mid.shadow, mid.view, Key(side, p), li, id, Entry(side, p, q), o);
    assert Add(st.shadow.book, LimitsOf(st), id, side, q, p) ==
             Outcome(Ok, Enqueued(st.shadow.book, id, Entry(side, p, q)));
  }
}
