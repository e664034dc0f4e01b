/** How an order leaves the book: what holds between the steps that execute, cancel, erase and replace share. */
module Depart {
  import opened Types
  import opened LevelTree
  import opened LevelIndex
  import opened Pools
  import opened Fifo
  import opened BookSpec
  import opened Represent
  import opened Compose

  /** Order id rests in slot o. All of the invariant holds, except that the order may have lost its last share. */
  ghost predicate Discarding(st: Snapshot, mix: u64 -> u64, id: u64, o: int) {
    CoreOk(st.orders, st.view, st.shadow) && OrderPool(st.orders, st.freeOrder, st.freeOrders) &&
    LookupOk(st.lookup, mix, st.shadow.index) && Tally(st) && id in st.shadow.index && st.shadow.index[id] == o
  }

  /** Everything that the first steps need to know. */
  ghost predicate Placed(st: Snapshot, mix: u64 -> u64, id: u64, o: int, k: Key, j: int) {
    Discarding(st, mix, id, o) && id in st.shadow.book.orders && k == st.shadow.book.orders[id].KeyOf() &&
    0 <= o < |st.orders| && st.orders[o].id == id && st.orders[o].side == k.side && k in st.shadow.at &&
    st.orders[o].level == st.shadow.at[k] &&
    k in st.shadow.queue && k in st.shadow.book.queues && 0 <= j < |st.shadow.queue[k]| && st.shadow.queue[k][j] == o &&
    CanUnlink(st.orders, st.view.levels, st.shadow.at[k], o) && o !in st.freeOrders &&
    LookupOk(st.lookup, mix, st.shadow.index) &&
    |st.shadow.index| < |st.lookup|
  }

  lemma {:induction false} PlaceFacts(st: Snapshot, mix: u64 -> u64, id: u64, o: int) returns (k: Key, j: int)
    requires Discarding(st, mix, id, o)
    ensures Placed(st, mix, id, o, k, j)
  {
    hide CoreOk, OrderPool, LookupOk, CanUnlink;
    k, j := CorePlace(st.orders, st.view, st.shadow, id);
    CoreFree(st.orders, st.view, st.shadow, st.freeOrder, st.freeOrders);
  }

  /** The neighbours of a resting order are resting orders. */
  lemma {:induction false} NeighboursNotFree(orders: seq<Order>, v: LevelsView, s: Shadow, head: int, free: seq<int>,
                                             k: Key, j: int)
    requires CoreOk(orders, v, s) && OrderPool(orders, head, free) && k in s.at && k in s.queue && 0 <= j < |s.queue[k]|
    ensures 0 <= s.queue[k][j] < |orders| && orders[s.queue[k][j]].prev !in free && orders[s.queue[k][j]].next !in free
  {
    hide QueueOk, LevelsOk, LevelMap, Injective, EntryOk, SameKeys, Distinct, Neighbour;
    CoreFree(orders, v, s, head, free);
    AtInRange(orders, v.levels, s, k);
    QueueLinks(orders, v.levels, s, k, j);
    QueueParts(orders, v.levels, s, k);
    NoneNotFree(orders, head, free);
    var q, ids := s.queue[k], s.book.queues[k];
    assert j > 0 ==> ids[j - 1] in s.index && s.index[ids[j - 1]] == q[j - 1];
    assert j + 1 < |q| ==> ids[j + 1] in s.index && s.index[ids[j + 1]] == q[j + 1];
  }

  lemma {:induction false} QueueLinks(orders: seq<Order>, levels: seq<PriceLevel>, s: Shadow, k: Key, j: int)
    requires QueueOk(orders, levels, s, k) && 0 <= j < |s.queue[k]|
    ensures var q := s.queue[k];
            0 <= q[j] < |orders| && orders[q[j]].prev == Preceding(q, j) && orders[q[j]].next == Following(q, j)
  {
    hide Total, SameIds, Distinct;
    var q := s.queue[k];
    UnlinkAt(orders, levels[s.at[k]].head, levels[s.at[k]].tail, q, j);
  }

  /** The free list of orders does not see an order leave its queue. */
  lemma {:induction false} UnlinkPool(st: Snapshot, mix: u64 -> u64, id: u64, o: int, k: Key, j: int)
    requires Placed(st, mix, id, o, k, j)
    ensures OrderPool(OrdersAfterUnlink(st.orders, o), st.freeOrder, st.freeOrders)
  {
    hide CoreOk, LookupOk, Tally, OrderPool;
    NeighboursNotFree(st.orders, st.view, st.shadow, st.freeOrder, st.freeOrders, k, j);
    OrderPoolFrame(st.orders, OrdersAfterUnlink(st.orders, o), st.freeOrder, st.freeOrders);
  }

  /** The order has left its queue, the table and the order array; its level may be empty now. */
  ghost predicate Left(st: Snapshot, st': Snapshot, mix: u64 -> u64, id: u64, k: Key, j: int) {
    k in st.shadow.queue && 0 <= j < |st.shadow.queue[k]| && k in st.shadow.book.queues &&
    st'.shadow == WithoutOrder(st.shadow, k, id, j) && st'.shadow.at == st.shadow.at &&
    CoreOk(st'.orders, st'.view, st'.shadow) &&
    OrderPool(st'.orders, st'.freeOrder, st'.freeOrders) && LookupOk(st'.lookup, mix, st'.shadow.index) &&
    |st'.freeOrders| == |st.freeOrders| + 1 && st'.view == st.view.(levels := st'.view.levels) &&
    st'.active == st.active - 1 &&
    |st'.orders| == |st.orders| && |st'.lookup| == |st.lookup| && |st'.view.levels| == |st.view.levels|
  }

  lemma {:induction false} LeaveDone(st: Snapshot, st': Snapshot, mix: u64 -> u64, id: u64, o: int, k: Key, j: int)
    requires Placed(st, mix, id, o, k, j) && st'.shadow == WithoutOrder(st.shadow, k, id, j)
    requires OrderPool(st'.orders, st'.freeOrder, st'.freeOrders) && LookupOk(st'.lookup, mix, st.shadow.index - {id})
    requires st'.orders == OrdersAfterUnlink(st.orders, o)[o := BlankOrder(st.freeOrder)]
    requires st'.view == st.view.(levels := LevelsAfterUnlink(st.orders, st.view.levels, st.shadow.at[k], o))
    requires st'.freeOrders == [o] + st.freeOrders && st'.active == st.active - 1 && |st'.lookup| == |st.lookup|
    ensures Left(st, st', mix, id, k, j)
  {
    hide CoreOk, OrderPool, LookupOk, Tally, QueuesOk, OrdersAfterUnlink, Neighbour;
    LeavingFrom(st, mix, id, o, k, j, st'.orders);
    CoreUnlinks(st.orders, st'.orders, st.view, st.shadow, id, k, j);
  }

  lemma {:induction false} LeavingFrom(st: Snapshot, mix: u64 -> u64, id: u64, o: int, k: Key, j: int,
                                       after: seq<Order>)
    requires Placed(st, mix, id, o, k, j) && after == OrdersAfterUnlink(st.orders, o)[o := BlankOrder(st.freeOrder)]
    ensures Leaving(st.orders, st.view.levels, st.shadow, id, k, j, after)
  {
    hide QueuesOk, OrderPool, LookupOk, Tally, LevelMap, ViewOk, OrdersAfterUnlink, Neighbour;
  }

  // ---------- A level that has become empty ----------

  /** The levels before and after an emptied level is dropped; a level with orders stays. */
  ghost predicate Dropped(orders: seq<Order>, v: LevelsView, w: LevelsView, s: Shadow, t: Shadow, k: Key) {
    CoreOk(orders, w, t) && |w.levels| == |v.levels| && k in s.at && k in s.queue &&
    if s.queue[k] == [] then t == WithoutLevel(s, k) && |w.free| == |v.free| + 1 && w.active == v.active - 1
    else w == v && t == s
  }

  lemma {:induction false} EmptyCount(orders: seq<Order>, v: LevelsView, s: Shadow, k: Key)
    requires CoreOk(orders, v, s) && k in s.at
    ensures k in s.queue && InRange(v.levels, s.at[k]) && s.at[k] in Nodes(v.TreeOf(k.side))
    ensures v.levels[s.at[k]].orderCount == 0 <==> s.queue[k] == []
  {
    hide LevelsOk, LevelMap, Injective, EntryOk, SameKeys, SameIds, Queued, Indices, Total;
    MappedActive(orders, v, s, k);
    AtInRange(orders, v.levels, s, k);
  }

  /** All of the invariant but the coherence of the book, which the caller adds. */
  ghost predicate Discarded(st: Snapshot, st': Snapshot, mix: u64 -> u64, id: u64) {
    id in st.shadow.book.orders && st'.shadow.book == Removed(st.shadow.book, id) && LimitsOf(st') == LimitsOf(st) &&
    CoreOk(st'.orders, st'.view, st'.shadow) && OrderPool(st'.orders, st'.freeOrder, st'.freeOrders) &&
    LookupOk(st'.lookup, mix, st'.shadow.index) && Tally(st')
  }

  lemma {:induction false} DiscardDone(st: Snapshot, mid: Snapshot, st': Snapshot, mix: u64 -> u64, id: u64, o: int,
                                       k: Key, j: int)
    requires Placed(st, mix, id, o, k, j) && Left(st, mid, mix, id, k, j)
    requires Dropped(mid.orders, mid.view, st'.view, mid.shadow, st'.shadow, k)
    requires st' == mid.(view := st'.view, shadow := st'.shadow)
    ensures Discarded(st, st', mix, id)
  {
    hide CoreOk, OrderPool, LookupOk, CanUnlink, Removed;
    CoreKeys(st.orders, st.view, st.shadow);
    IndexTake(st.shadow.index, id);
    BothEmpty(mid.orders, mid.view, mid.shadow, k);
    LeftShadow(st.shadow, k, id, j, st'.shadow);
  }

  lemma {:induction false} BothEmpty(orders: seq<Order>, v: LevelsView, s: Shadow, k: Key)
    requires CoreOk(orders, v, s) && k in s.at
    ensures k in s.queue && k in s.book.queues && (s.queue[k] == [] <==> s.book.queues[k] == [])
  {
    hide LevelsOk, LevelMap, Injective, EntryOk, SameKeys;
    AtInRange(orders, v.levels, s, k);
    QueueParts(orders, v.levels, s, k);
  }

  lemma {:induction false} LeftShadow(s: Shadow, k: Key, id: u64, j: int, t: Shadow)
    requires SameKeys(s) && k in s.at && id in s.book.orders && s.book.orders[id].KeyOf() == k && 0 <= j < |s.queue[k]|
    requires var r := WithoutOrder(s, k, id, j);
             k in r.queue && k in r.book.queues && (r.queue[k] == [] <==> r.book.queues[k] == []) &&
             t == if r.queue[k] == [] then WithoutLevel(r, k) else r
    ensures t.book == Removed(s.book, id) && t.index == s.index - {id}
    ensures |t.at| == |s.at| - if WithoutOrder(s, k, id, j).queue[k] == [] then 1 else 0
  {
    hide Removed, Without, RemoveAt;
    LeftBook(s, k, id, j);
    MapTake(s.at, k);
  }

  // ---------- Taking shares off an order ----------

  /** What the slot of a resting order says, and that its level has at least the shares to be taken off. */
  ghost predicate Reducible(st: Snapshot, id: u64, o: int, q: u32) {
    id in st.shadow.book.orders && 0 <= o < |st.orders| && st.orders[o].id == id &&
    InRange(st.view.levels, st.orders[o].level) &&
    st.shadow.book.orders[id] == Entry(st.orders[o].side, st.orders[o].price, st.orders[o].quantity) &&
    (q <= st.orders[o].quantity ==>
       CanReduce(st.orders, st.view.levels, st.orders[o].level, o, st.orders[o].quantity - q))
  }

  lemma {:induction false} ReduceFacts(st: Snapshot, mix: u64 -> u64, id: u64, o: int, q: u32)
    requires BookOk(st, mix) && id in st.shadow.index && st.shadow.index[id] == o
    ensures Reducible(st, id, o, q)
  {
    hide CoreOk, OrderPool, LookupOk, Tally, Coherent, CanUnlink;
    var k, j := CorePlace(st.orders, st.view, st.shadow, id);
    CoreKeys(st.orders, st.view, st.shadow);
    MappedActive(st.orders, st.view, st.shadow, k);
    if q <= st.orders[o].quantity {
      CoreReduces(st.orders, st.view, st.shadow, id, st.orders[o].quantity - q);
    }
  }

  /** The state with q shares taken off order id. */
  ghost predicate Reduced(st: Snapshot, st': Snapshot, id: u64, o: int, q: u32) {
    id in st.shadow.index && st.shadow.index[id] == o && id in st.shadow.book.orders && 0 <= o < |st.orders| &&
    q <= st.orders[o].quantity &&
    CanReduce(st.orders, st.view.levels, st.orders[o].level, o, st.orders[o].quantity - q) &&
    st' == st.(orders := OrdersAfterReduce(st.orders, o, st.orders[o].quantity - q),
               view := st.view.(levels := LevelsAfterReduce(st.orders, st.view.levels, st.orders[o].level, o,
                                                            st.orders[o].quantity - q)),
               shadow := WithQuantity(st.shadow, id, st.orders[o].quantity - q))
  }

  lemma {:induction false} ReducedDiscarding(st: Snapshot, st': Snapshot, mix: u64 -> u64, id: u64, o: int, q: u32)
    requires BookOk(st, mix) && Reduced(st, st', id, o, q)
    ensures Discarding(st', mix, id, o) && LimitsOf(st') == LimitsOf(st)
  {
    hide CoreOk, OrderPool, LookupOk, Coherent, CanReduce, OrdersAfterReduce, LevelsAfterReduce;
    CoreFree(st.orders, st.view, st.shadow, st.freeOrder, st.freeOrders);
    CoreReduces(st.orders, st.view, st.shadow, id, st.orders[o].quantity - q);
    ReduceKeeps(st.orders, st.view.levels, st.orders[o].level, o, st.orders[o].quantity - q);
    OrderPoolFrame(st.orders, st'.orders, st.freeOrder, st.freeOrders);
  }

  lemma {:induction false} PartlyReduced(st: Snapshot, st': Snapshot, mix: u64 -> u64, id: u64, o: int, q: u32)
    requires BookOk(st, mix) && Reduced(st, st', id, o, q) && 0 < q < st.orders[o].quantity
    ensures Refines(st, st', mix, Ok, Execute(st.shadow.book, id, q))
  {
    hide CoreOk, OrderPool, LookupOk, Tally, Coherent, CanReduce, OrdersAfterReduce, LevelsAfterReduce;
    ReducedDiscarding(st, st', mix, id, o, q);
    ReduceFacts(st, mix, id, o, q);
    ReduceCoherent(st.shadow.book, id, q);
  }

  lemma {:induction false} WhollyReduced(st: Snapshot, mid: Snapshot, st': Snapshot, mix: u64 -> u64, id: u64, o: int,
                                         q: u32)
    requires BookOk(st, mix) && Reduced(st, mid, id, o, q) && 0 < q == st.orders[o].quantity &&
             Discarded(mid, st', mix, id)
    ensures Refines(st, st', mix, Ok, Execute(st.shadow.book, id, q))
  {
    hide CoreOk, OrderPool, LookupOk, Tally, Coherent, CanReduce, OrdersAfterReduce, LevelsAfterReduce, Without;
    ReducedDiscarding(st, mid, mix, id, o, q);
    ReduceFacts(st, mix, id, o, q);
    RemovedCoherent(st.shadow.book, id);
    assert mid.shadow.book.orders - {id} == st.shadow.book.orders - {id};
  }

  lemma {:induction false} Erased(st: Snapshot, st': Snapshot, mix: u64 -> u64, id: u64)
    requires BookOk(st, mix) && Discarded(st, st', mix, id)
    ensures Refines(st, st', mix, Ok, Erase(st.shadow.book, id))
  {
    hide CoreOk, OrderPool, LookupOk, Tally, Coherent, Removed;
    RemovedCoherent(st.shadow.book, id);
  }

  lemma {:induction false} RestingDiscarding(st: Snapshot, mix: u64 -> u64, id: u64, o: int)
    requires BookOk(st, mix) && id in st.shadow.index && st.shadow.index[id] == o
    ensures Discarding(st, mix, id, o)
  {
    hide CoreOk, OrderPool, LookupOk, Tally, Coherent;
  }

  lemma {:induction false} ExecuteRefused(st: Snapshot, mix: u64 -> u64, id: u64, q: u32)
    requires BookOk(st, mix) && id in st.shadow.book.orders && (q == 0 || q > st.shadow.book.orders[id].quantity)
    ensures Refines(st, st, mix, InvalidQuantity, Execute(st.shadow.book, id, q))
  {
    hide BookOk;
  }

  /** An operation that returns before touching anything refines every outcome with its error and an unchanged book. */
  lemma {:induction false} Refused(st: Snapshot, mix: u64 -> u64, err: BookError)
    requires BookOk(st, mix)
    ensures Refines(st, st, mix, err, Outcome(err, st.shadow.book))
  {
    hide BookOk;
  }

  // ---------- Replacing an order ----------

  /** What the level search and the free list tell replace about the abstract book. */
  lemma {:induction false} LevelRoom(st: Snapshot, mix: u64 -> u64, side: Side, p: u32)
    requires BookOk(st, mix)
    ensures PriceTree(st.view.levels, st.view.TreeOf(side), st.view.RootOf(side))
    ensures HasPrice(st.view.levels, st.view.TreeOf(side), p) <==> Key(side, p) in st.shadow.book.queues
    ensures st.view.freeLevel == NONE <==> |st.shadow.book.queues| >= |st.view.levels|
  {
    hide OrderPool, LookupOk, Coherent, LevelMap, QueuesOk, PriceTree, HasPrice, Distinct;
    CoreKeys(st.orders, st.view, st.shadow);
    PriceInMap(st.orders, st.view, st.shadow, Key(side, p));
  }

  lemma {:induction false} ReplaceRefused(st: Snapshot, mix: u64 -> u64, old_: u64, new_: u64, q: u32, p: u32,
                                          err: BookError)
    requires BookOk(st, mix)
    requires var b := st.shadow.book;
             match err
             case UnknownOrder => old_ !in b.orders
             case InvalidQuantity => old_ in b.orders && q == 0
             case DuplicateOrder => old_ in b.orders && q != 0 && new_ != old_ && new_ in b.orders
             case LevelPoolExhausted =>
               old_ in b.orders && q != 0 && (new_ == old_ || new_ !in b.orders) && p != b.orders[old_].price &&
               Key(b.orders[old_].side, p) !in b.queues && |b.queues| >= |st.view.levels|
             case _ => false
    ensures Refines(st, st, mix, err, Replace(st.shadow.book, LimitsOf(st), old_, new_, q, p))
  {
    hide BookOk;
  }

  /** Once its checks have passed, replace erases and adds, and neither can fail. */
  lemma {:induction false} ReplaceDone(st: Snapshot, mid: Snapshot, st': Snapshot, mix: u64 -> u64, old_: u64,
                                       new_: u64, q: u32, p: u32, err: BookError)
    requires BookOk(st, mix) && Replace(st.shadow.book, LimitsOf(st), old_, new_, q, p).error == Ok
    requires old_ in st.shadow.book.orders
    requires Refines(st, mid, mix, Ok, Erase(st.shadow.book, old_))
    requires Refines(mid, st', mix, err,
                     Add(mid.shadow.book, LimitsOf(mid), new_, st.shadow.book.orders[old_].side, q, p))
    ensures err == Ok && Refines(st, st', mix, Ok, Replace(st.shadow.book, LimitsOf(st), old_, new_, q, p))
  {
    hide CoreOk, OrderPool, LookupOk, Tally, Coherent, Replace, Add, Removed, Fits;
    BookFits(st, mix);
    ReplaceKeeps(st.shadow.book, LimitsOf(st), old_, new_, q, p);
  }

  /** The abstract book stays within the capacities of the pools. */
  lemma {:induction false} BookFits(st: Snapshot, mix: u64 -> u64)
    requires BookOk(st, mix)
    ensures Coherent(st.shadow.book) && Fits(st.shadow.book, LimitsOf(st))
  {
    hide BookOk, CoreOk, OrderPool, LookupOk, Coherent;
    StateFacts(st, mix);
  }

  /** Erasing an order that rests in the book succeeds. */
  lemma {:induction false} ErasedOk(st: Snapshot, st': Snapshot, mix: u64 -> u64, id: u64, err: BookError)
    requires Refines(st, st', mix, err, Erase(st.shadow.book, id)) && id in st.shadow.book.orders
    ensures err == Ok && BookOk(st', mix)
  {
    hide BookOk;
  }
}
