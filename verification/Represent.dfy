/**
 How the order array, the level array and their queues represent an abstract book. `index` says which
 slot holds an order, `at` which level holds a price, and `queue` which slots are queued there.
 */
module Represent {
  import opened Types
  import opened LevelTree
  import opened LevelIndex
  import opened Pools
  import opened Fifo
  import opened BookSpec

  datatype Shadow = Shadow(index: map<u64, int>, at: map<Key, int>, queue: map<Key, seq<int>>, book: Book)

  /** An active order slot as its fields say. */
  predicate Holds(orders: seq<Order>, o: int, li: int, k: Key) {
    0 <= o < |orders| && orders[o].active && orders[o].level == li && orders[o].side == k.side &&
    orders[o].price == k.price
  }

  /** Level li stores queue q of price k: linked in order, with exact aggregates. */
  ghost predicate LevelQueue(orders: seq<Order>, level: PriceLevel, li: int, k: Key, q: seq<int>) {
    level.price == k.price && Queued(orders, level.head, level.tail, q) && Indices(orders, q) &&
    level.totalQuantity == Total(orders, q) && level.orderCount == |q| &&
    forall j :: 0 <= j < |q| ==> Holds(orders, q[j], li, k)
  }

  /** The ids queued are those of the abstract queue, in the same order, and the index leads to their slots. */
  ghost predicate SameIds(orders: seq<Order>, index: map<u64, int>, q: seq<int>, ids: seq<u64>) {
    |ids| == |q| &&
    forall j :: 0 <= j < |q| ==>
        0 <= q[j] < |orders| && orders[q[j]].id == ids[j] && ids[j] in index && index[ids[j]] == q[j]
  }

  ghost predicate QueueOk(orders: seq<Order>, levels: seq<PriceLevel>, s: Shadow, k: Key) {
    k in s.at && k in s.queue && k in s.book.queues && InRange(levels, s.at[k]) &&
    LevelQueue(orders, levels[s.at[k]], s.at[k], k, s.queue[k]) &&
    SameIds(orders, s.index, s.queue[k], s.book.queues[k])
  }

  ghost predicate EntryOk(orders: seq<Order>, s: Shadow, id: u64) {
    id in s.index && id in s.book.orders && 0 <= s.index[id] < |orders| &&
    var o := orders[s.index[id]];
    var e := s.book.orders[id];
    o.id == id && o.active && o.side == e.side && o.price == e.price && o.quantity == e.quantity &&
    e.KeyOf() in s.at && e.KeyOf() in s.queue && o.level == s.at[e.KeyOf()] && s.index[id] in s.queue[e.KeyOf()]
  }

  ghost predicate Injective(at: map<Key, int>) {
    forall a, b :: a in at && b in at && at[a] == at[b] ==> a == b
  }

  /** Everything about orders and queues; queues may be empty between the steps of an operation. */
  ghost predicate QueuesOk(orders: seq<Order>, levels: seq<PriceLevel>, s: Shadow) {
    |orders| <= MAX_INDEX && Injective(s.at) &&
    SameKeys(s) &&
    (forall k :: k in s.at ==> QueueOk(orders, levels, s, k)) &&
    (forall id :: id in s.index ==> EntryOk(orders, s, id))
  }

  // ---------- Framing ----------

  /** Two shadows say the same about price k. */
  ghost predicate Agree(s: Shadow, s': Shadow, k: Key) {
    k in s.at && k in s.queue && k in s.book.queues && k in s'.at && k in s'.queue && k in s'.book.queues &&
    s'.at[k] == s.at[k] && s'.queue[k] == s.queue[k] && s'.book.queues[k] == s.book.queues[k] &&
    forall id :: id in s.book.queues[k] && id in s.index ==> id in s'.index && s'.index[id] == s.index[id]
  }

  /** A queue does not see changes to other slots, to links of levels, or to other entries. */
  lemma {:induction false} QueueOkFrame(orders: seq<Order>, orders': seq<Order>, levels: seq<PriceLevel>,
                                        levels': seq<PriceLevel>,
                                        s: Shadow, s': Shadow, k: Key)
    requires QueueOk(orders, levels, s, k) && |orders'| == |orders| && |levels'| == |levels| && Agree(s, s', k)
    requires WithoutLinks(levels'[s.at[k]]) == WithoutLinks(levels[s.at[k]])
    requires forall j :: 0 <= j < |s.queue[k]| ==>
               0 <= s.queue[k][j] < |orders| && orders'[s.queue[k][j]] == orders[s.queue[k][j]]
    ensures QueueOk(orders', levels', s', k)
  {
    hide Total, Preceding, Following, Distinct;
    TotalFrame(orders, orders', s.queue[k]);
  }

  /** The same for an operation that touches no order. */
  lemma {:induction false} QueueOkSame(orders: seq<Order>, levels: seq<PriceLevel>, levels': seq<PriceLevel>, s: Shadow,
                                       s': Shadow, k: Key)
    requires QueueOk(orders, levels, s, k) && |levels'| == |levels| && s'.index == s.index
    requires k in s'.at && k in s'.queue && k in s'.book.queues
    requires s'.at[k] == s.at[k] && s'.queue[k] == s.queue[k] && s'.book.queues[k] == s.book.queues[k]
    requires WithoutLinks(levels'[s.at[k]]) == WithoutLinks(levels[s.at[k]])
    ensures QueueOk(orders, levels', s', k)
  {
    hide Queued, Total, Indices, Holds, SameIds;
  }

  lemma {:induction false} AtInRange(orders: seq<Order>, levels: seq<PriceLevel>, s: Shadow, k: Key)
    requires QueuesOk(orders, levels, s) && k in s.at
    ensures QueueOk(orders, levels, s, k) && InRange(levels, s.at[k])
  {}

  /** Members of different queues differ. */
  lemma {:induction false} QueuesApart(orders: seq<Order>, levels: seq<PriceLevel>, s: Shadow, k: Key, k': Key, i: int,
                                       j: int)
    requires QueuesOk(orders, levels, s) && k in s.at && k' in s.at && k != k'
    requires 0 <= i < |s.queue[k]| && 0 <= j < |s.queue[k']|
    ensures s.queue[k][i] != s.queue[k'][j]
  {
    assert QueueOk(orders, levels, s, k) && QueueOk(orders, levels, s, k');
    assert Holds(orders, s.queue[k][i], s.at[k], k);
    assert Holds(orders, s.queue[k'][j], s.at[k'], k');
  }

  // ---------- The level map ----------

  /** Every price of the book has its level in the tree of its side, and the other way round. */
  ghost predicate LevelMap(levels: seq<PriceLevel>, at: map<Key, int>, bids: Tree, asks: Tree) {
    (forall k :: k in at ==>
       InRange(levels, at[k]) && levels[at[k]].price == k.price &&
       at[k] in Nodes(if k.side == Buy then bids else asks)) &&
    (forall i :: i in Nodes(bids) ==>
       InRange(levels, i) && Key(Buy, levels[i].price) in at && at[Key(Buy, levels[i].price)] == i) &&
    (forall i :: i in Nodes(asks) ==>
       InRange(levels, i) && Key(Sell, levels[i].price) in at && at[Key(Sell, levels[i].price)] == i)
  }

  // ---------- Adding and dropping an empty price ----------

  function WithLevel(s: Shadow, k: Key, n: int): Shadow {
    s.(at := s.at[k := n], queue := s.queue[k := []], book := s.book.(queues := s.book.queues[k := []]))
  }

  lemma {:induction false} AddLevelOk(orders: seq<Order>, levels: seq<PriceLevel>, levels': seq<PriceLevel>, s: Shadow,
                                      k: Key, n: int)
    requires QueuesOk(orders, levels, s) && k !in s.at && (forall x :: x in s.at ==> s.at[x] != n)
    requires LevelAdded(levels, levels', n, k.price)
    ensures QueuesOk(orders, levels', WithLevel(s, k, n))
  {
    var s' := WithLevel(s, k, n);
    hide LevelQueue, SameIds, QueueOk;
    forall x | x in s'.at ensures QueueOk(orders, levels', s', x) {
      if x == k {
        FreshQueueOk(orders, levels', s', k, n);
      } else {
        AtInRange(orders, levels, s, x);
        QueueOkSame(orders, levels, levels', s, s', x);
      }
    }
    forall id | id in s'.index ensures EntryOk(orders, s', id) {
      assert EntryOk(orders, s, id);
    }
  }

  lemma {:induction false} FreshQueueOk(orders: seq<Order>, levels: seq<PriceLevel>, s: Shadow, k: Key, n: int)
    requires k in s.at && s.at[k] == n && k in s.queue && s.queue[k] == [] && k in s.book.queues &&
             s.book.queues[k] == []
    requires InRange(levels, n) && WithoutLinks(levels[n]) == FreshLevel(k.price)
    ensures QueueOk(orders, levels, s, k)
  {}

  lemma {:induction false} QueueParts(orders: seq<Order>, levels: seq<PriceLevel>, s: Shadow, k: Key)
    requires QueueOk(orders, levels, s, k)
    ensures Distinct(s.queue[k])
    ensures forall j :: 0 <= j < |s.queue[k]| ==> Holds(orders, s.queue[k][j], s.at[k], k)
    ensures |s.book.queues[k]| == |s.queue[k]|
    ensures forall j :: 0 <= j < |s.queue[k]| ==>
      orders[s.queue[k][j]].id == s.book.queues[k][j] && s.book.queues[k][j] in s.index &&
      s.index[s.book.queues[k][j]] == s.queue[k][j]
  {}

  function WithoutLevel(s: Shadow, k: Key): Shadow {
    s.(at := s.at - {k}, queue := s.queue - {k}, book := s.book.(queues := s.book.queues - {k}))
  }

  lemma {:induction false} DropLevelOk(orders: seq<Order>, levels: seq<PriceLevel>, levels': seq<PriceLevel>, s: Shadow,
                                       k: Key)
    requires QueuesOk(orders, levels, s) && k in s.at && s.queue[k] == []
    requires LevelDropped(levels, levels', s.at[k])
    ensures QueuesOk(orders, levels', WithoutLevel(s, k))
  {
    var s' := WithoutLevel(s, k);
    hide LevelQueue, SameIds, QueueOk;
    forall x | x in s'.at ensures QueueOk(orders, levels', s', x) {
      AtInRange(orders, levels, s, x);
      QueueOkSame(orders, levels, levels', s, s', x);
    }
    forall id | id in s'.index ensures EntryOk(orders, s', id) {
      assert EntryOk(orders, s, id);
    }
  }

  // ---------- An order joins a queue ----------

  /** What Append does to the order array. */
  function AppendedOrders(orders: seq<Order>, tail: int, o: int): (r: seq<Order>)
    requires 0 <= o < |orders| && (tail == NONE || 0 <= tail < |orders|)
    ensures |r| == |orders|
  {
    var a := orders[o := orders[o].(prev := tail, next := NONE)];
    if tail == NONE then a else a[tail := a[tail].(next := o)]
  }

  /** What Append does to the level. */
  function AppendedLevel(l: PriceLevel, o: int, quantity: u32): PriceLevel {
    l.(head := if l.tail == NONE then o else l.head, tail := o,
       totalQuantity := Wrap64(l.totalQuantity + quantity), orderCount := Wrap32(l.orderCount + 1))
  }

  predicate CanAppend(orders: seq<Order>, levels: seq<PriceLevel>, li: int, o: int) {
    InRange(levels, li) && 0 <= o < |orders| && (levels[li].tail == NONE || 0 <= levels[li].tail < |orders|) &&
    levels[li].tail != o
  }

  /** The order array and the level array after Append. */
  function OrdersAfterAppend(orders: seq<Order>, levels: seq<PriceLevel>, li: int, o: int): seq<Order>
    requires CanAppend(orders, levels, li, o)
  {
    AppendedOrders(orders, levels[li].tail, o)
  }

  function LevelsAfterAppend(orders: seq<Order>, levels: seq<PriceLevel>, li: int, o: int): seq<PriceLevel>
    requires CanAppend(orders, levels, li, o)
  {
    levels[li := AppendedLevel(levels[li], o, orders[o].quantity)]
  }

  function WithOrder(s: Shadow, k: Key, id: u64, e: Entry, o: int): Shadow
    requires k in s.queue && k in s.book.queues
  {
    Shadow(s.index[id := o], s.at, s.queue[k := s.queue[k] + [o]],
           Book(s.book.orders[id := e], s.book.queues[k := s.book.queues[k] + [id]]))
  }

  lemma {:induction false} EnqueuedQueue(before: seq<Order>, orders: seq<Order>, level: PriceLevel, li: int, k: Key,
                                         q: seq<int>, o: int)
    requires LevelQueue(before, level, li, k, q) && |before| == |orders| <= MAX_INDEX
    requires 0 <= o < |orders| && o !in q && orders == before[o := orders[o]] && Holds(orders, o, li, k)
    ensures level.tail == NONE || 0 <= level.tail < |orders|
    ensures LevelQueue(AppendedOrders(orders, level.tail, o), AppendedLevel(level, o, orders[o].quantity), li, k,
                       q + [o])
  {
    hide LevelQueue, Queued, Total, Distinct, Indices, AppendedOrders, Wrap64, Wrap32, Holds;
    LevelQueueParts(before, level, li, k, q);
    AppendLinks(before, orders, level.head, level.tail, q, o);
    AppendTotals(before, orders, AppendedOrders(orders, level.tail, o), q, o, level.tail);
    AppendHolds(before, orders, q, o, level.tail, li, k);
    LevelQueueFrom(AppendedOrders(orders, level.tail, o), AppendedLevel(level, o, orders[o].quantity), li, k, q + [o]);
  }

  lemma {:induction false} LevelQueueParts(orders: seq<Order>, level: PriceLevel, li: int, k: Key, q: seq<int>)
    requires LevelQueue(orders, level, li, k, q)
    ensures level.price == k.price && Queued(orders, level.head, level.tail, q) && Distinct(q) && Indices(orders, q)
    ensures level.totalQuantity == Total(orders, q) && level.orderCount == |q|
    ensures forall j :: 0 <= j < |q| ==> Holds(orders, q[j], li, k)
  {}

  lemma {:induction false} LevelQueueFrom(orders: seq<Order>, level: PriceLevel, li: int, k: Key, q: seq<int>)
    requires level.price == k.price && Queued(orders, level.head, level.tail, q) && Indices(orders, q)
    requires level.totalQuantity == Total(orders, q) && level.orderCount == |q|
    requires forall j :: 0 <= j < |q| ==> Holds(orders, q[j], li, k)
    ensures LevelQueue(orders, level, li, k, q)
  {}

  lemma {:induction false} AppendHolds(before: seq<Order>, orders: seq<Order>, q: seq<int>, o: int, tail: int, li: int,
                                       k: Key)
    requires forall j :: 0 <= j < |q| ==> Holds(before, q[j], li, k)
    requires |before| == |orders| && 0 <= o < |orders| && orders == before[o := orders[o]] && Holds(orders, o, li, k)
    requires tail == NONE || 0 <= tail < |orders|
    ensures forall j :: 0 <= j < |q + [o]| ==> Holds(AppendedOrders(orders, tail, o), (q + [o])[j], li, k)
  {}

  lemma {:induction false} AppendLinks(before: seq<Order>, orders: seq<Order>, head: int, tail: int, q: seq<int>,
                                       o: int)
    requires Queued(before, head, tail, q) && |before| == |orders|
    requires 0 <= o < |orders| && o !in q && orders == before[o := orders[o]]
    ensures (tail == NONE || 0 <= tail < |orders|) && (tail == NONE <==> q == [])
    ensures Queued(AppendedOrders(orders, tail, o), if tail == NONE then o else head, o, q + [o]) && Distinct(q + [o])
  {
    hide Preceding, Following;
    AppendQueued(before, AppendedOrders(orders, tail, o), head, tail, q, o);
  }

  lemma {:induction false} AppendTotals(before: seq<Order>, orders: seq<Order>, after: seq<Order>, q: seq<int>, o: int,
                                        tail: int)
    requires Indices(before, q) && Distinct(q) && |before| == |orders| <= MAX_INDEX &&
             (tail == NONE || 0 <= tail < |orders|)
    requires 0 <= o < |orders| && o !in q && orders == before[o := orders[o]] &&
             after == AppendedOrders(orders, tail, o)
    ensures Indices(after, q + [o]) && Total(after, q + [o]) == Wrap64(Total(before, q) + orders[o].quantity)
    ensures |q + [o]| == Wrap32(|q| + 1)
  {
    hide Wrap64;
    DistinctSnoc(q, o);
    TotalFrame(before, after, q);
    assert [o][1..] == [];
    assert Total(after, [o]) == after[o].quantity;
    TotalConcat(after, q, [o]);
    NoOverflow(after, q + [o]);
    Wrap64Small(Total(after, q + [o]));
  }

  lemma {:induction false} Wrap64Small(x: int)
    requires 0 <= x < U64_MODULUS
    ensures Wrap64(x) == x
  {}

  lemma {:induction false} SameIdsSnoc(before: seq<Order>, after: seq<Order>, index: map<u64, int>, q: seq<int>,
                                       ids: seq<u64>, id: u64, o: int)
    requires SameIds(before, index, q, ids) && id !in index && 0 <= o < |after| && |after| == |before| &&
             after[o].id == id
    requires forall x :: x in index ==> index[x] != o
    requires forall i :: 0 <= i < |before| && i != o ==> after[i].id == before[i].id
    ensures SameIds(after, index[id := o], q + [o], ids + [id])
  {
    var r, s := q + [o], ids + [id];
    forall j | 0 <= j < |r|
      ensures 0 <= r[j] < |after| && after[r[j]].id == s[j] && s[j] in index[id := o] && index[id := o][s[j]] == r[j]
    {
      if j < |q| { assert r[j] == q[j] && s[j] == ids[j]; }
    }
  }

  /** Slot o, not in use so far, has been filled in; `orders` is the array just before Append. */
  ghost predicate Filled(before: seq<Order>, orders: seq<Order>, s: Shadow, k: Key, id: u64, e: Entry, o: int) {
    0 <= o < |before| && |orders| == |before| && orders == before[o := orders[o]] &&
    id !in s.index && (forall x :: x in s.index ==> s.index[x] != o) && k in s.at && e.KeyOf() == k &&
    orders[o].id == id && orders[o].active && orders[o].side == e.side && orders[o].price == e.price &&
    orders[o].quantity == e.quantity && orders[o].level == s.at[k]
  }

  lemma {:induction false} FilledSame(before: seq<Order>, orders: seq<Order>, s: Shadow, k: Key, id: u64, e: Entry,
                                      o: int)
    requires Filled(before, orders, s, k, id, e, o)
    ensures |orders| == |before| && id !in s.index && k in s.at && 0 <= o < |orders|
    ensures forall i :: 0 <= i < |before| && i != o ==> orders[i] == before[i]
  {
    forall i | 0 <= i < |before| && i != o ensures orders[i] == before[i] {
      assert orders[i] == before[o := orders[o]][i];
    }
  }

  lemma {:induction false} NotQueued(orders: seq<Order>, levels: seq<PriceLevel>, s: Shadow, k: Key, o: int)
    requires QueueOk(orders, levels, s, k) && forall x :: x in s.index ==> s.index[x] != o
    ensures o !in s.queue[k]
  {}

  lemma {:induction false} EnqueueQueueOk(before: seq<Order>, orders: seq<Order>, levels: seq<PriceLevel>, s: Shadow,
                                          k: Key, id: u64, e: Entry, o: int)
    requires QueueOk(before, levels, s, k) && Filled(before, orders, s, k, id, e, o) && |orders| <= MAX_INDEX
    ensures CanAppend(orders, levels, s.at[k], o)
    ensures QueueOk(OrdersAfterAppend(orders, levels, s.at[k], o), LevelsAfterAppend(orders, levels, s.at[k], o),
                    WithOrder(s, k, id, e, o), k)
  {
    NotQueued(before, levels, s, k, o);
    var level, q := levels[s.at[k]], s.queue[k];
    LevelQueueParts(before, level, s.at[k], k, q);
    assert level.tail != o by {
      assert q != [] ==> q[|q| - 1] in q;
    }
    hide LevelQueue, SameIds, AppendedLevel, AppendedOrders;
    EnqueuedQueue(before, orders, level, s.at[k], k, q, o);
    AppendKeeps(orders, levels, s.at[k], o);
    SameIdsSnoc(before, AppendedOrders(orders, level.tail, o), s.index, q, s.book.queues[k], id, o);
  }

  /** Append changes only links, of the new slot and of the old tail, and one level. */
  lemma {:induction false} AppendKeeps(orders: seq<Order>, levels: seq<PriceLevel>, li: int, o: int)
    requires CanAppend(orders, levels, li, o)
    ensures var after, levels' := OrdersAfterAppend(orders, levels, li, o), LevelsAfterAppend(orders, levels, li, o);
            |after| == |orders| && |levels'| == |levels| &&
            (forall i :: 0 <= i < |orders| ==> after[i] == orders[i].(prev := after[i].prev, next := after[i].next)) &&
            (forall i :: 0 <= i < |orders| && i != o && i != levels[li].tail ==> after[i] == orders[i]) &&
            (forall i :: 0 <= i < |levels| && i != li ==> levels'[i] == levels[i])
  {}

  /** The last slot of a queue is its tail. */
  lemma {:induction false} TailOf(orders: seq<Order>, levels: seq<PriceLevel>, s: Shadow, k: Key)
    requires QueueOk(orders, levels, s, k)
    ensures var q := s.queue[k]; levels[s.at[k]].tail == if q == [] then NONE else q[|q| - 1]
  {}

  /** No member of another queue is the new slot or the tail it is linked to. */
  lemma {:induction false} MembersApart(before: seq<Order>, levels: seq<PriceLevel>, s: Shadow, k: Key, o: int, x: Key,
                                        j: int)
    requires QueuesOk(before, levels, s) && k in s.at && x in s.at && x != k &&
             (forall y :: y in s.index ==> s.index[y] != o)
    requires 0 <= j < |s.queue[x]|
    ensures InRange(levels, s.at[k]) && 0 <= s.queue[x][j] < |before|
    ensures s.queue[x][j] != o && s.queue[x][j] != levels[s.at[k]].tail
  {
    AtInRange(before, levels, s, k);
    AtInRange(before, levels, s, x);
    NotQueued(before, levels, s, x, o);
    TailOf(before, levels, s, k);
    QueueParts(before, levels, s, x);
    hide QueueOk, QueuesOk, LevelQueue, SameIds, Injective, EntryOk;
    assert s.queue[x][j] in s.queue[x];
    assert Holds(before, s.queue[x][j], s.at[x], x);
    if s.queue[k] != [] {
      QueuesApart(before, levels, s, k, x, |s.queue[k]| - 1, j);
    }
  }

  lemma {:induction false} OtherQueue(before: seq<Order>, orders: seq<Order>, levels: seq<PriceLevel>,
                                      s: Shadow, k: Key, id: u64, e: Entry, o: int, x: Key)
    requires QueuesOk(before, levels, s) && Filled(before, orders, s, k, id, e, o) && x in s.at && x != k
    requires CanAppend(orders, levels, s.at[k], o)
    ensures QueueOk(OrdersAfterAppend(orders, levels, s.at[k], o), LevelsAfterAppend(orders, levels, s.at[k], o),
                    WithOrder(s, k, id, e, o), x)
  {
    var after, levels' := OrdersAfterAppend(orders, levels, s.at[k], o), LevelsAfterAppend(orders, levels, s.at[k], o);
    AtInRange(before, levels, s, x);
    FilledSame(before, orders, s, k, id, e, o);
    AppendKeeps(orders, levels, s.at[k], o);
    assert s.at[k] != s.at[x] && (forall y :: y in s.index ==> s.index[y] != o);
    hide QueueOk, QueuesOk, LevelQueue, SameIds, Injective, Filled, EntryOk, OrdersAfterAppend, LevelsAfterAppend,
         CanAppend, Agree;
    forall j | 0 <= j < |s.queue[x]|
      ensures 0 <= s.queue[x][j] < |before| && after[s.queue[x][j]] == before[s.queue[x][j]]
    {
      MembersApart(before, levels, s, k, o, x, j);
    }
    ElsewhereSame(s, k, id, e, o, x);
    hide WithOrder;
    QueueOkFrame(before, after, levels, levels', s, WithOrder(s, k, id, e, o), x);
  }

  lemma {:induction false} ElsewhereSame(s: Shadow, k: Key, id: u64, e: Entry, o: int, x: Key)
    requires k in s.queue && k in s.book.queues && x in s.at && x in s.queue && x in s.book.queues && x != k &&
             id !in s.index
    ensures Agree(s, WithOrder(s, k, id, e, o), x)
  {}

  lemma {:induction false} JoinedEntry(before: seq<Order>, orders: seq<Order>, after: seq<Order>,
                                       levels: seq<PriceLevel>,
                                       s: Shadow, k: Key, id: u64, e: Entry, o: int, x: u64)
    requires QueuesOk(before, levels, s) && Filled(before, orders, s, k, id, e, o) && (x in s.index || x == id)
    requires |after| == |orders|
    requires forall i :: 0 <= i < |orders| ==> after[i] == orders[i].(prev := after[i].prev, next := after[i].next)
    ensures EntryOk(after, WithOrder(s, k, id, e, o), x)
  {
    hide QueueOk;
    var q := s.queue[k] + [o];
    if x == id {
      assert q[|q| - 1] == o;
    } else {
      assert EntryOk(before, s, x);
      var i := s.index[x];
      assert after[i] == before[i].(prev := after[i].prev, next := after[i].next);
      assert i in s.queue[k] ==> i in q;
    }
  }

  ghost predicate SameKeys(s: Shadow) {
    s.at.Keys == s.queue.Keys == s.book.queues.Keys && s.index.Keys == s.book.orders.Keys
  }

  lemma {:induction false} WithOrderKeys(s: Shadow, k: Key, id: u64, e: Entry, o: int)
    requires SameKeys(s) && k in s.at
    ensures SameKeys(WithOrder(s, k, id, e, o)) && WithOrder(s, k, id, e, o).at == s.at
    ensures forall x :: x in WithOrder(s, k, id, e, o).index ==> x in s.index || x == id
  {
    var s' := WithOrder(s, k, id, e, o);
    assert s'.queue.Keys == s.queue.Keys && s'.book.queues.Keys == s.book.queues.Keys;
    assert s'.index.Keys == s.index.Keys + {id} && s'.book.orders.Keys == s.book.orders.Keys + {id};
  }

  /** All queues and entries after an order has joined queue k. */
  lemma {:induction false} EnqueueOk(before: seq<Order>, orders: seq<Order>, levels: seq<PriceLevel>, s: Shadow, k: Key,
                                     id: u64, e: Entry, o: int)
    requires QueuesOk(before, levels, s) && Filled(before, orders, s, k, id, e, o)
    ensures CanAppend(orders, levels, s.at[k], o) && k in s.queue && k in s.book.queues
    ensures QueuesOk(OrdersAfterAppend(orders, levels, s.at[k], o), LevelsAfterAppend(orders, levels, s.at[k], o),
                     WithOrder(s, k, id, e, o))
  {
    QueuesParts(before, levels, s);
    AtInRange(before, levels, s, k);
    FilledSame(before, orders, s, k, id, e, o);
    WithOrderKeys(s, k, id, e, o);
    hide QueuesOk, QueueOk, EntryOk, Filled, Injective, OrdersAfterAppend, LevelsAfterAppend, CanAppend, WithOrder;
    EnqueueQueueOk(before, orders, levels, s, k, id, e, o);
    AppendKeeps(orders, levels, s.at[k], o);
    var s' := WithOrder(s, k, id, e, o);
    var after, levels' := OrdersAfterAppend(orders, levels, s.at[k], o), LevelsAfterAppend(orders, levels, s.at[k], o);
    forall x | x in s'.at ensures QueueOk(after, levels', s', x) {
      if x != k {
        OtherQueue(before, orders, levels, s, k, id, e, o, x);
      }
    }
    forall x | x in s'.index ensures EntryOk(after, s', x) {
      JoinedEntry(before, orders, after, levels, s, k, id, e, o, x);
    }
    QueuesFrom(after, levels', s');
  }

  lemma {:induction false} QueuesParts(orders: seq<Order>, levels: seq<PriceLevel>, s: Shadow)
    requires QueuesOk(orders, levels, s)
    ensures |orders| <= MAX_INDEX && Injective(s.at)
    ensures SameKeys(s)
    ensures forall k :: k in s.at ==> QueueOk(orders, levels, s, k)
    ensures forall id :: id in s.index ==> EntryOk(orders, s, id)
  {}

  lemma {:induction false} QueuesFrom(orders: seq<Order>, levels: seq<PriceLevel>, s: Shadow)
    requires |orders| <= MAX_INDEX && Injective(s.at)
    requires SameKeys(s)
    requires forall k :: k in s.at ==> QueueOk(orders, levels, s, k)
    requires forall id :: id in s.index ==> EntryOk(orders, s, id)
    ensures QueuesOk(orders, levels, s)
  {}

  // ---------- Where an order is queued ----------

  /** The slot, price, level and position of a resting order. */
  lemma {:induction false} PlaceOf(orders: seq<Order>, levels: seq<PriceLevel>, s: Shadow, id: u64) returns (j: int)
    requires QueuesOk(orders, levels, s) && id in s.index
    ensures id in s.book.orders && 0 <= s.index[id] < |orders|
    ensures var k, o := s.book.orders[id].KeyOf(), s.index[id];
            k in s.at && k in s.queue && k in s.book.queues && InRange(levels, s.at[k]) && orders[o].level == s.at[k] &&
            QueueOk(orders, levels, s, k) && EntryOk(orders, s, id) &&
            0 <= j < |s.queue[k]| && s.queue[k][j] == o
  {
    assert EntryOk(orders, s, id);
    var k, o := s.book.orders[id].KeyOf(), s.index[id];
    assert QueueOk(orders, levels, s, k);
    j :| 0 <= j < |s.queue[k]| && s.queue[k][j] == o;
  }

  // ---------- An order loses shares ----------

  function WithQuantity(s: Shadow, id: u64, q: u32): Shadow
    requires id in s.book.orders
  {
    s.(book := s.book.(orders := s.book.orders[id := s.book.orders[id].(quantity := q)]))
  }

  lemma {:induction false} TotalUpdate(before: seq<Order>, after: seq<Order>, q: seq<int>, j: int)
    requires Indices(before, q) && Distinct(q) && 0 <= j < |q| && |after| == |before|
    requires forall i :: 0 <= i < |before| && i != q[j] ==> after[i].quantity == before[i].quantity
    ensures Indices(after, q) && Total(after, q) == Total(before, q) - before[q[j]].quantity + after[q[j]].quantity
  {
    TotalRemove(before, q, j);
    TotalRemove(after, q, j);
    DistinctRemove(q, j);
    forall i | 0 <= i < |RemoveAt(q, j)| ensures RemoveAt(q, j)[i] in RemoveAt(q, j) {}
    hide Total, RemoveAt, Distinct;
    TotalFrame(before, after, RemoveAt(q, j));
  }

  lemma {:induction false} ReducedQueue(before: seq<Order>, level: PriceLevel, li: int, k: Key, q: seq<int>, j: int,
                                        quantity: u32)
    requires LevelQueue(before, level, li, k, q) && 0 <= j < |q| && 0 <= q[j] < |before| &&
             quantity <= before[q[j]].quantity
    ensures level.totalQuantity >= before[q[j]].quantity - quantity
    ensures LevelQueue(before[q[j] := before[q[j]].(quantity := quantity)],
                       level.(totalQuantity := level.totalQuantity - (before[q[j]].quantity - quantity)), li, k, q)
  {
    var after := before[q[j] := before[q[j]].(quantity := quantity)];
    LevelQueueParts(before, level, li, k, q);
    TotalUpdate(before, after, q, j);
    hide LevelQueue, Total, Distinct, Indices, Preceding, Following;
    QueuedFrame(before, after, level.head, level.tail, q);
    forall i | 0 <= i < |q| ensures Holds(after, q[i], li, k) {
      assert Holds(before, q[i], li, k);
    }
    LevelQueueFrom(after, level.(totalQuantity := level.totalQuantity - (before[q[j]].quantity - quantity)), li, k, q);
  }

  lemma {:induction false} SameIdsFrame(before: seq<Order>, after: seq<Order>, index: map<u64, int>, q: seq<int>,
                                        ids: seq<u64>)
    requires SameIds(before, index, q, ids) && |after| == |before|
    requires forall i :: 0 <= i < |before| ==> after[i].id == before[i].id
    ensures SameIds(after, index, q, ids)
  {}

  predicate CanReduce(orders: seq<Order>, levels: seq<PriceLevel>, li: int, o: int, quantity: u32) {
    InRange(levels, li) && 0 <= o < |orders| && quantity <= orders[o].quantity &&
    levels[li].totalQuantity >= orders[o].quantity - quantity
  }

  function OrdersAfterReduce(orders: seq<Order>, o: int, quantity: u32): seq<Order>
    requires 0 <= o < |orders|
  {
    orders[o := orders[o].(quantity := quantity)]
  }

  function LevelsAfterReduce(orders: seq<Order>, levels: seq<PriceLevel>, li: int, o: int,
                             quantity: u32): seq<PriceLevel>
    requires CanReduce(orders, levels, li, o, quantity)
  {
    levels[li := levels[li].(totalQuantity := levels[li].totalQuantity - (orders[o].quantity - quantity))]
  }

  lemma {:induction false} ReduceKeeps(orders: seq<Order>, levels: seq<PriceLevel>, li: int, o: int, quantity: u32)
    requires CanReduce(orders, levels, li, o, quantity)
    ensures var after, levels' := OrdersAfterReduce(orders, o, quantity),
            LevelsAfterReduce(orders, levels, li, o, quantity);
            |after| == |orders| && |levels'| == |levels| &&
            (forall i :: 0 <= i < |orders| ==> after[i].id == orders[i].id && (i != o ==> after[i] == orders[i])) &&
            (forall i :: 0 <= i < |levels| && i != li ==> levels'[i] == levels[i])
  {}

  /** All queues and entries after an order has lost shares, possibly all of them. */
  lemma {:induction false} ReduceOk(orders: seq<Order>, levels: seq<PriceLevel>, s: Shadow, id: u64, quantity: u32)
    requires QueuesOk(orders, levels, s) && id in s.index && id in s.book.orders && 0 <= s.index[id] < |orders|
    requires quantity <= orders[s.index[id]].quantity
    ensures var o := s.index[id];
            CanReduce(orders, levels, orders[o].level, o, quantity) &&
            QueuesOk(OrdersAfterReduce(orders, o, quantity),
                     LevelsAfterReduce(orders, levels, orders[o].level, o, quantity), WithQuantity(s, id, quantity))
  {
    var j := PlaceOf(orders, levels, s, id);
    var o, k := s.index[id], s.book.orders[id].KeyOf();
    var li := orders[o].level;
    QueuesParts(orders, levels, s);
    WithQuantityKeys(s, id, quantity);
    hide QueuesOk, QueueOk, Injective, LevelQueue, SameIds, EntryOk, CanReduce, OrdersAfterReduce, LevelsAfterReduce,
         WithQuantity;
    ReducedQueueOk(orders, levels, s, id, k, j, quantity);
    ReduceKeeps(orders, levels, li, o, quantity);
    var after, levels', s' := OrdersAfterReduce(orders, o, quantity),
                              LevelsAfterReduce(orders, levels, li, o, quantity), WithQuantity(s, id, quantity);
    forall x | x in s'.at ensures QueueOk(after, levels', s', x) {
      if x != k {
        ReducedOther(orders, levels, s, id, k, j, quantity, x);
      }
    }
    forall x | x in s'.index ensures EntryOk(after, s', x) {
      ReducedEntry(orders, levels, s, id, quantity, x);
    }
    QueuesFrom(after, levels', s');
  }

  lemma {:induction false} WithQuantityKeys(s: Shadow, id: u64, quantity: u32)
    requires SameKeys(s) && id in s.book.orders
    ensures SameKeys(WithQuantity(s, id, quantity)) && WithQuantity(s, id, quantity).at == s.at &&
            WithQuantity(s, id, quantity).index == s.index
    ensures forall x :: x in s.at && x in s.queue && x in s.book.queues ==> Agree(s, WithQuantity(s, id, quantity), x)
  {
    assert WithQuantity(s, id, quantity).book.orders.Keys == s.book.orders.Keys;
  }

  lemma {:induction false} ReducedEntry(orders: seq<Order>, levels: seq<PriceLevel>, s: Shadow, id: u64, quantity: u32,
                                        x: u64)
    requires QueuesOk(orders, levels, s) && id in s.index && id in s.book.orders && 0 <= s.index[id] < |orders| &&
             x in s.index
    ensures EntryOk(OrdersAfterReduce(orders, s.index[id], quantity), WithQuantity(s, id, quantity), x)
  {
    hide QueueOk;
    assert EntryOk(orders, s, id) && EntryOk(orders, s, x);
  }

  lemma {:induction false} ReducedQueueOk(orders: seq<Order>, levels: seq<PriceLevel>, s: Shadow, id: u64, k: Key,
                                          j: int, quantity: u32)
    requires QueueOk(orders, levels, s, k) && id in s.index && id in s.book.orders && 0 <= s.index[id] < |orders|
    requires 0 <= j < |s.queue[k]| && s.queue[k][j] == s.index[id] && orders[s.index[id]].level == s.at[k]
    requires quantity <= orders[s.index[id]].quantity
    ensures var o, li := s.index[id], s.at[k];
            CanReduce(orders, levels, li, o, quantity) &&
            QueueOk(OrdersAfterReduce(orders, o, quantity), LevelsAfterReduce(orders, levels, li, o, quantity),
                    WithQuantity(s, id, quantity), k)
  {
    var o, li := s.index[id], s.at[k];
    hide LevelQueue, SameIds;
    ReducedQueue(orders, levels[li], li, k, s.queue[k], j, quantity);
    SameIdsFrame(orders, OrdersAfterReduce(orders, o, quantity), s.index, s.queue[k], s.book.queues[k]);
  }

  lemma {:induction false} ReducedOther(orders: seq<Order>, levels: seq<PriceLevel>, s: Shadow, id: u64, k: Key, j: int,
                                        quantity: u32, x: Key)
    requires QueuesOk(orders, levels, s) && id in s.index && id in s.book.orders && 0 <= s.index[id] < |orders|
    requires k in s.at && x in s.at && x != k && CanReduce(orders, levels, s.at[k], s.index[id], quantity)
    requires 0 <= j < |s.queue[k]| && s.queue[k][j] == s.index[id] && orders[s.index[id]].level == s.at[k]
    ensures var o, li := s.index[id], s.at[k];
            QueueOk(OrdersAfterReduce(orders, o, quantity), LevelsAfterReduce(orders, levels, li, o, quantity),
                    WithQuantity(s, id, quantity), x)
  {
    var o, li := s.index[id], s.at[k];
    var after, levels' := OrdersAfterReduce(orders, o, quantity), LevelsAfterReduce(orders, levels, li, o, quantity);
    AtInRange(orders, levels, s, x);
    QueueParts(orders, levels, s, x);
    QueuesParts(orders, levels, s);
    assert s.at[x] != s.at[k];
    WithQuantityKeys(s, id, quantity);
    ReduceKeeps(orders, levels, li, o, quantity);
    hide QueuesOk, QueueOk, LevelQueue, SameIds, EntryOk, Injective, Agree, CanReduce, OrdersAfterReduce,
         LevelsAfterReduce, WithQuantity;
    forall i | 0 <= i < |s.queue[x]|
      ensures 0 <= s.queue[x][i] < |orders| && after[s.queue[x][i]] == orders[s.queue[x][i]]
    {
      assert Holds(orders, s.queue[x][i], s.at[x], x);
    }
    QueueOkFrame(orders, after, levels, levels', s, WithQuantity(s, id, quantity), x);
  }

  // ---------- An order leaves its queue ----------

  predicate Neighbour(orders: seq<Order>, i: int, o: int) {
    i == NONE || (0 <= i < |orders| && i != o)
  }

  predicate CanUnlink(orders: seq<Order>, levels: seq<PriceLevel>, li: int, o: int) {
    InRange(levels, li) && 0 <= o < |orders| && Neighbour(orders, orders[o].prev, o) &&
    Neighbour(orders, orders[o].next, o)
  }

  /** The order array after Unlink. */
  function OrdersAfterUnlink(orders: seq<Order>, o: int): (r: seq<Order>)
    requires 0 <= o < |orders| && Neighbour(orders, orders[o].prev, o) && Neighbour(orders, orders[o].next, o)
    ensures |r| == |orders|
  {
    var p, n := orders[o].prev, orders[o].next;
    var a := if p == NONE then orders else orders[p := orders[p].(next := n)];
    if n == NONE then a else a[n := a[n].(prev := p)]
  }

  /** The level after Unlink. */
  function UnlinkedLevel(l: PriceLevel, p: int, n: int, quantity: u32): PriceLevel {
    l.(head := if p == NONE then n else l.head, tail := if n == NONE then p else l.tail,
       totalQuantity := Wrap64(l.totalQuantity - quantity), orderCount := Wrap32(l.orderCount - 1))
  }

  function LevelsAfterUnlink(orders: seq<Order>, levels: seq<PriceLevel>, li: int, o: int): seq<PriceLevel>
    requires InRange(levels, li) && 0 <= o < |orders|
  {
    levels[li := UnlinkedLevel(levels[li], orders[o].prev, orders[o].next, orders[o].quantity)]
  }

  /** The order array after the slot has also been released. */
  ghost predicate Released(orders: seq<Order>, after: seq<Order>, o: int)
    requires 0 <= o < |orders| && Neighbour(orders, orders[o].prev, o) && Neighbour(orders, orders[o].next, o)
  {
    |after| == |orders| && forall i :: 0 <= i < |orders| && i != o ==> after[i] == OrdersAfterUnlink(orders, o)[i]
  }

  function WithoutOrder(s: Shadow, k: Key, id: u64, j: int): Shadow
    requires k in s.queue && 0 <= j < |s.queue[k]| && k in s.book.queues
  {
    Shadow(s.index - {id}, s.at, s.queue[k := RemoveAt(s.queue[k], j)],
           Book(s.book.orders - {id}, s.book.queues[k := Without(s.book.queues[k], id)]))
  }

  lemma {:induction false} WithoutAt(ids: seq<u64>, j: int)
    requires 0 <= j < |ids| && forall i :: 0 <= i < j ==> ids[i] != ids[j]
    ensures Without(ids, ids[j]) == ids[..j] + ids[j + 1..]
  {
    if j > 0 {
      WithoutAt(ids[1..], j - 1);
      assert ids[..j] == [ids[0]] + ids[1..][..j - 1];
    }
  }

  lemma {:induction false} DequeuedIds(before: seq<Order>, after: seq<Order>, index: map<u64, int>, q: seq<int>,
                                       ids: seq<u64>, j: int)
    requires SameIds(before, index, q, ids) && Distinct(q) && 0 <= j < |q| && |after| == |before|
    requires forall i :: 0 <= i < |before| && i != q[j] ==> after[i].id == before[i].id
    ensures SameIds(after, index - {ids[j]}, RemoveAt(q, j), Without(ids, ids[j]))
  {
    forall i | 0 <= i < j ensures ids[i] != ids[j] {
      assert q[i] != q[j];
    }
    WithoutAt(ids, j);
    var r, t := RemoveAt(q, j), ids[..j] + ids[j + 1..];
    forall i | 0 <= i < |r|
      ensures 0 <= r[i] < |after| && after[r[i]].id == t[i] && t[i] in index - {ids[j]} &&
              (index - {ids[j]})[t[i]] == r[i]
    {
      var i' := if i < j then i else i + 1;
      assert r[i] == q[i'] && t[i] == ids[i'] && q[i'] != q[j];
    }
  }

  lemma {:induction false} UnlinkAt(orders: seq<Order>, head: int, tail: int, q: seq<int>, j: int)
    requires Queued(orders, head, tail, q) && 0 <= j < |q|
    ensures var o := q[j];
            0 <= o < |orders| && orders[o].prev == Preceding(q, j) && orders[o].next == Following(q, j) &&
            Neighbour(orders, orders[o].prev, o) && Neighbour(orders, orders[o].next, o) &&
            (j == 0 <==> orders[o].prev == NONE) && (j == |q| - 1 <==> orders[o].next == NONE)
  {
    assert j > 0 ==> 0 <= q[j - 1] < |orders| && q[j - 1] != q[j];
    assert j + 1 < |q| ==> 0 <= q[j + 1] < |orders| && q[j + 1] != q[j];
  }

  lemma {:induction false} DequeuedLinks(orders: seq<Order>, after: seq<Order>, head: int, tail: int, q: seq<int>,
                                         j: int)
    requires Queued(orders, head, tail, q) && 0 <= j < |q|
    requires 0 <= q[j] < |orders| && Neighbour(orders, orders[q[j]].prev, q[j]) &&
             Neighbour(orders, orders[q[j]].next, q[j])
    requires Released(orders, after, q[j])
    ensures var p, n := orders[q[j]].prev, orders[q[j]].next;
            Queued(after, if p == NONE then n else head, if n == NONE then p else tail, RemoveAt(q, j))
  {
    UnlinkAt(orders, head, tail, q, j);
    var o := q[j];
    var p, n := orders[o].prev, orders[o].next;
    assert j > 0 ==> p == q[j - 1];
    assert j + 1 < |q| ==> n == q[j + 1];
    forall i | 0 <= i < |q| && i != j
      ensures after[q[i]].prev == if i == j + 1 then p else orders[q[i]].prev
      ensures after[q[i]].next == if i + 1 == j then n else orders[q[i]].next
    {
      DequeuedLink(orders, after, q, j, i);
    }
    hide Preceding, Following, Distinct, Released, RemoveAt;
    UnlinkQueued(orders, after, head, tail, q, j);
  }

  lemma {:induction false} DequeuedLink(orders: seq<Order>, after: seq<Order>, q: seq<int>, j: int, i: int)
    requires Distinct(q) && 0 <= j < |q| && 0 <= i < |q| && i != j && 0 <= q[i] < |orders|
    requires 0 <= q[j] < |orders| && Neighbour(orders, orders[q[j]].prev, q[j]) &&
             Neighbour(orders, orders[q[j]].next, q[j])
    requires orders[q[j]].prev == Preceding(q, j) && orders[q[j]].next == Following(q, j)
    requires Released(orders, after, q[j])
    ensures |after| == |orders|
    ensures after[q[i]].prev == if i == j + 1 then orders[q[j]].prev else orders[q[i]].prev
    ensures after[q[i]].next == if i + 1 == j then orders[q[j]].next else orders[q[i]].next
  {
    var p, n := orders[q[j]].prev, orders[q[j]].next;
    assert q[i] != q[j];
    assert p != NONE ==> p == q[j - 1] && (i != j - 1 ==> q[i] != p);
    assert n != NONE ==> n == q[j + 1] && (i != j + 1 ==> q[i] != n);
    assert after[q[i]] == OrdersAfterUnlink(orders, q[j])[q[i]];
  }

  /** Unlinking and releasing o changes links only, of o's neighbours, and o itself. */
  lemma {:induction false} UnlinkKeeps(orders: seq<Order>, after: seq<Order>, o: int)
    requires 0 <= o < |orders| && Neighbour(orders, orders[o].prev, o) && Neighbour(orders, orders[o].next, o)
    requires Released(orders, after, o)
    ensures |after| == |orders|
    ensures forall i :: 0 <= i < |orders| && i != o ==>
      after[i] == orders[i].(prev := after[i].prev, next := after[i].next) &&
      (i != orders[o].prev && i != orders[o].next ==> after[i] == orders[i])
  {}

  lemma {:induction false} DequeuedTotals(orders: seq<Order>, after: seq<Order>, level: PriceLevel, q: seq<int>, j: int)
    requires Indices(orders, q) && Distinct(q) && 0 <= j < |q| && |after| == |orders| <= MAX_INDEX
    requires level.totalQuantity == Total(orders, q) && level.orderCount == |q|
    requires forall i :: 0 <= i < |orders| && i != q[j] ==> after[i].quantity == orders[i].quantity
    ensures Indices(after, RemoveAt(q, j)) && Distinct(RemoveAt(q, j))
    ensures forall p, n ::
      UnlinkedLevel(level, p, n, orders[q[j]].quantity).totalQuantity == Total(after, RemoveAt(q, j)) &&
      UnlinkedLevel(level, p, n, orders[q[j]].quantity).orderCount == |RemoveAt(q, j)|
  {
    TotalRemove(orders, q, j);
    DistinctRemove(q, j);
    NoOverflow(orders, q);
    RemovedAt(q, j);
    var r := RemoveAt(q, j);
    assert q[j] !in r;
    hide Total, Distinct, Wrap64, RemoveAt;
    forall i | 0 <= i < |r| ensures r[i] in r && r[i] != q[j] {}
    TotalFrame(orders, after, r);
    Wrap64Small(Total(after, r));
  }

  lemma {:induction false} DequeuedQueue(orders: seq<Order>, after: seq<Order>, level: PriceLevel, li: int, k: Key,
                                         q: seq<int>, j: int)
    requires LevelQueue(orders, level, li, k, q) && 0 <= j < |q| && |orders| <= MAX_INDEX
    requires 0 <= q[j] < |orders| && Neighbour(orders, orders[q[j]].prev, q[j]) &&
             Neighbour(orders, orders[q[j]].next, q[j])
    requires Released(orders, after, q[j])
    ensures var o := orders[q[j]]; LevelQueue(after, UnlinkedLevel(level, o.prev, o.next, o.quantity), li, k,
                                              RemoveAt(q, j))
  {
    LevelQueueParts(orders, level, li, k, q);
    UnlinkKeeps(orders, after, q[j]);
    hide LevelQueue, Released, Queued, Total, Distinct, Indices, Wrap64, Wrap32, RemoveAt, Neighbour, Holds;
    DequeuedLinks(orders, after, level.head, level.tail, q, j);
    DequeuedTotals(orders, after, level, q, j);
    DequeuedHolds(orders, after, li, k, q, j);
    var level' := UnlinkedLevel(level, orders[q[j]].prev, orders[q[j]].next, orders[q[j]].quantity);
    assert level'.price == k.price;
    assert Queued(after, level'.head, level'.tail, RemoveAt(q, j));
    assert level'.totalQuantity == Total(after, RemoveAt(q, j));
    assert level'.orderCount == |RemoveAt(q, j)|;
    hide UnlinkedLevel;
    LevelQueueFrom(after, level', li, k, RemoveAt(q, j));
  }

  lemma {:induction false} DequeuedHolds(orders: seq<Order>, after: seq<Order>, li: int, k: Key, q: seq<int>, j: int)
    requires (forall i :: 0 <= i < |q| ==> Holds(orders, q[i], li, k)) && Distinct(q) && 0 <= j < |q| &&
             |after| == |orders|
    requires forall i :: 0 <= i < |orders| && i != q[j] ==>
               after[i] == orders[i].(prev := after[i].prev, next := after[i].next)
    ensures forall i :: 0 <= i < |RemoveAt(q, j)| ==> Holds(after, RemoveAt(q, j)[i], li, k)
  {
    RemovedAt(q, j);
    hide RemoveAt;
    var r := RemoveAt(q, j);
    forall i | 0 <= i < |r| ensures Holds(after, r[i], li, k) {
      var i' := if i < j then i else i + 1;
      assert r[i] == q[i'] && q[i'] != q[j] && Holds(orders, q[i'], li, k);
    }
  }

  /** What the callers of the next lemmas know about the order that leaves. */
  ghost predicate Leaving(orders: seq<Order>, levels: seq<PriceLevel>, s: Shadow, id: u64, k: Key, j: int,
                          after: seq<Order>) {
    QueuesOk(orders, levels, s) && id in s.index && id in s.book.orders && k == s.book.orders[id].KeyOf() &&
    k in s.at && k in s.queue && k in s.book.queues && 0 <= j < |s.queue[k]| && s.queue[k][j] == s.index[id] &&
    CanUnlink(orders, levels, s.at[k], s.index[id]) && Released(orders, after, s.index[id])
  }

  lemma {:induction false} WithoutOrderAt(s: Shadow, k: Key, id: u64, j: int)
    requires k in s.at && k in s.queue && 0 <= j < |s.queue[k]| && k in s.book.queues
    ensures var s' := WithoutOrder(s, k, id, j);
            k in s'.at && k in s'.queue && k in s'.book.queues && s'.at[k] == s.at[k] && s'.index == s.index - {id} &&
            s'.queue[k] == RemoveAt(s.queue[k], j) && s'.book.queues[k] == Without(s.book.queues[k], id)
  {}

  lemma {:induction false} QueueOkFrom(orders: seq<Order>, levels: seq<PriceLevel>, s: Shadow, k: Key)
    requires k in s.at && k in s.queue && k in s.book.queues && InRange(levels, s.at[k])
    requires LevelQueue(orders, levels[s.at[k]], s.at[k], k, s.queue[k])
    requires SameIds(orders, s.index, s.queue[k], s.book.queues[k])
    ensures QueueOk(orders, levels, s, k)
  {}

  /** Another order's entry, seen without the one that left. */
  lemma {:induction false} WithoutOrderEntry(s: Shadow, k: Key, id: u64, j: int, x: u64)
    requires k in s.at && k in s.queue && 0 <= j < |s.queue[k]| && k in s.book.queues && Distinct(s.queue[k])
    requires x in s.index && x in s.book.orders && x != id && s.index[x] != s.queue[k][j]
    requires s.book.orders[x].KeyOf() in s.at && s.book.orders[x].KeyOf() in s.queue &&
             s.index[x] in s.queue[s.book.orders[x].KeyOf()]
    ensures var s', kx := WithoutOrder(s, k, id, j), s.book.orders[x].KeyOf();
            x in s'.index && x in s'.book.orders && s'.index[x] == s.index[x] &&
            s'.book.orders[x] == s.book.orders[x] &&
            kx in s'.at && kx in s'.queue && s'.at[kx] == s.at[kx] && s'.index[x] in s'.queue[kx]
  {
    DistinctRemove(s.queue[k], j);
  }

  lemma {:induction false} DequeueQueueOk(orders: seq<Order>, levels: seq<PriceLevel>, s: Shadow, id: u64, k: Key,
                                          j: int, after: seq<Order>)
    requires Leaving(orders, levels, s, id, k, j, after)
    ensures QueueOk(after, LevelsAfterUnlink(orders, levels, s.at[k], s.index[id]), WithoutOrder(s, k, id, j), k)
  {
    var o, li := s.index[id], s.at[k];
    QueueParts(orders, levels, s, k);
    UnlinkKeeps(orders, after, o);
    assert s.book.queues[k][j] == id by {
      assert EntryOk(orders, s, id);
    }
    assert |orders| <= MAX_INDEX && LevelQueue(orders, levels[li], li, k, s.queue[k]) &&
           SameIds(orders, s.index, s.queue[k], s.book.queues[k]);
    WithoutOrderAt(s, k, id, j);
    hide QueuesOk, LevelQueue, SameIds, EntryOk, Released, Distinct, UnlinkedLevel, RemoveAt, Without, Holds, QueueOk,
         WithoutOrder, Leaving;
    DequeuedQueue(orders, after, levels[li], li, k, s.queue[k], j);
    DequeuedIds(orders, after, s.index, s.queue[k], s.book.queues[k], j);
    QueueOkFrom(after, LevelsAfterUnlink(orders, levels, li, o), WithoutOrder(s, k, id, j), k);
  }

  lemma {:induction false} DequeueAgrees(s: Shadow, id: u64, k: Key, j: int, x: Key)
    requires k in s.queue && 0 <= j < |s.queue[k]| && k in s.book.queues && x in s.at && x in s.queue &&
             x in s.book.queues && x != k
    requires id !in s.book.queues[x]
    ensures Agree(s, WithoutOrder(s, k, id, j), x)
  {}

  /** The neighbours of the order that leaves, and which orders keep their slots. */
  lemma {:induction false} LeavingLinks(orders: seq<Order>, levels: seq<PriceLevel>, s: Shadow, id: u64, k: Key, j: int,
                                        after: seq<Order>)
    requires Leaving(orders, levels, s, id, k, j, after)
    ensures var o := s.index[id];
            0 <= o < |orders| && |after| == |orders| && orders[o].prev == Preceding(s.queue[k], j) &&
            orders[o].next == Following(s.queue[k], j) &&
            forall i :: 0 <= i < |orders| && i != o && i != orders[o].prev && i != orders[o].next ==>
              after[i] == orders[i]
  {
    hide EntryOk, SameIds, Injective, SameKeys, Preceding, Following, Total, Distinct, Released, OrdersAfterUnlink;
    AtInRange(orders, levels, s, k);
    UnlinkKeeps(orders, after, s.index[id]);
    UnlinkAt(orders, levels[s.at[k]].head, levels[s.at[k]].tail, s.queue[k], j);
  }

  /** An order at another price keeps its slot. */
  lemma {:induction false} OrderSpared(orders: seq<Order>, levels: seq<PriceLevel>, s: Shadow, id: u64, k: Key, j: int,
                                       after: seq<Order>, x: Key, i: int)
    requires Leaving(orders, levels, s, id, k, j, after) && x in s.at && x != k && x in s.queue &&
             0 <= i < |s.queue[x]|
    ensures var o := s.queue[x][i]; 0 <= o < |orders| == |after| && after[o] == orders[o] && o != s.index[id]
  {
    hide QueuesOk, LevelQueue, SameIds, CanUnlink, Released, Injective, SameKeys;
    LeavingLinks(orders, levels, s, id, k, j, after);
    AtInRange(orders, levels, s, x);
    QueueParts(orders, levels, s, x);
    assert Holds(orders, s.queue[x][i], s.at[x], x);
    QueuesApart(orders, levels, s, k, x, j, i);
    if j > 0 { QueuesApart(orders, levels, s, k, x, j - 1, i); }
    if j + 1 < |s.queue[k]| { QueuesApart(orders, levels, s, k, x, j + 1, i); }
  }

  /** What the frame of a queue at another price needs to know of the levels and of the book. */
  lemma {:induction false} PriceSpared(orders: seq<Order>, levels: seq<PriceLevel>, s: Shadow, id: u64, k: Key, j: int,
                                       after: seq<Order>, x: Key)
    requires Leaving(orders, levels, s, id, k, j, after) && x in s.at && x != k
    ensures 0 <= s.index[id] < |orders| && InRange(levels, s.at[k]) && QueueOk(orders, levels, s, x)
    ensures x in s.queue && x in s.book.queues && InRange(levels, s.at[x]) && id !in s.book.queues[x]
    ensures var levels' := LevelsAfterUnlink(orders, levels, s.at[k], s.index[id]);
            |levels'| == |levels| && levels'[s.at[x]] == levels[s.at[x]]
  {
    hide LevelQueue, SameIds, EntryOk, Released;
    AtInRange(orders, levels, s, k);
    AtInRange(orders, levels, s, x);
    IdsApart(orders, levels, s, id, k, j, x);
  }

  lemma {:induction false} IdsApart(orders: seq<Order>, levels: seq<PriceLevel>, s: Shadow, id: u64, k: Key, j: int,
                                    x: Key)
    requires QueuesOk(orders, levels, s) && k in s.at && x in s.at && x != k && id in s.index && k in s.queue
    requires 0 <= j < |s.queue[k]| && s.queue[k][j] == s.index[id]
    ensures x in s.book.queues && id !in s.book.queues[x]
  {
    hide LevelQueue, EntryOk, SameIds;
    AtInRange(orders, levels, s, x);
    QueueParts(orders, levels, s, x);
    forall i | 0 <= i < |s.book.queues[x]| ensures s.book.queues[x][i] != id {
      QueuesApart(orders, levels, s, k, x, j, i);
    }
  }

  lemma {:induction false} DequeueOther(orders: seq<Order>, levels: seq<PriceLevel>, s: Shadow, id: u64, k: Key, j: int,
                                        after: seq<Order>, x: Key)
    requires Leaving(orders, levels, s, id, k, j, after) && x in s.at && x != k
    ensures QueueOk(after, LevelsAfterUnlink(orders, levels, s.at[k], s.index[id]), WithoutOrder(s, k, id, j), x)
  {
    hide QueuesOk, QueueOk, CanUnlink, Released, LevelsAfterUnlink, WithoutOrder, Agree;
    PriceSpared(orders, levels, s, id, k, j, after, x);
    assert |after| == |orders| by { LeavingLinks(orders, levels, s, id, k, j, after); }
    forall i | 0 <= i < |s.queue[x]|
      ensures 0 <= s.queue[x][i] < |orders| && after[s.queue[x][i]] == orders[s.queue[x][i]]
    {
      OrderSpared(orders, levels, s, id, k, j, after, x, i);
    }
    DequeueAgrees(s, id, k, j, x);
    QueueOkFrame(orders, after, levels, LevelsAfterUnlink(orders, levels, s.at[k], s.index[id]), s,
                 WithoutOrder(s, k, id, j), x);
  }

  lemma {:induction false} DequeueEntry(orders: seq<Order>, levels: seq<PriceLevel>, s: Shadow, id: u64, k: Key, j: int,
                                        after: seq<Order>, x: u64)
    requires Leaving(orders, levels, s, id, k, j, after) && x in s.index && x != id
    ensures EntryOk(after, WithoutOrder(s, k, id, j), x)
  {
    QueueParts(orders, levels, s, k);
    UnlinkKeeps(orders, after, s.index[id]);
    assert EntryOk(orders, s, id) && EntryOk(orders, s, x);
    hide QueueOk, QueuesOk, Released, Distinct, RemoveAt, Without, Leaving;
    var i := s.index[x];
    assert i != s.index[id];
    WithoutOrderEntry(s, k, id, j, x);
    hide WithoutOrder;
    assert after[i] == orders[i].(prev := after[i].prev, next := after[i].next);
  }

  lemma {:induction false} WithoutOrderKeys(s: Shadow, k: Key, id: u64, j: int)
    requires SameKeys(s) && k in s.at && 0 <= j < |s.queue[k]|
    ensures SameKeys(WithoutOrder(s, k, id, j)) && WithoutOrder(s, k, id, j).at == s.at
    ensures forall x :: x in WithoutOrder(s, k, id, j).index ==> x in s.index && x != id
  {
    var s' := WithoutOrder(s, k, id, j);
    assert s'.queue.Keys == s.queue.Keys && s'.book.queues.Keys == s.book.queues.Keys;
    assert s'.index.Keys == s.index.Keys - {id} && s'.book.orders.Keys == s.book.orders.Keys - {id};
  }

  /** All queues and entries after an order has left queue k and its slot has been released. */
  lemma {:induction false} DequeueOk(orders: seq<Order>, levels: seq<PriceLevel>, s: Shadow, id: u64, k: Key, j: int,
                                     after: seq<Order>)
    requires Leaving(orders, levels, s, id, k, j, after)
    ensures QueuesOk(after, LevelsAfterUnlink(orders, levels, s.at[k], s.index[id]), WithoutOrder(s, k, id, j))
  {
    var levels', s' := LevelsAfterUnlink(orders, levels, s.at[k], s.index[id]), WithoutOrder(s, k, id, j);
    QueuesParts(orders, levels, s);
    WithoutOrderKeys(s, k, id, j);
    UnlinkKeeps(orders, after, s.index[id]);
    hide QueuesOk, QueueOk, EntryOk, Injective, WithoutOrder, LevelsAfterUnlink, Leaving;
    forall x | x in s'.at ensures QueueOk(after, levels', s', x) {
      if x == k {
        DequeueQueueOk(orders, levels, s, id, k, j, after);
      } else {
        DequeueOther(orders, levels, s, id, k, j, after, x);
      }
    }
    forall x | x in s'.index ensures EntryOk(after, s', x) {
      DequeueEntry(orders, levels, s, id, k, j, after, x);
    }
    QueuesFrom(after, levels', s');
  }

  // ---------- A slot that no order uses ----------

  lemma {:induction false} SpareQueue(orders: seq<Order>, after: seq<Order>, levels: seq<PriceLevel>, s: Shadow, o: int,
                                      k: Key)
    requires QueueOk(orders, levels, s, k) && |after| == |orders|
    requires forall i :: 0 <= i < |orders| && i != o ==> after[i] == orders[i]
    requires forall x :: x in s.index ==> s.index[x] != o
    ensures QueueOk(after, levels, s, k)
  {
    QueueParts(orders, levels, s, k);
    NotQueued(orders, levels, s, k, o);
    assert Agree(s, s, k);
    assert InRange(levels, s.at[k]);
    hide QueueOk, LevelQueue, SameIds, Agree, Distinct;
    forall j | 0 <= j < |s.queue[k]|
      ensures 0 <= s.queue[k][j] < |orders| && after[s.queue[k][j]] == orders[s.queue[k][j]]
    {
      assert Holds(orders, s.queue[k][j], s.at[k], k);
      assert s.queue[k][j] in s.queue[k];
    }
    QueueOkFrame(orders, after, levels, levels, s, s, k);
  }

  /** Filling or blanking an unused slot disturbs nothing. */
  lemma {:induction false} SpareSlotOk(orders: seq<Order>, after: seq<Order>, levels: seq<PriceLevel>, s: Shadow,
                                       o: int)
    requires QueuesOk(orders, levels, s) && |after| == |orders|
    requires forall i :: 0 <= i < |orders| && i != o ==> after[i] == orders[i]
    requires forall x :: x in s.index ==> s.index[x] != o
    ensures QueuesOk(after, levels, s)
  {
    QueuesParts(orders, levels, s);
    hide QueuesOk, QueueOk, Injective;
    forall k | k in s.at ensures QueueOk(after, levels, s, k) {
      SpareQueue(orders, after, levels, s, o, k);
    }
    forall id | id in s.index ensures EntryOk(after, s, id) {
      assert EntryOk(orders, s, id);
    }
    hide EntryOk;
    QueuesFrom(after, levels, s);
  }

  // ---------- The abstract book after each step ----------

  lemma {:induction false} JoinedBook(s: Shadow, k: Key, id: u64, e: Entry, o: int)
    requires SameKeys(s) && k in s.at && e.KeyOf() == k
    ensures WithOrder(s, k, id, e, o).book == Enqueued(s.book, id, e)
  {}

  lemma {:induction false} JoinedNewBook(s: Shadow, k: Key, n: int, id: u64, e: Entry, o: int)
    requires SameKeys(s) && k !in s.at && e.KeyOf() == k
    ensures WithOrder(WithLevel(s, k, n), k, id, e, o).book == Enqueued(s.book, id, e)
  {
    var b := WithOrder(WithLevel(s, k, n), k, id, e, o).book;
    assert b.queues == s.book.queues[k := [] + [id]];
  }

  /** The book once an order has left, and its price with it if that is now empty. */
  lemma {:induction false} LeftBook(s: Shadow, k: Key, id: u64, j: int)
    requires SameKeys(s) && k in s.at && id in s.book.orders && s.book.orders[id].KeyOf() == k && 0 <= j < |s.queue[k]|
    ensures var s' := WithoutOrder(s, k, id, j);
            s'.book.queues[k] != [] ==> s'.book == Removed(s.book, id)
    ensures var s' := WithoutOrder(s, k, id, j);
            s'.book.queues[k] == [] ==> WithoutLevel(s', k).book == Removed(s.book, id)
  {
    var s' := WithoutOrder(s, k, id, j);
    assert s'.book.queues - {k} == s.book.queues - {k};
  }

  lemma {:induction false} ShadowCounts(s: Shadow)
    requires SameKeys(s)
    ensures |s.index| == |s.book.orders| && |s.at| == |s.book.queues|
  {
    assert |s.index| == |s.index.Keys| && |s.book.orders| == |s.book.orders.Keys|;
    assert |s.at| == |s.at.Keys| && |s.book.queues| == |s.book.queues.Keys|;
  }
}
