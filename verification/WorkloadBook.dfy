/** Replaying the generated mixed workload: nothing is rejected, and exactly the replaced orders remain. */
module WorkloadBook {
  import opened Types
  import opened Messages
  import opened Encoding
  import opened Framing
  import opened Writers
  import opened BookSpec
  import opened Processing
  import opened Feeds
  import Pools
  import Priority

  /** The levels a workload can use: 101 prices on each side. */
  const GRID: nat := 202

  function Rank(k: Key): int {
    if k.side == Buy then (1_850_000 - k.price) / 100 else 101 + (k.price - 1_850_100) / 100
  }

  predicate OnGrid(k: Key) {
    if k.side == Buy then 1_840_000 <= k.price <= 1_850_000 && k.price % 100 == 0
    else 1_850_100 <= k.price <= 1_860_100 && k.price % 100 == 0
  }

  lemma {:induction false} RankOf(k: Key, j: Key)
    requires OnGrid(k) && OnGrid(j)
    ensures 0 <= Rank(k) < GRID && (Rank(k) == Rank(j) ==> k == j)
  {}

  lemma {:induction false} GridSize(keys: set<Key>)
    requires forall k :: k in keys ==> OnGrid(k)
    ensures |keys| <= GRID
  {
    var ranks := set k | k in keys :: Rank(k);
    RanksCount(keys);
    forall i | i in ranks ensures 0 <= i < GRID {
      var k :| k in keys && Rank(k) == i;
      RankOf(k, k);
    }
    Pools.BoundedSetCardinality(ranks, GRID);
  }

  lemma {:induction false} RanksCount(keys: set<Key>)
    requires forall k :: k in keys ==> OnGrid(k)
    ensures |set k | k in keys :: Rank(k)| == |keys|
  {
    hide Rank, OnGrid;
    if keys != {} {
      var k :| k in keys;
      var rest := keys - {k};
      RanksCount(rest);
      var ranks := set j | j in rest :: Rank(j);
      assert Rank(k) !in ranks by {
        forall j | j in rest ensures Rank(j) != Rank(k) { RankOf(j, k); }
      }
      assert (set j | j in keys :: Rank(j)) == ranks + {Rank(k)};
    } else {
      assert (set k | k in keys :: Rank(k)) == {};
    }
  }

  /** The book before order id is added: one order of 50 shares for every fourth id so far. */
  function Resting(id: nat): Book
    requires 1 <= id <= REPLACED
  {
    if id == 1 then EMPTY
    else if (id - 1) % 4 == 3 then
      Enqueued(Resting(id - 1), id - 1 + REPLACED, Entry(SideOf(id - 1), MovedPrice(id - 1), 50))
    else Resting(id - 1)
  }

  ghost predicate AllOnGrid(b: Book) { forall k :: k in b.queues ==> OnGrid(k) }

  ghost predicate IdsBetween(b: Book, id: nat) { forall x :: x in b.orders ==> REPLACED < x < REPLACED + id }

  lemma {:induction false} PricesOnGrid(id: nat)
    ensures OnGrid(Key(SideOf(id), PriceOf(id))) && OnGrid(Key(SideOf(id), MovedPrice(id))) &&
            MovedPrice(id) != PriceOf(id)
  {}

  lemma {:induction false} RestingFacts(id: nat)
    requires 1 <= id <= REPLACED
    ensures Coherent(Resting(id)) && AllOnGrid(Resting(id)) && IdsBetween(Resting(id), id) &&
            |Resting(id).orders| == id / 4
  {
    hide Coherent, OnGrid, SideOf, MovedPrice, Enqueued, AllOnGrid, IdsBetween;
    if id == 1 {
      EmptyCoherent();
    } else {
      RestingFacts(id - 1);
      var b, e := Resting(id - 1), Entry(SideOf(id - 1), MovedPrice(id - 1), 50);
      if (id - 1) % 4 == 3 {
        PricesOnGrid(id - 1);
        NextResting(b, id, e);
      } else {
        IdsWiden(b, id);
      }
    }
  }

  lemma {:induction false} IdsWiden(b: Book, id: nat)
    requires id > 1 && IdsBetween(b, id - 1)
    ensures IdsBetween(b, id)
  {}

  lemma {:induction false} NextResting(b: Book, id: nat, e: Entry)
    requires 1 < id <= REPLACED && Coherent(b) && AllOnGrid(b) && IdsBetween(b, id - 1) && OnGrid(e.KeyOf()) &&
             e.quantity > 0
    ensures var b' := Enqueued(b, id - 1 + REPLACED, e);
            Coherent(b') && AllOnGrid(b') && IdsBetween(b', id) && |b'.orders| == |b.orders| + 1
  {
    hide Coherent, OnGrid;
    assert id - 1 + REPLACED !in b.orders;
    EnqueuedCoherent(b, id - 1 + REPLACED, e);
    EnqueuedCounts(b, id - 1 + REPLACED, e);
  }

  lemma {:induction false} EmptyCoherent()
    ensures Coherent(EMPTY) && AllOnGrid(EMPTY) && IdsBetween(EMPTY, 1)
  {}

  /** There is a free level for every price of the grid that is not in use. */
  lemma {:induction false} LevelLeft(b: Book, k: Key)
    requires AllOnGrid(b) && OnGrid(k) && k !in b.queues
    ensures |b.queues| < GRID
  {
    hide OnGrid;
    GridSize(b.queues.Keys + {k});
    assert |b.queues.Keys + {k}| == |b.queues.Keys| + 1;
  }

  lemma {:induction false} PaddedView()
    ensures StockView(Padded(AAPL, 8)) == AAPL
  {
    var four := [SPACE, SPACE, SPACE, SPACE];
    assert Padded(AAPL, 8) == AAPL + four[..3] + [SPACE] && four[..3] == four[..2] + [SPACE] &&
           four[..2] == [SPACE] + [SPACE];
    assert AAPL + four[..3] == AAPL + [SPACE] + [SPACE] + [SPACE];
    Trimmed(AAPL + [SPACE] + [SPACE] + [SPACE]);
    Trimmed(AAPL + [SPACE] + [SPACE]);
    Trimmed(AAPL + [SPACE]);
    Trimmed(AAPL);
    assert AAPL[3] != SPACE;
  }

  lemma {:induction false} Trimmed(s: seq<u8>)
    ensures StockView(s + [SPACE]) == StockView(s)
  {
    assert (s + [SPACE])[..|s|] == s;
  }

  predicate Takes(symbol: seq<u8>) { symbol == [] || symbol == AAPL }

  /** The book with order id added. */
  function Opened(id: nat): Book
    requires 1 <= id <= REPLACED
  {
    Enqueued(Resting(id), id, Entry(SideOf(id), PriceOf(id), QuantityOf(id)))
  }

  lemma {:induction false} OpeningAccepted(id: nat, timestamp: u64, lim: Limits, symbol: seq<u8>)
    requires 1 <= id <= REPLACED && id / 4 < lim.maxOrders && GRID <= lim.maxLevels && Takes(symbol)
    ensures Interpret(Resting(id), lim, symbol, Opening(id, timestamp)) == Outcome(Ok, Opened(id))
    ensures id !in Resting(id).orders
  {
    hide Coherent, OnGrid, SideOf, PriceOf, Padded, StockView, Enqueued, Resting;
    RestingFacts(id);
    PaddedView();
    PricesOnGrid(id);
    var k := Key(SideOf(id), PriceOf(id));
    if k !in Resting(id).queues { LevelLeft(Resting(id), k); }
  }

  /** Taking the order just added away again restores the book before. */
  lemma {:induction false} ClosingUndoes(id: nat)
    requires 1 <= id <= REPLACED
    ensures id in Opened(id).orders && Opened(id).orders[id] == Entry(SideOf(id), PriceOf(id), QuantityOf(id))
    ensures Removed(Opened(id), id) == Resting(id)
  {
    RestingFacts(id);
    FreshId(Resting(id), id, Key(SideOf(id), PriceOf(id)));
    hide Coherent, OnGrid, SideOf, PriceOf, QuantityOf, Resting, Removed;
    Priority.EnqueuedUndone(Resting(id), id, Entry(SideOf(id), PriceOf(id), QuantityOf(id)));
  }

  lemma {:induction false} FreshId(b: Book, id: nat, k: Key)
    requires Coherent(b) && IdsBetween(b, id) && id <= REPLACED
    ensures id !in b.orders && id !in QueueAt(b, k) && (k in b.queues ==> b.queues[k] != [])
  {}

  lemma {:induction false} ReplaceAccepted(id: nat, lim: Limits)
    requires 1 <= id < REPLACED && id % 4 == 3 && GRID <= lim.maxLevels
    ensures Replace(Opened(id), lim, id, id + REPLACED, 50, MovedPrice(id)) == Outcome(Ok, Resting(id + 1))
  {
    ClosingUndoes(id);
    OpenedFacts(id);
    PricesOnGrid(id);
    hide Coherent, OnGrid, SideOf, PriceOf, QuantityOf, MovedPrice, Removed, Opened, Enqueued;
    var k := Key(SideOf(id), MovedPrice(id));
    if k !in Opened(id).queues { LevelLeft(Opened(id), k); }
  }

  lemma {:induction false} OpenedFacts(id: nat)
    requires 1 <= id < REPLACED
    ensures AllOnGrid(Opened(id)) && id + REPLACED !in Opened(id).orders
  {
    hide Coherent, OnGrid, SideOf, PriceOf, QuantityOf, Resting;
    RestingFacts(id);
    PricesOnGrid(id);
  }

  lemma {:induction false} ClosingAccepted(id: nat, timestamp: u64, lim: Limits, symbol: seq<u8>)
    requires 1 <= id < REPLACED && GRID <= lim.maxLevels
    ensures Interpret(Opened(id), lim, symbol, Closing(id, timestamp)) == Outcome(Ok, Resting(id + 1))
  {
    hide Opened, Removed, SideOf, PriceOf, MovedPrice, Enqueued, Replace;
    ClosingUndoes(id);
    if id % 4 == 3 {
      ReplaceAccepted(id, lim);
    }
  }

  /** What is left of a workload of `count` messages. */
  function Final(count: nat): Book
    requires count / 2 < REPLACED
  {
    if count % 2 == 0 then Resting(count / 2 + 1) else Opened(count / 2 + 1)
  }

  lemma {:induction false} ReplayTurns(count: u64, emitted: nat, id: nat, lim: Limits, symbol: seq<u8>)
    requires count / 2 < REPLACED && emitted <= count && emitted == 2 * (id - 1) && id >= 1
    requires (count / 2 + 1) / 4 < lim.maxOrders && GRID <= lim.maxLevels && Takes(symbol)
    ensures ReplayAll(Desk(Resting(id), Stats(emitted, 0, 0)), lim, symbol, Workload(count, Mixed, emitted, id)) ==
              Desk(Final(count), Stats(count, 0, 0))
    decreases count - emitted
  {
    hide Interpret, Opening, Closing, Resting, Opened, Takes, Step, ReplayAll;
    ReplayNone(Desk(Resting(id), Stats(emitted, 0, 0)), lim, symbol);
    if emitted < count {
      var d := Desk(Resting(id), Stats(emitted, 0, 0));
      var open := Opening(id, emitted + 1);
      OpeningAccepted(id, emitted + 1, lim, symbol);
      StepAccepted(Resting(id), Opened(id), emitted, lim, symbol, open);
      if emitted + 1 == count {
        ReplayOne(d, lim, symbol, open);
        assert Workload(count, Mixed, count, id + 1) == [] && [open] + [] == [open];
      } else {
        var close := Closing(id, emitted + 2);
        ClosingAccepted(id, emitted + 2, lim, symbol);
        StepAccepted(Opened(id), Resting(id + 1), emitted + 1, lim, symbol, close);
        ReplayTurns(count, emitted + 2, id + 1, lim, symbol);
        ReplayTwo(d, lim, symbol, open, close, Workload(count, Mixed, emitted + 2, id + 1));
      }
    }
  }

  lemma {:induction false} StepAccepted(b: Book, b': Book, n: nat, lim: Limits, symbol: seq<u8>, m: Message)
    requires Interpret(b, lim, symbol, m) == Outcome(Ok, b') && n + 1 < U64_MODULUS
    ensures Step(Desk(b, Stats(n, 0, 0)), lim, symbol, m) == Desk(b', Stats(n + 1, 0, 0))
  {
    hide Interpret;
  }

  lemma {:induction false} ReplayNone(d: Desk, lim: Limits, symbol: seq<u8>)
    ensures ReplayAll(d, lim, symbol, []) == d
  {}

  lemma {:induction false} ReplayOne(d: Desk, lim: Limits, symbol: seq<u8>, m: Message)
    ensures ReplayAll(d, lim, symbol, [m]) == Step(d, lim, symbol, m)
  {
    assert [m][1..] == [];
  }

  lemma {:induction false} ReplayTwo(d: Desk, lim: Limits, symbol: seq<u8>, a: Message, b: Message, rest: seq<Message>)
    ensures ReplayAll(d, lim, symbol, [a, b] + rest) ==
              ReplayAll(Step(Step(d, lim, symbol, a), lim, symbol, b), lim, symbol, rest)
  {
    hide Step;
    assert ([a, b] + rest)[1..] == [b] + rest && ([b] + rest)[1..] == rest;
  }

  /**
   Decoding the generated file, however it is cut into reads, and processing what comes out: every message is
   decoded and accepted, and (n / 2 + 1) / 4 + n % 2 orders remain.
   */
  lemma {:induction false} GeneratedReplay(count: u64, chunks: seq<seq<u8>>, lim: Limits, symbol: seq<u8>)
    requires count / 2 < REPLACED && (count / 2 + 1) / 4 < lim.maxOrders && GRID <= lim.maxLevels && Takes(symbol)
    requires Flatten(chunks) == WorkloadFile(count, Mixed)
    ensures var decoded := FeedChunks(Partial([], NO_COUNTS), chunks);
            var desk := ReplayAll(Desk(EMPTY, NO_STATS), lim, symbol, decoded.messages);
            decoded.ok && decoded.state.buf == [] && decoded.state.stats == DecoderStats(count, 0, 0) &&
            desk.stats == Stats(count, 0, 0) && |desk.book.orders| == (count / 2 + 1) / 4 + count % 2
  {
    hide ReplayAll, FeedChunks, Resting, Workload, FileOf, Flatten, Interpret, Takes, Enqueued, Encodable;
    WorkloadEncodable(count, Mixed, 0, 1);
    FeedRoundTrip(Workload(count, Mixed, 0, 1), chunks);
    WorkloadLength(count, 0, 1);
    EmptyStart();
    ReplayTurns(count, 0, 1, lim, symbol);
    FinalCount(count);
  }

  lemma {:induction false} EmptyStart()
    ensures Resting(1) == EMPTY
  {}

  lemma {:induction false} WorkloadLength(count: u64, emitted: nat, id: nat)
    requires emitted <= count && 1 <= id <= emitted + 1
    ensures |Workload(count, Mixed, emitted, id)| == count - emitted
    decreases count - emitted
  {
    hide Opening, Closing;
    if emitted + 1 == count {
      WorkloadLength(count, emitted + 1, id + 1);
    } else if emitted < count {
      WorkloadLength(count, emitted + 2, id + 1);
    }
  }

  lemma {:induction false} FinalCount(count: nat)
    requires count / 2 < REPLACED
    ensures |Final(count).orders| == (count / 2 + 1) / 4 + count % 2
  {
    hide Enqueued, Resting, SideOf, PriceOf, QuantityOf, Coherent;
    var id := count / 2 + 1;
    RestingFacts(id);
    EnqueuedCounts(Resting(id), id, Entry(SideOf(id), PriceOf(id), QuantityOf(id)));
  }
}
