/**
 The order book as its users see it: a map of resting orders, and for every side and price a queue of
 order ids in arrival order. `OrderBooks.OrderBook` implements these operations.
 */
module BookSpec {
  import opened Types

  datatype Key = Key(side: Side, price: u32)

  datatype Entry = Entry(side: Side, price: u32, quantity: u32) {
    function KeyOf(): Key { Key(side, price) }
  }

  datatype Book = Book(orders: map<u64, Entry>, queues: map<Key, seq<u64>>)

  datatype Limits = Limits(maxOrders: nat, maxLevels: nat)

  datatype Outcome = Outcome(error: BookError, book: Book)

  const EMPTY: Book := Book(map[], map[])

  function QueueAt(b: Book, k: Key): seq<u64> { if k in b.queues then b.queues[k] else [] }

  /** The queue without its first occurrence of id; the others keep their order. */
  function Without(q: seq<u64>, id: u64): seq<u64> {
    if q == [] then [] else if q[0] == id then q[1..] else [q[0]] + Without(q[1..], id)
  }

  /** A new order joins its price at the back. */
  function Enqueued(b: Book, id: u64, e: Entry): Book {
    Book(b.orders[id := e], b.queues[e.KeyOf() := QueueAt(b, e.KeyOf()) + [id]])
  }

  /** An order leaves its price, which disappears with its last order. */
  function Removed(b: Book, id: u64): Book
    requires id in b.orders
  {
    var k := b.orders[id].KeyOf();
    var rest := Without(QueueAt(b, k), id);
    Book(b.orders - {id}, if rest == [] then b.queues - {k} else b.queues[k := rest])
  }

  function Add(b: Book, lim: Limits, id: u64, side: Side, q: u32, p: u32): Outcome {
    if q == 0 then Outcome(InvalidQuantity, b)
    else if id in b.orders then Outcome(DuplicateOrder, b)
    else if |b.orders| >= lim.maxOrders then Outcome(OrderPoolExhausted, b)
    else if Key(side, p) !in b.queues && |b.queues| >= lim.maxLevels then Outcome(LevelPoolExhausted, b)
    else Outcome(Ok, Enqueued(b, id, Entry(side, p, q)))
  }

  /** Executing and cancelling both take q shares off an order. */
  function Execute(b: Book, id: u64, q: u32): Outcome {
    if id !in b.orders then Outcome(UnknownOrder, b)
    else if q == 0 || q > b.orders[id].quantity then Outcome(InvalidQuantity, b)
    else if q == b.orders[id].quantity then Outcome(Ok, Removed(b, id))
    else Outcome(Ok, b.(orders := b.orders[id := b.orders[id].(quantity := b.orders[id].quantity - q)]))
  }

  function Erase(b: Book, id: u64): Outcome {
    if id !in b.orders then Outcome(UnknownOrder, b) else Outcome(Ok, Removed(b, id))
  }

  /** The source refuses a new price when no level is free, before looking at what erasing would free. */
  function Replace(b: Book, lim: Limits, old_: u64, new_: u64, q: u32, p: u32): Outcome {
    if old_ !in b.orders then Outcome(UnknownOrder, b)
    else if q == 0 then Outcome(InvalidQuantity, b)
    else if new_ != old_ && new_ in b.orders then Outcome(DuplicateOrder, b)
    else
      var e := b.orders[old_];
      if p != e.price && Key(e.side, p) !in b.queues && |b.queues| >= lim.maxLevels then Outcome(LevelPoolExhausted, b)
      else Outcome(Ok, Enqueued(Removed(b, old_), new_, Entry(e.side, p, q)))
  }

  datatype Command =
    | AddCmd(id: u64, side: Side, quantity: u32, price: u32)
    | ExecuteCmd(id: u64, quantity: u32)
    | CancelCmd(id: u64, quantity: u32)
    | EraseCmd(id: u64)
    | ReplaceCmd(id: u64, newId: u64, quantity: u32, price: u32)

  function Apply(b: Book, lim: Limits, c: Command): Outcome {
    match c
    case AddCmd(id, side, q, p) => Add(b, lim, id, side, q, p)
    case ExecuteCmd(id, q) => Execute(b, id, q)
    case CancelCmd(id, q) => Execute(b, id, q)
    case EraseCmd(id) => Erase(b, id)
    case ReplaceCmd(id, newId, q, p) => Replace(b, lim, id, newId, q, p)
  }

  /** A whole run: the error codes, one per command, and the final book. */
  function Run(b: Book, lim: Limits, cmds: seq<Command>): (seq<BookError>, Book)
    decreases |cmds|
  {
    if cmds == [] then ([], b)
    else
      var first := Apply(b, lim, cmds[0]);
      var (errors, last) := Run(first.book, lim, cmds[1..]);
      ([first.error] + errors, last)
  }

  lemma {:induction false} RunSnoc(b: Book, lim: Limits, cmds: seq<Command>, c: Command)
    ensures var (errors, last) := Run(b, lim, cmds);
            Run(b, lim, cmds + [c]) == (errors + [Apply(last, lim, c).error], Apply(last, lim, c).book)
    decreases |cmds|
  {
    hide Apply;
    if cmds == [] {
      assert cmds + [c] == [c] && [c][1..] == [];
      var out := Apply(b, lim, c);
      assert Run(out.book, lim, []) == ([], out.book) && Run(b, lim, [c]) == ([out.error] + [], out.book);
      assert Run(b, lim, cmds) == ([], b) && [] + [out.error] == [out.error] + [];
    } else {
      var first := Apply(b, lim, cmds[0]);
      var (errors, last) := Run(first.book, lim, cmds[1..]);
      assert (cmds + [c])[1..] == cmds[1..] + [c] && (cmds + [c])[0] == cmds[0];
      RunSnoc(first.book, lim, cmds[1..], c);
      assert [first.error] + (errors + [Apply(last, lim, c).error]) ==
               ([first.error] + errors) + [Apply(last, lim, c).error];
    }
  }

  // ---------- Coherence: the invariant of every run ----------

  ghost predicate NoRepeats(q: seq<u64>) {
    forall i, j :: 0 <= i < j < |q| ==> q[i] != q[j]
  }

  /** Orders and queues tell the same story, and no queue is empty. */
  ghost predicate Coherent(b: Book) {
    (forall id :: id in b.orders ==>
       b.orders[id].quantity > 0 && b.orders[id].KeyOf() in b.queues && id in b.queues[b.orders[id].KeyOf()]) &&
    (forall k :: k in b.queues ==> b.queues[k] != [] && NoRepeats(b.queues[k])) &&
    (forall k, id :: k in b.queues && id in b.queues[k] ==> id in b.orders && b.orders[id].KeyOf() == k)
  }

  ghost predicate Fits(b: Book, lim: Limits) { |b.orders| <= lim.maxOrders && |b.queues| <= lim.maxLevels }

  lemma {:induction false} WithoutMembers(q: seq<u64>, id: u64)
    requires NoRepeats(q)
    ensures NoRepeats(Without(q, id))
    ensures forall x :: x in Without(q, id) <==> x in q && x != id
  {
    if q != [] && q[0] != id {
      assert q == [q[0]] + q[1..];
      WithoutMembers(q[1..], id);
      var r := Without(q[1..], id);
      forall i, j | 0 <= i < j < |[q[0]] + r| ensures ([q[0]] + r)[i] != ([q[0]] + r)[j] {
        assert r[j - 1] in r;
      }
    } else if q != [] {
      assert q == [q[0]] + q[1..];
      forall x | x in q && x != id ensures x in q[1..] {}
    }
  }

  lemma {:induction false} EnqueuedCoherent(b: Book, id: u64, e: Entry)
    requires Coherent(b) && id !in b.orders && e.quantity > 0
    ensures Coherent(Enqueued(b, id, e))
  {
    var k, b' := e.KeyOf(), Enqueued(b, id, e);
    var q := QueueAt(b, k);
    assert id !in q;
    assert NoRepeats(q + [id]);
    forall x | x in b'.orders
      ensures b'.orders[x].quantity > 0 && b'.orders[x].KeyOf() in b'.queues && x in b'.queues[b'.orders[x].KeyOf()]
    {
      if x == id {
        assert (q + [id])[|q|] == id;
      }
    }
  }

  lemma {:induction false} RemovedCoherent(b: Book, id: u64)
    requires Coherent(b) && id in b.orders
    ensures Coherent(Removed(b, id)) && id !in Removed(b, id).orders
  {
    var k := b.orders[id].KeyOf();
    WithoutMembers(b.queues[k], id);
  }

  lemma {:induction false} EnqueuedCounts(b: Book, id: u64, e: Entry)
    ensures |Enqueued(b, id, e).orders| == |b.orders| + if id in b.orders then 0 else 1
    ensures |Enqueued(b, id, e).queues| == |b.queues| + if e.KeyOf() in b.queues then 0 else 1
  {
    MapPut(b.orders, id, e);
    MapPut(b.queues, e.KeyOf(), QueueAt(b, e.KeyOf()) + [id]);
  }

  lemma {:induction false} RemovedCounts(b: Book, id: u64)
    requires Coherent(b) && id in b.orders
    ensures |Removed(b, id).orders| == |b.orders| - 1
    ensures |Removed(b, id).queues| == |b.queues| - if Without(QueueAt(b, b.orders[id].KeyOf()), id) == [] then 1 else 0
  {
    var k := b.orders[id].KeyOf();
    MapTake(b.orders, id);
    MapTake(b.queues, k);
    MapPut(b.queues, k, Without(QueueAt(b, k), id));
  }

  lemma {:induction false} MapPut<K, V>(m: map<K, V>, k: K, v: V)
    ensures |m[k := v]| == |m| + if k in m then 0 else 1
  {
    assert m[k := v].Keys == m.Keys + {k};
  }

  lemma {:induction false} MapTake<K, V>(m: map<K, V>, k: K)
    requires k in m
    ensures |m - {k}| == |m| - 1
  {
    assert (m - {k}).Keys == m.Keys - {k};
  }

  lemma {:induction false} ReduceCoherent(b: Book, id: u64, q: u32)
    requires Coherent(b) && id in b.orders && q < b.orders[id].quantity
    ensures Coherent(b.(orders := b.orders[id := b.orders[id].(quantity := b.orders[id].quantity - q)]))
    ensures |b.orders[id := b.orders[id].(quantity := b.orders[id].quantity - q)]| == |b.orders|
  {
    MapPut(b.orders, id, b.orders[id].(quantity := b.orders[id].quantity - q));
  }

  /** Every command keeps the book coherent and within its capacity, and a refused command changes nothing. */
  lemma {:induction false} ApplyKeeps(b: Book, lim: Limits, c: Command)
    requires Coherent(b) && Fits(b, lim)
    ensures Coherent(Apply(b, lim, c).book) && Fits(Apply(b, lim, c).book, lim)
    ensures Apply(b, lim, c).error != Ok ==> Apply(b, lim, c).book == b
  {
    hide Coherent, Enqueued, Removed;
    if Apply(b, lim, c).error == Ok {
      match c
      case AddCmd(id, side, q, p) =>
        EnqueuedCoherent(b, id, Entry(side, p, q));
        EnqueuedCounts(b, id, Entry(side, p, q));
      case ExecuteCmd(id, q) => ExecuteKeeps(b, lim, id, q);
      case CancelCmd(id, q) => ExecuteKeeps(b, lim, id, q);
      case EraseCmd(id) =>
        RemovedCoherent(b, id);
        RemovedCounts(b, id);
      case ReplaceCmd(id, newId, q, p) =>
        ReplaceKeeps(b, lim, id, newId, q, p);
    }
  }

  lemma {:induction false} ExecuteKeeps(b: Book, lim: Limits, id: u64, q: u32)
    requires Coherent(b) && Fits(b, lim) && Execute(b, id, q).error == Ok
    ensures Coherent(Execute(b, id, q).book) && Fits(Execute(b, id, q).book, lim)
  {
    hide Coherent, Removed;
    if q == b.orders[id].quantity {
      RemovedCoherent(b, id);
      RemovedCounts(b, id);
    } else {
      ReduceCoherent(b, id, q);
    }
  }

  /** After erasing the old order there is always room for its replacement. */
  lemma {:induction false} ReplaceKeeps(b: Book, lim: Limits, old_: u64, new_: u64, q: u32, p: u32)
    requires Coherent(b) && Fits(b, lim) && Replace(b, lim, old_, new_, q, p).error == Ok
    ensures Coherent(Replace(b, lim, old_, new_, q, p).book) && Fits(Replace(b, lim, old_, new_, q, p).book, lim)
    ensures Add(Removed(b, old_), lim, new_, b.orders[old_].side, q, p) == Replace(b, lim, old_, new_, q, p)
  {
    var e, r := b.orders[old_], Removed(b, old_);
    var e' := Entry(e.side, p, q);
    RemovedCoherent(b, old_);
    RemovedCounts(b, old_);
    RemovedQueues(b, old_, e'.KeyOf());
    assert new_ !in r.orders;
    hide Coherent, Removed, Enqueued;
    EnqueuedCoherent(r, new_, e');
    EnqueuedCounts(r, new_, e');
  }

  lemma {:induction false} RemovedQueues(b: Book, id: u64, k: Key)
    requires Coherent(b) && id in b.orders
    ensures k in Removed(b, id).queues <==>
      k in b.queues && (k == b.orders[id].KeyOf() ==> Without(QueueAt(b, k), id) != [])
  {}
}
