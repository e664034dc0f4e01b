/** The intrusive doubly linked FIFO of one price level, and its aggregates. */
module Fifo {
  import opened Types
  import opened Pools

  /** What precedes position k of an intrusive list. */
  function Preceding(q: seq<int>, k: int): int
    requires 0 <= k < |q|
  {
    if k > 0 then q[k - 1] else NONE
  }

  /** The order slots q are linked, in this order, between head and tail. */
  ghost predicate Queued(orders: seq<Order>, head: int, tail: int, q: seq<int>) {
    Distinct(q) &&
    head == (if q == [] then NONE else q[0]) && tail == (if q == [] then NONE else q[|q| - 1]) &&
    forall k :: 0 <= k < |q| ==>
      0 <= q[k] < |orders| && orders[q[k]].prev == Preceding(q, k) && orders[q[k]].next == Following(q, k)
  }

  predicate Indices(orders: seq<Order>, q: seq<int>) {
    forall k :: 0 <= k < |q| ==> 0 <= q[k] < |orders|
  }

  /** The shares resting in a queue. */
  function Total(orders: seq<Order>, q: seq<int>): nat
    requires Indices(orders, q)
  {
    if q == [] then 0 else orders[q[0]].quantity + Total(orders, q[1..])
  }

  lemma {:induction false} TotalConcat(orders: seq<Order>, a: seq<int>, b: seq<int>)
    requires Indices(orders, a) && Indices(orders, b)
    ensures Indices(orders, a + b) && Total(orders, a + b) == Total(orders, a) + Total(orders, b)
  {
    if a == [] {
      assert a + b == b;
    } else {
      TotalConcat(orders, a[1..], b);
      assert (a + b)[1..] == a[1..] + b;
    }
  }

  lemma {:induction false} TotalFrame(before: seq<Order>, after: seq<Order>, q: seq<int>)
    requires Indices(before, q) && Indices(after, q)
    requires forall k :: 0 <= k < |q| ==> after[q[k]].quantity == before[q[k]].quantity
    ensures Total(after, q) == Total(before, q)
  {
    if q != [] {
      TotalFrame(before, after, q[1..]);
    }
  }

  lemma {:induction false} TotalBound(orders: seq<Order>, q: seq<int>)
    requires Indices(orders, q)
    ensures Total(orders, q) <= |q| * 0xffff_ffff
  {
    if q != [] {
      TotalBound(orders, q[1..]);
    }
  }

  /** No 64-bit total and no 32-bit count of a queue can overflow. */
  lemma {:induction false} NoOverflow(orders: seq<Order>, q: seq<int>)
    requires Distinct(q) && Indices(orders, q) && |orders| <= MAX_INDEX
    ensures Total(orders, q) < U64_MODULUS && |q| < 0x1_0000_0000
  {
    DistinctLength(q, |orders|);
    TotalBound(orders, q);
  }

  // ---------- Append and unlink ----------

  lemma {:induction false} DistinctSnoc(q: seq<int>, o: int)
    requires Distinct(q) && o !in q
    ensures Distinct(q + [o])
  {}

  /** Linking slot o in at the tail. */
  lemma {:induction false} AppendQueued(before: seq<Order>, after: seq<Order>, head: int, tail: int, q: seq<int>,
                                        o: int)
    requires Queued(before, head, tail, q) && o !in q && 0 <= o < |before| && |after| == |before|
    requires after[o].prev == tail && after[o].next == NONE
    requires forall k :: 0 <= k < |q| ==> after[q[k]].prev == before[q[k]].prev
    requires forall k :: 0 <= k < |q| ==> after[q[k]].next == if q[k] == tail then o else before[q[k]].next
    ensures Queued(after, if q == [] then o else head, o, q + [o])
  {
    DistinctSnoc(q, o);
    var r := q + [o];
    forall k | 0 <= k < |r|
      ensures 0 <= r[k] < |after| && after[r[k]].prev == Preceding(r, k) && after[r[k]].next == Following(r, k)
    {
      if k < |q| {
        assert r[k] == q[k] && Preceding(r, k) == Preceding(q, k);
        assert k + 1 < |q| ==> Following(r, k) == q[k + 1] && q[k] != q[|q| - 1];
      }
    }
  }

  function RemoveAt(q: seq<int>, k: int): seq<int>
    requires 0 <= k < |q|
  {
    q[..k] + q[k + 1..]
  }

  lemma {:induction false} DistinctRemove(q: seq<int>, k: int)
    requires Distinct(q) && 0 <= k < |q|
    ensures Distinct(RemoveAt(q, k)) && q[k] !in RemoveAt(q, k)
    ensures forall i :: i in RemoveAt(q, k) <==> i in q && i != q[k]
  {
    var r := RemoveAt(q, k);
    forall a | 0 <= a < |r| ensures r[a] == q[if a < k then a else a + 1] {}
    forall i | i in q && i != q[k] ensures i in r {
      var a :| 0 <= a < |q| && q[a] == i;
      assert r[if a < k then a else a - 1] == i;
    }
  }

  lemma {:induction false} TotalRemove(orders: seq<Order>, q: seq<int>, k: int)
    requires Indices(orders, q) && 0 <= k < |q|
    ensures Indices(orders, RemoveAt(q, k)) && Total(orders, q) == Total(orders, RemoveAt(q, k)) + orders[q[k]].quantity
  {
    assert q == q[..k] + ([q[k]] + q[k + 1..]);
    TotalConcat(orders, q[..k], [q[k]] + q[k + 1..]);
    TotalConcat(orders, [q[k]], q[k + 1..]);
    TotalConcat(orders, q[..k], q[k + 1..]);
    assert [q[k]][1..] == [];
  }

  /** Unlinking slot q[k]: its neighbours are joined, all others keep their links. */
  lemma {:induction false} UnlinkQueued(before: seq<Order>, after: seq<Order>, head: int, tail: int, q: seq<int>,
                                        k: int)
    requires Queued(before, head, tail, q) && 0 <= k < |q| && |after| == |before|
    requires forall j :: 0 <= j < |q| && j != k ==>
               after[q[j]].prev == if j == k + 1 then before[q[k]].prev else before[q[j]].prev
    requires forall j :: 0 <= j < |q| && j != k ==>
               after[q[j]].next == if j + 1 == k then before[q[k]].next else before[q[j]].next
    ensures Queued(after, if k == 0 then before[q[k]].next else head, if k == |q| - 1 then before[q[k]].prev else tail,
                   RemoveAt(q, k))
  {
    var r := RemoveAt(q, k);
    DistinctRemove(q, k);
    RemovedAt(q, k);
    QueuedParts(before, head, tail, q);
    hide Queued, Distinct, RemoveAt, Preceding, Following;
    forall j | 0 <= j < |r|
      ensures 0 <= r[j] < |after| && after[r[j]].prev == Preceding(r, j) && after[r[j]].next == Following(r, j)
    {
      UnlinkedAt(before, after, q, k, r, j);
    }
    var head' := if k == 0 then before[q[k]].next else head;
    var tail' := if k == |q| - 1 then before[q[k]].prev else tail;
    EndsAfter(q, k, r);
    QueuedFrom(after, head', tail', r);
  }

  lemma {:induction false} EndsAfter(q: seq<int>, k: int, r: seq<int>)
    requires 0 <= k < |q| && |r| == |q| - 1
    requires forall i :: 0 <= i < |r| ==> r[i] == q[if i < k then i else i + 1]
    ensures (if r == [] then NONE else r[0]) == if k == 0 then Following(q, 0) else q[0]
    ensures (if r == [] then NONE else r[|r| - 1]) == if k == |q| - 1 then Preceding(q, k) else q[|q| - 1]
  {}

  lemma {:induction false} QueuedParts(orders: seq<Order>, head: int, tail: int, q: seq<int>)
    requires Queued(orders, head, tail, q) && q != []
    ensures head == q[0] && tail == q[|q| - 1]
    ensures forall i :: 0 <= i < |q| ==>
      0 <= q[i] < |orders| && orders[q[i]].prev == Preceding(q, i) && orders[q[i]].next == Following(q, i)
  {}

  lemma {:induction false} QueuedFrom(orders: seq<Order>, head: int, tail: int, q: seq<int>)
    requires Distinct(q) && head == (if q == [] then NONE else q[0]) && tail == (if q == [] then NONE else q[|q| - 1])
    requires forall i :: 0 <= i < |q| ==>
      0 <= q[i] < |orders| && orders[q[i]].prev == Preceding(q, i) && orders[q[i]].next == Following(q, i)
    ensures Queued(orders, head, tail, q)
  {}

  lemma {:induction false} UnlinkedAt(before: seq<Order>, after: seq<Order>, q: seq<int>, k: int, r: seq<int>, j: int)
    requires 0 <= k < |q| && |after| == |before| && |r| == |q| - 1 && 0 <= j < |r|
    requires forall i :: 0 <= i < |r| ==> r[i] == q[if i < k then i else i + 1]
    requires forall i :: 0 <= i < |q| ==>
               0 <= q[i] < |before| && before[q[i]].prev == Preceding(q, i) && before[q[i]].next == Following(q, i)
    requires forall j :: 0 <= j < |q| && j != k ==>
               after[q[j]].prev == if j == k + 1 then before[q[k]].prev else before[q[j]].prev
    requires forall j :: 0 <= j < |q| && j != k ==>
               after[q[j]].next == if j + 1 == k then before[q[k]].next else before[q[j]].next
    ensures 0 <= r[j] < |after| && after[r[j]].prev == Preceding(r, j) && after[r[j]].next == Following(r, j)
  {
    var i := if j < k then j else j + 1;
    assert r[j] == q[i];
    if j > 0 {
      assert r[j - 1] == q[if j - 1 < k then j - 1 else j];
    }
    if j + 1 < |r| {
      assert r[j + 1] == q[if j + 1 < k then j + 1 else j + 2];
    }
  }

  lemma {:induction false} RemovedAt(q: seq<int>, k: int)
    requires 0 <= k < |q|
    ensures |RemoveAt(q, k)| == |q| - 1
    ensures forall j :: 0 <= j < |q| - 1 ==> RemoveAt(q, k)[j] == q[if j < k then j else j + 1]
  {}

  /** A queue does not see changes to other slots. */
  lemma {:induction false} QueuedFrame(before: seq<Order>, after: seq<Order>, head: int, tail: int, q: seq<int>)
    requires Queued(before, head, tail, q) && |after| == |before|
    requires forall k :: 0 <= k < |q| ==> after[q[k]].prev == before[q[k]].prev && after[q[k]].next == before[q[k]].next
    ensures Queued(after, head, tail, q)
  {}
}
