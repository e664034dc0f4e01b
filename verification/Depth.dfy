/** Market depth as a user of the book sees it: the best prices of one side with their aggregates. */
module Depth {
  import opened Types
  import opened BookSpec

  predicate Better(side: Side, p: u32, q: u32) { if side == Buy then p > q else p < q }

  /** The shares of the given orders. */
  function Shares(orders: map<u64, Entry>, ids: seq<u64>): nat {
    if ids == [] then 0 else (if ids[0] in orders then orders[ids[0]].quantity else 0) + Shares(orders, ids[1..])
  }

  /** An entry states a price of the book, the exact sum of its shares and the exact number of its orders. */
  predicate Quotes(b: Book, side: Side, d: Quote) {
    var k := Key(side, d.price);
    k in b.queues && d.quantity == Shares(b.orders, b.queues[k]) && d.orders == |b.queues[k]|
  }

  predicate Lists(out: seq<Quote>, p: u32) { exists i :: 0 <= i < |out| && out[i].price == p }

  /** `out` answers a depth query for at most `room` entries: the best prices, best first, and all if there is room. */
  ghost predicate DepthOf(b: Book, side: Side, room: nat, out: seq<Quote>) {
    |out| <= room &&
    (forall i :: 0 <= i < |out| ==> Quotes(b, side, out[i])) &&
    (forall i, j :: 0 <= i < j < |out| ==> Better(side, out[i].price, out[j].price)) &&
    (forall p: u32 :: Key(side, p) in b.queues && !Lists(out, p) ==>
       |out| == room && forall i :: 0 <= i < |out| ==> Better(side, out[i].price, p))
  }

  /** The answer to a depth query is determined by the book. */
  lemma {:induction false} DepthUnique(b: Book, side: Side, room: nat, x: seq<Quote>, y: seq<Quote>)
    requires DepthOf(b, side, room, x) && DepthOf(b, side, room, y)
    ensures x == y
  {
    var n := Min(|x|, |y|);
    SamePrefix(b, side, room, x, y, n);
    if |x| < |y| {
      NoMore(b, side, room, x, y);
    } else if |y| < |x| {
      NoMore(b, side, room, y, x);
    }
  }

  lemma {:induction false} SamePrefix(b: Book, side: Side, room: nat, x: seq<Quote>, y: seq<Quote>, n: nat)
    requires DepthOf(b, side, room, x) && DepthOf(b, side, room, y) && n <= |x| && n <= |y|
    ensures x[..n] == y[..n]
  {
    if n > 0 {
      SamePrefix(b, side, room, x, y, n - 1);
      NotBefore(b, side, room, x, y, n - 1);
      NotBefore(b, side, room, y, x, n - 1);
      assert x[n - 1] == y[n - 1];
      assert x[..n] == x[..n - 1] + [x[n - 1]] && y[..n] == y[..n - 1] + [y[n - 1]];
    }
  }

  /** Entry n of one answer cannot be better than entry n of another that agrees before. */
  lemma {:induction false} NotBefore(b: Book, side: Side, room: nat, x: seq<Quote>, y: seq<Quote>, n: nat)
    requires DepthOf(b, side, room, x) && DepthOf(b, side, room, y) && n < |x| && n < |y| && x[..n] == y[..n]
    ensures !Better(side, x[n].price, y[n].price)
  {
    assert Quotes(b, side, x[n]);
    forall i | 0 <= i < n ensures y[i] == x[i] {
      assert y[..n][i] == x[..n][i];
    }
    if Lists(y, x[n].price) {
      var i :| 0 <= i < |y| && y[i].price == x[n].price;
      assert i >= n;
      assert i > n ==> Better(side, y[n].price, y[i].price);
    } else {
      assert Better(side, y[n].price, x[n].price);
    }
  }

  lemma {:induction false} NoMore(b: Book, side: Side, room: nat, x: seq<Quote>, y: seq<Quote>)
    requires DepthOf(b, side, room, x) && DepthOf(b, side, room, y) && |x| <= |y| && x == y[..|x|]
    ensures |y| == |x|
  {
    if |x| < |y| {
      var p := y[|x|].price;
      assert Quotes(b, side, y[|x|]);
      forall i | 0 <= i < |x| ensures x[i].price != p {
        assert Better(side, y[i].price, p);
      }
      assert false;
    }
  }

  /** A shorter query returns a prefix of a longer one; in particular its first entry is the best quote. */
  lemma {:induction false} DepthPrefix(b: Book, side: Side, room: nat, more: nat, x: seq<Quote>, y: seq<Quote>)
    requires room <= more && DepthOf(b, side, room, x) && DepthOf(b, side, more, y)
    ensures x == y[..Min(room, |y|)]
  {
    var n := Min(room, |y|);
    var z := y[..n];
    forall p: u32 | Key(side, p) in b.queues && !Lists(z, p)
      ensures |z| == room && forall i :: 0 <= i < |z| ==> Better(side, z[i].price, p)
    {
      if Lists(y, p) {
        forall i | 0 <= i < n ensures y[i].price != p {
          assert z[i].price != p;
        }
        var j :| 0 <= j < |y| && y[j].price == p;
      }
    }
    DepthUnique(b, side, room, x, z);
  }

  const NO_QUOTE: Quote := Quote(0, 0, 0)

  /** q is the best price of one side; a quote without orders says that the side is empty. */
  ghost predicate Tops(b: Book, side: Side, q: Quote) {
    (q.orders == 0 ==> q == NO_QUOTE) && DepthOf(b, side, 1, if q.orders == 0 then [] else [q])
  }

  /** The best quote is the first entry of every depth query. */
  lemma {:induction false} BestIsFirst(b: Book, side: Side, q: Quote, room: nat, out: seq<Quote>)
    requires Tops(b, side, q) && DepthOf(b, side, room, out) && room > 0
    ensures if q.orders == 0 then out == [] else out != [] && out[0] == q
  {
    var top := if q.orders == 0 then [] else [q];
    DepthPrefix(b, side, 1, room, top, out);
  }
}
