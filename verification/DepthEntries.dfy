/** Depth queries and best quotes said of the resting orders alone: no queue, no tree and no order of walking. */
module DepthEntries {
  import opened Types
  import opened BookSpec
  import opened BookLaws
  import opened Depth

  ghost function AtPrice(b: Book, side: Side, p: u32): set<u64> {
    set id | id in b.orders && b.orders[id].side == side && b.orders[id].price == p
  }

  /** Bids are better the higher, asks the lower they are. */
  predicate Beats(side: Side, p: u32, q: u32) {
    match side
    case Buy => p > q
    case Sell => p < q
  }

  /** The entry gives the shares and the number of the orders that rest at its price, of which there are some. */
  ghost predicate Describes(b: Book, side: Side, d: Quote) {
    var ids := AtPrice(b, side, d.price); ids != {} && d.quantity == Sum(b.orders, ids) && d.orders == |ids|
  }

  /** Every order of the side is at a listed price, or there is no room and all that is listed is better. */
  ghost predicate Complete(b: Book, side: Side, room: nat, out: seq<Quote>) {
    forall id :: id in b.orders && b.orders[id].side == side ==>
      (exists i :: 0 <= i < |out| && out[i].price == b.orders[id].price) ||
      (|out| == room && forall i :: 0 <= i < |out| ==> Beats(side, out[i].price, b.orders[id].price))
  }

  ghost predicate ShowsDepth(b: Book, side: Side, room: nat, out: seq<Quote>) {
    |out| <= room && (forall i :: 0 <= i < |out| ==> Describes(b, side, out[i])) &&
    (forall i, j :: 0 <= i < j < |out| ==> Beats(side, out[i].price, out[j].price)) && Complete(b, side, room, out)
  }

  lemma {:induction false} IdsCount(q: seq<u64>)
    requires NoRepeats(q)
    ensures |Ids(q)| == |q|
  {
    if q != [] {
      assert q == [q[0]] + q[1..];
      assert q[0] !in q[1..];
      assert Ids(q) == Ids(q[1..]) + {q[0]};
      IdsCount(q[1..]);
    }
  }

  lemma {:induction false} QueueHolds(b: Book, side: Side, p: u32)
    requires Coherent(b)
    ensures var k := Key(side, p);
            (k in b.queues <==> AtPrice(b, side, p) != {}) &&
            (k in b.queues ==> AtPrice(b, side, p) == Ids(b.queues[k]))
  {
    var k := Key(side, p);
    if k in b.queues {
      forall id ensures id in AtPrice(b, side, p) <==> id in Ids(b.queues[k]) {
        if id in b.orders && b.orders[id].side == side && b.orders[id].price == p {
          assert b.orders[id].KeyOf() == k;
        }
      }
      assert b.queues[k][0] in Ids(b.queues[k]);
    } else {
      forall id ensures id !in AtPrice(b, side, p) {
        assert id in b.orders ==> b.orders[id].KeyOf() in b.queues;
      }
    }
  }

  lemma {:induction false} EntryExactly(b: Book, side: Side, d: Quote)
    requires Coherent(b)
    ensures Quotes(b, side, d) <==> Describes(b, side, d)
  {
    var k := Key(side, d.price);
    QueueHolds(b, side, d.price);
    if k in b.queues {
      SharesSum(b.orders, b.queues[k]);
      IdsCount(b.queues[k]);
    }
    hide AtPrice, Sum, Shares, Ids;
  }

  lemma {:induction false} SameOrder(side: Side, p: u32, q: u32)
    ensures Better(side, p, q) <==> Beats(side, p, q)
  {}

  /** The depth answer of a coherent book, said of its orders; both ways. */
  lemma {:induction false} DepthExactly(b: Book, side: Side, room: nat, out: seq<Quote>)
    requires Coherent(b)
    ensures DepthOf(b, side, room, out) <==> ShowsDepth(b, side, room, out)
  {
    hide Quotes, Describes, Coherent, Better, Beats;
    forall d ensures Quotes(b, side, d) <==> Describes(b, side, d) { EntryExactly(b, side, d); }
    forall p: u32, q: u32 ensures Better(side, p, q) <==> Beats(side, p, q) { SameOrder(side, p, q); }
    if DepthOf(b, side, room, out) { ListedComplete(b, side, room, out); }
    if ShowsDepth(b, side, room, out) { CompleteListed(b, side, room, out); }
  }

  lemma {:induction false} ListedComplete(b: Book, side: Side, room: nat, out: seq<Quote>)
    requires Coherent(b) && DepthOf(b, side, room, out)
    ensures Complete(b, side, room, out)
  {
    hide Quotes;
    forall id | id in b.orders && b.orders[id].side == side
      ensures (exists i :: 0 <= i < |out| && out[i].price == b.orders[id].price) ||
              (|out| == room && forall i :: 0 <= i < |out| ==> Beats(side, out[i].price, b.orders[id].price))
    {
      assert b.orders[id].KeyOf() in b.queues;
      assert Lists(out, b.orders[id].price) || |out| == room;
    }
  }

  lemma {:induction false} CompleteListed(b: Book, side: Side, room: nat, out: seq<Quote>)
    requires Coherent(b) && Complete(b, side, room, out)
    ensures forall p: u32 :: Key(side, p) in b.queues && !Lists(out, p) ==>
              |out| == room && forall i :: 0 <= i < |out| ==> Better(side, out[i].price, p)
  {
    forall p: u32 | Key(side, p) in b.queues && !Lists(out, p)
      ensures |out| == room && forall i :: 0 <= i < |out| ==> Better(side, out[i].price, p)
    {
      var id := b.queues[Key(side, p)][0];
      assert id in b.queues[Key(side, p)];
      assert b.orders[id].side == side && b.orders[id].price == p;
    }
  }

  /** The best quote of a side: nothing without orders, and otherwise what rests at the best price. */
  lemma {:induction false} BestExactly(b: Book, side: Side, q: Quote)
    requires Coherent(b)
    ensures Tops(b, side, q) <==>
            if OnSide(b, side) == {} then q == Quote(0, 0, 0)
            else
              Describes(b, side, q) &&
              forall id :: id in OnSide(b, side) ==>
                b.orders[id].price == q.price || Beats(side, q.price, b.orders[id].price)
  {
    hide Coherent, Sum, DepthOf, Beats;
    DepthExactly(b, side, 1, []);
    DepthExactly(b, side, 1, [q]);
    hide ShowsDepth;
    NoneShown(b, side);
    OneShown(b, side, q);
  }

  lemma {:induction false} NoneShown(b: Book, side: Side)
    ensures ShowsDepth(b, side, 1, []) <==> OnSide(b, side) == {}
  {
    assert forall id :: id in b.orders && b.orders[id].side == side <==> id in OnSide(b, side);
    if OnSide(b, side) != {} {
      var id :| id in OnSide(b, side);
      assert id in b.orders && b.orders[id].side == side;
    }
  }

  lemma {:induction false} OneShown(b: Book, side: Side, q: Quote)
    ensures Describes(b, side, q) ==> q.orders != 0 && OnSide(b, side) != {}
    ensures ShowsDepth(b, side, 1, [q]) <==>
            Describes(b, side, q) &&
            forall id :: id in OnSide(b, side) ==>
              b.orders[id].price == q.price || Beats(side, q.price, b.orders[id].price)
  {
    hide Sum, Beats;
    if Describes(b, side, q) {
      var id :| id in AtPrice(b, side, q.price);
      assert id in OnSide(b, side);
    }
    assert [q][0] == q;
  }
}
