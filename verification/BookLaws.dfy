/** Laws of whole runs of the abstract book: conservation of shares, time priority, and what replace refuses. */
module BookLaws {
  import opened Types
  import opened BookSpec
  import opened Depth

  // ---------- Sums over orders ----------

  /** The shares of a set of orders. */
  ghost function Sum(orders: map<u64, Entry>, ids: set<u64>): nat
    decreases ids
  {
    if ids == {} then 0
    else
      var id :| id in ids;
      (if id in orders then orders[id].quantity else 0) + Sum(orders, ids - {id})
  }

  /** A sum may be taken in any order. */
  lemma {:induction false} SumTake(orders: map<u64, Entry>, ids: set<u64>, id: u64)
    requires id in ids
    ensures Sum(orders, ids) == (if id in orders then orders[id].quantity else 0) + Sum(orders, ids - {id})
    decreases ids
  {
    var x :| x in ids && Sum(orders, ids) == (if x in orders then orders[x].quantity else 0) + Sum(orders, ids - {x});
    if x != id {
      SumTake(orders, ids - {x}, id);
      SumTake(orders, ids - {id}, x);
      assert ids - {x} - {id} == ids - {id} - {x};
    }
  }

  lemma {:induction false} SumSame(a: map<u64, Entry>, b: map<u64, Entry>, ids: set<u64>)
    requires forall id :: id in ids ==> (id in a <==> id in b) && (id in a ==> a[id].quantity == b[id].quantity)
    ensures Sum(a, ids) == Sum(b, ids)
    decreases ids
  {
    if ids != {} {
      var id :| id in ids;
      SumTake(a, ids, id);
      SumTake(b, ids, id);
      SumSame(a, b, ids - {id});
    }
  }

  lemma {:induction false} SumUnion(orders: map<u64, Entry>, a: set<u64>, b: set<u64>)
    requires a !! b
    ensures Sum(orders, a + b) == Sum(orders, a) + Sum(orders, b)
    decreases a
  {
    if a == {} {
      assert a + b == b;
    } else {
      var id :| id in a;
      SumTake(orders, a, id);
      SumTake(orders, a + b, id);
      assert (a + b) - {id} == (a - {id}) + b;
      SumUnion(orders, a - {id}, b);
    }
  }

  // ---------- Conservation ----------

  ghost function OnSide(b: Book, side: Side): set<u64> { set id | id in b.orders && b.orders[id].side == side }

  /** All shares resting on one side. */
  ghost function Resting(b: Book, side: Side): nat { Sum(b.orders, OnSide(b, side)) }

  /** Shares that a command brings to one side, executes or cancels there, and takes off it whole. */
  datatype Flow = Flow(added: nat, reduced: nat, withdrawn: nat)

  function Plus(f: Flow, g: Flow): Flow { Flow(f.added + g.added, f.reduced + g.reduced, f.withdrawn + g.withdrawn) }

  const STILL: Flow := Flow(0, 0, 0)

  function Moved(b: Book, lim: Limits, c: Command, side: Side): Flow {
    if Apply(b, lim, c).error != Ok then STILL
    else
      match c
      case AddCmd(_, s, q, _) => if s == side then Flow(q, 0, 0) else STILL
      case ExecuteCmd(id, q) => if b.orders[id].side == side then Flow(0, q, 0) else STILL
      case CancelCmd(id, q) => if b.orders[id].side == side then Flow(0, q, 0) else STILL
      case EraseCmd(id) => if b.orders[id].side == side then Flow(0, 0, b.orders[id].quantity) else STILL
      case ReplaceCmd(id, _, q, _) => if b.orders[id].side == side then Flow(q, 0, b.orders[id].quantity) else STILL
  }

  function MovedAll(b: Book, lim: Limits, cmds: seq<Command>, side: Side): Flow
    decreases |cmds|
  {
    if cmds == [] then STILL
    else Plus(Moved(b, lim, cmds[0], side), MovedAll(Apply(b, lim, cmds[0]).book, lim, cmds[1..], side))
  }

  lemma {:induction false} RestingEnqueued(b: Book, id: u64, e: Entry, side: Side)
    requires id !in b.orders
    ensures Resting(Enqueued(b, id, e), side) == Resting(b, side) + if e.side == side then e.quantity else 0
  {
    var b' := Enqueued(b, id, e);
    if e.side == side {
      assert OnSide(b', side) - {id} == OnSide(b, side);
      SumTake(b'.orders, OnSide(b', side), id);
    } else {
      assert OnSide(b', side) == OnSide(b, side);
    }
    SumSame(b.orders, b'.orders, OnSide(b, side));
  }

  lemma {:induction false} RestingRemoved(b: Book, id: u64, side: Side)
    requires id in b.orders
    ensures Resting(Removed(b, id), side) ==
            Resting(b, side) - if b.orders[id].side == side then b.orders[id].quantity else 0
  {
    var b' := Removed(b, id);
    if b.orders[id].side == side {
      assert OnSide(b, side) - {id} == OnSide(b', side);
      SumTake(b.orders, OnSide(b, side), id);
    } else {
      assert OnSide(b', side) == OnSide(b, side);
    }
    SumSame(b.orders, b'.orders, OnSide(b', side));
  }

  lemma {:induction false} RestingReduced(b: Book, id: u64, q: u32, side: Side)
    requires id in b.orders && q < b.orders[id].quantity
    ensures Resting(b.(orders := b.orders[id := b.orders[id].(quantity := b.orders[id].quantity - q)]), side) ==
            Resting(b, side) - if b.orders[id].side == side then q else 0
  {
    var b' := b.(orders := b.orders[id := b.orders[id].(quantity := b.orders[id].quantity - q)]);
    var ids := OnSide(b, side);
    assert OnSide(b', side) == ids;
    if id in ids {
      SumTake(b.orders, ids, id);
      SumTake(b'.orders, ids, id);
    }
    SumSame(b.orders, b'.orders, ids - {id});
    assert id !in ids ==> ids - {id} == ids;
  }

  lemma {:induction false} ExecuteMoves(b: Book, id: u64, q: u32, side: Side)
    requires Execute(b, id, q).error == Ok
    ensures Resting(Execute(b, id, q).book, side) == Resting(b, side) - if b.orders[id].side == side then q else 0
  {
    hide Resting, Removed;
    if q == b.orders[id].quantity {
      RestingRemoved(b, id, side);
    } else {
      RestingReduced(b, id, q, side);
    }
  }

  lemma {:induction false} ApplyMoves(b: Book, lim: Limits, c: Command, side: Side)
    ensures var f := Moved(b, lim, c, side);
            Resting(Apply(b, lim, c).book, side) + f.reduced + f.withdrawn == Resting(b, side) + f.added
  {
    hide Resting, Removed, Enqueued;
    if Apply(b, lim, c).error == Ok {
      match c
      case AddCmd(id, s, q, p) => RestingEnqueued(b, id, Entry(s, p, q), side);
      case ExecuteCmd(id, q) => ExecuteMoves(b, id, q, side);
      case CancelCmd(id, q) => ExecuteMoves(b, id, q, side);
      case EraseCmd(id) => RestingRemoved(b, id, side);
      case ReplaceCmd(id, newId, q, p) =>
        RestingRemoved(b, id, side);
        RemovedOrders(b, id);
        RestingEnqueued(Removed(b, id), newId, Entry(b.orders[id].side, p, q), side);
    } else {
      RefusedSame(b, lim, c);
    }
  }

  lemma {:induction false} RemovedOrders(b: Book, id: u64)
    requires id in b.orders
    ensures Removed(b, id).orders == b.orders - {id}
  {}

  lemma {:induction false} RefusedSame(b: Book, lim: Limits, c: Command)
    ensures Apply(b, lim, c).error != Ok ==> Apply(b, lim, c).book == b
  {
    hide Removed, Enqueued;
  }

  /**
   Over every run, the shares that rest on a side are those that rested there, plus what was added,
   minus what was executed, cancelled, erased and replaced away.
   */
  lemma {:induction false} Conservation(b: Book, lim: Limits, cmds: seq<Command>, side: Side)
    ensures var f := MovedAll(b, lim, cmds, side);
            Resting(Run(b, lim, cmds).1, side) + f.reduced + f.withdrawn == Resting(b, side) + f.added
    decreases |cmds|
  {
    hide Resting, Apply, Moved;
    if cmds != [] {
      ApplyMoves(b, lim, cmds[0], side);
      Conservation(Apply(b, lim, cmds[0]).book, lim, cmds[1..], side);
    }
  }

  /** Every run keeps the book coherent and within its capacities and answers every command. */
  lemma {:induction false} RunKeeps(b: Book, lim: Limits, cmds: seq<Command>)
    requires Coherent(b) && Fits(b, lim)
    ensures var (errors, last) := Run(b, lim, cmds);
            Coherent(last) && Fits(last, lim) && |errors| == |cmds| &&
            forall i :: 0 <= i < |errors| ==> errors[i] != LookupFull && errors[i] != WrongSymbol
    decreases |cmds|
  {
    hide Coherent, Fits, Removed, Enqueued;
    if cmds != [] {
      ApplyKeeps(b, lim, cmds[0]);
      RunKeeps(Apply(b, lim, cmds[0]).book, lim, cmds[1..]);
    }
  }

  // ---------- Depth and conservation ----------

  /** The ids of a sequence of queues, as a set. */
  ghost function Ids(q: seq<u64>): set<u64> { set id | id in q }

  lemma {:induction false} SharesSum(orders: map<u64, Entry>, q: seq<u64>)
    requires NoRepeats(q)
    ensures Shares(orders, q) == Sum(orders, Ids(q))
  {
    if q != [] {
      assert q == [q[0]] + q[1..];
      assert q[0] !in q[1..];
      assert Ids(q) - {q[0]} == Ids(q[1..]);
      SharesSum(orders, q[1..]);
      SumTake(orders, Ids(q), q[0]);
    }
  }

  function TotalOf(out: seq<Quote>): nat {
    if out == [] then 0 else TotalOf(out[..|out| - 1]) + out[|out| - 1].quantity
  }

  /** The orders of one side whose prices are listed. */
  ghost function Listed(b: Book, side: Side, out: seq<Quote>): set<u64> {
    set id | id in b.orders && b.orders[id].side == side && Lists(out, b.orders[id].price)
  }

  lemma {:induction false} ListedTotal(b: Book, side: Side, out: seq<Quote>)
    requires Coherent(b) && (forall i :: 0 <= i < |out| ==> Quotes(b, side, out[i]))
    requires forall i, j :: 0 <= i < j < |out| ==> Better(side, out[i].price, out[j].price)
    ensures TotalOf(out) == Sum(b.orders, Listed(b, side, out))
  {
    hide Sum, Shares;
    if out == [] {
      assert Listed(b, side, out) == {};
      NoShares(b.orders);
    } else {
      var rest, d := out[..|out| - 1], out[|out| - 1];
      var q := b.queues[Key(side, d.price)];
      assert Quotes(b, side, d);
      ListedTotal(b, side, rest);
      SharesSum(b.orders, q);
      ListedSnoc(b, side, rest, d);
      assert out == rest + [d];
      SumUnion(b.orders, Listed(b, side, rest), Ids(q));
    }
  }

  lemma {:induction false} NoShares(orders: map<u64, Entry>)
    ensures Sum(orders, {}) == 0
  {}

  lemma {:induction false} ListedSnoc(b: Book, side: Side, rest: seq<Quote>, d: Quote)
    requires Coherent(b) && Key(side, d.price) in b.queues && !Lists(rest, d.price)
    ensures Listed(b, side, rest + [d]) == Listed(b, side, rest) + Ids(b.queues[Key(side, d.price)])
    ensures Listed(b, side, rest) !! Ids(b.queues[Key(side, d.price)])
  {
    var k := Key(side, d.price);
    forall id | id in b.orders
      ensures Lists(rest + [d], b.orders[id].price) <==>
                Lists(rest, b.orders[id].price) || b.orders[id].price == d.price
    {
      if Lists(rest, b.orders[id].price) {
        var i :| 0 <= i < |rest| && rest[i].price == b.orders[id].price;
        assert (rest + [d])[i] == rest[i];
      }
      assert (rest + [d])[|rest|] == d;
    }
    forall id | id in b.queues[k] ensures id in b.orders && b.orders[id].KeyOf() == k {}
  }

  /** A depth query with room to spare accounts for every share resting on its side. */
  lemma {:induction false} DepthTotals(b: Book, side: Side, room: nat, out: seq<Quote>)
    requires Coherent(b) && DepthOf(b, side, room, out) && |out| < room
    ensures TotalOf(out) == Resting(b, side)
  {
    ListedTotal(b, side, out);
    forall id | id in b.orders && b.orders[id].side == side ensures Lists(out, b.orders[id].price) {
      assert b.orders[id].KeyOf() in b.queues;
    }
    assert Listed(b, side, out) == OnSide(b, side);
  }
}
