/** Time priority over runs, what one command undoes, and exactly when replace is erase-then-add. */
module Priority {
  import opened Types
  import opened BookSpec

  /** Order x is queued before order y at price k. */
  ghost predicate Ahead(b: Book, k: Key, x: u64, y: u64) {
    k in b.queues && exists i, j :: 0 <= i < j < |b.queues[k]| && b.queues[k][i] == x && b.queues[k][j] == y
  }

  lemma {:induction false} AheadWithout(q: seq<u64>, id: u64, i: int, j: int) returns (i': int, j': int)
    requires 0 <= i < j < |q| && q[i] != id && q[j] != id
    ensures 0 <= i' < j' < |Without(q, id)| && Without(q, id)[i'] == q[i] && Without(q, id)[j'] == q[j]
  {
    if q[0] == id {
      i', j' := i - 1, j - 1;
    } else if i == 0 {
      var k := FoundWithout(q[1..], id, j - 1);
      i', j' := 0, k + 1;
    } else {
      i', j' := AheadWithout(q[1..], id, i - 1, j - 1);
      i', j' := i' + 1, j' + 1;
    }
  }

  lemma {:induction false} FoundWithout(q: seq<u64>, id: u64, j: int) returns (j': int)
    requires 0 <= j < |q| && q[j] != id
    ensures 0 <= j' < |Without(q, id)| && Without(q, id)[j'] == q[j]
  {
    if q[0] == id {
      j' := j - 1;
    } else if j == 0 {
      j' := 0;
    } else {
      j' := FoundWithout(q[1..], id, j - 1);
      j' := j' + 1;
    }
  }

  lemma {:induction false} RemovedAhead(b: Book, id: u64, k: Key, x: u64, y: u64)
    requires id in b.orders && Ahead(b, k, x, y) && x != id && y != id
    ensures Ahead(Removed(b, id), k, x, y)
  {
    hide Without;
    var i, j :| 0 <= i < j < |b.queues[k]| && b.queues[k][i] == x && b.queues[k][j] == y;
    if k == b.orders[id].KeyOf() {
      var i', j' := AheadWithout(b.queues[k], id, i, j);
      var q := Without(b.queues[k], id);
      assert q[i'] == x && q[j'] == y;
    }
  }

  lemma {:induction false} EnqueuedAhead(b: Book, id: u64, e: Entry, k: Key, x: u64, y: u64)
    requires Ahead(b, k, x, y)
    ensures Ahead(Enqueued(b, id, e), k, x, y)
  {
    var i, j :| 0 <= i < j < |b.queues[k]| && b.queues[k][i] == x && b.queues[k][j] == y;
    var q := Enqueued(b, id, e).queues[k];
    assert q[i] == x && q[j] == y;
  }

  /** A command that takes the order with the given id out of its place in the queue. */
  predicate Displaces(c: Command, id: u64) {
    match c
    case AddCmd(_, _, _, _) => false
    case ExecuteCmd(_, _) => false
    case CancelCmd(_, _) => false
    case EraseCmd(x) => x == id
    case ReplaceCmd(x, _, _, _) => x == id
  }

  lemma {:induction false} StepPriority(b: Book, lim: Limits, c: Command, k: Key, x: u64, y: u64)
    requires Ahead(b, k, x, y) && !Displaces(c, x) && !Displaces(c, y)
    requires x in Apply(b, lim, c).book.orders && y in Apply(b, lim, c).book.orders
    ensures Ahead(Apply(b, lim, c).book, k, x, y)
  {
    hide Ahead, Without, Enqueued, Coherent;
    match c
    case AddCmd(id, side, q, p) =>
      if Apply(b, lim, c).error == Ok { EnqueuedAhead(b, id, Entry(side, p, q), k, x, y); }
    case ExecuteCmd(id, q) => ReducePriority(b, id, q, k, x, y);
    case CancelCmd(id, q) => ReducePriority(b, id, q, k, x, y);
    case EraseCmd(id) =>
      if Apply(b, lim, c).error == Ok { RemovedAhead(b, id, k, x, y); }
    case ReplaceCmd(id, newId, q, p) =>
      if Apply(b, lim, c).error == Ok {
        RemovedAhead(b, id, k, x, y);
        EnqueuedAhead(Removed(b, id), newId, Entry(b.orders[id].side, p, q), k, x, y);
      }
  }

  lemma {:induction false} ReducePriority(b: Book, id: u64, q: u32, k: Key, x: u64, y: u64)
    requires Ahead(b, k, x, y) && x in Execute(b, id, q).book.orders && y in Execute(b, id, q).book.orders
    ensures Ahead(Execute(b, id, q).book, k, x, y)
  {
    if Execute(b, id, q).error == Ok {
      if q == b.orders[id].quantity {
        assert x != id && y != id;
        hide Ahead;
        RemovedAhead(b, id, k, x, y);
      }
    }
  }

  /** Both orders rest after every command of the run, and no command displaces either. */
  ghost predicate BothStay(b: Book, lim: Limits, cmds: seq<Command>, x: u64, y: u64)
    decreases |cmds|
  {
    cmds == [] ||
    (var b' := Apply(b, lim, cmds[0]).book;
     !Displaces(cmds[0], x) && !Displaces(cmds[0], y) && x in b'.orders && y in b'.orders &&
     BothStay(b', lim, cmds[1..], x, y))
  }

  /** Time priority: over every run, an order keeps its place before every order that came later. */
  lemma {:induction false} TimePriority(b: Book, lim: Limits, cmds: seq<Command>, k: Key, x: u64, y: u64)
    requires Ahead(b, k, x, y) && BothStay(b, lim, cmds, x, y)
    ensures Ahead(Run(b, lim, cmds).1, k, x, y)
    decreases |cmds|
  {
    hide Ahead, Apply, Displaces;
    if cmds != [] {
      StepPriority(b, lim, cmds[0], k, x, y);
      TimePriority(Apply(b, lim, cmds[0]).book, lim, cmds[1..], k, x, y);
    }
  }

  /** An accepted add, or the new order of an accepted replace, comes behind every order of its price that stays. */
  lemma {:induction false} NewOrdersLast(b: Book, lim: Limits, c: Command, x: u64, id: u64)
    requires Coherent(b) && Apply(b, lim, c).error == Ok &&
             ((c.AddCmd? && id == c.id) || (c.ReplaceCmd? && id == c.newId))
    requires var b' := Apply(b, lim, c).book;
             x in b.orders && x in b'.orders && x != id && !Displaces(c, x) && id in b'.orders &&
             b'.orders[x].KeyOf() == b'.orders[id].KeyOf()
    ensures var b' := Apply(b, lim, c).book; Ahead(b', b'.orders[id].KeyOf(), x, id)
  {
    match c
    case AddCmd(_, side, q, p) => LastInQueue(b, id, Entry(side, p, q), x);
    case ReplaceCmd(old_, _, q, p) =>
      RemovedCoherent(b, old_);
      LastInQueue(Removed(b, old_), id, Entry(b.orders[old_].side, p, q), x);
  }

  lemma {:induction false} LastInQueue(b: Book, id: u64, e: Entry, x: u64)
    requires Coherent(b) && x in b.orders && x != id && b.orders[x].KeyOf() == e.KeyOf()
    ensures Ahead(Enqueued(b, id, e), e.KeyOf(), x, id)
  {
    var q := b.queues[e.KeyOf()];
    var i :| 0 <= i < |q| && q[i] == x;
    var q' := Enqueued(b, id, e).queues[e.KeyOf()];
    assert q'[i] == x && q'[|q|] == id;
  }

  // ---------- What one command undoes ----------

  lemma {:induction false} WithoutLast(q: seq<u64>, id: u64)
    requires id !in q
    ensures Without(q + [id], id) == q
  {
    if q != [] {
      assert (q + [id])[1..] == q[1..] + [id];
      WithoutLast(q[1..], id);
    }
  }

  lemma {:induction false} EnqueuedUndone(b: Book, id: u64, e: Entry)
    requires id !in b.orders && id !in QueueAt(b, e.KeyOf()) && (e.KeyOf() in b.queues ==> b.queues[e.KeyOf()] != [])
    ensures Removed(Enqueued(b, id, e), id) == b
  {
    hide Without;
    var k, b' := e.KeyOf(), Enqueued(b, id, e);
    WithoutLast(QueueAt(b, k), id);
    assert Without(QueueAt(b', k), id) == QueueAt(b, k);
    assert b'.orders - {id} == b.orders;
    assert Removed(b', id).queues == b.queues;
  }

  /** Erasing an order just added restores the book exactly, and so does executing or cancelling all of it. */
  lemma {:induction false} AddUndone(b: Book, lim: Limits, id: u64, side: Side, q: u32, p: u32)
    requires Coherent(b) && Add(b, lim, id, side, q, p).error == Ok
    ensures Erase(Add(b, lim, id, side, q, p).book, id) == Outcome(Ok, b)
    ensures Execute(Add(b, lim, id, side, q, p).book, id, q) == Outcome(Ok, b)
  {
    hide Removed;
    EnqueuedUndone(b, id, Entry(side, p, q));
  }

  // ---------- Replace against erase-then-add ----------

  /** The transaction that replace stands for: erase, then add; if either fails, nothing happens. */
  function EraseThenAdd(b: Book, lim: Limits, old_: u64, new_: u64, q: u32, p: u32): Outcome {
    if old_ !in b.orders then Outcome(UnknownOrder, b)
    else
      var out := Add(Erase(b, old_).book, lim, new_, b.orders[old_].side, q, p);
      if out.error == Ok then out else Outcome(out.error, b)
  }

  /** The one order of its price wants to move to a new price while every level is in use. */
  predicate LoneMoveAtCapacity(b: Book, lim: Limits, old_: u64, new_: u64, q: u32, p: u32) {
    old_ in b.orders && q != 0 && (new_ == old_ || new_ !in b.orders) && p != b.orders[old_].price &&
    QueueAt(b, b.orders[old_].KeyOf()) == [old_] && Key(b.orders[old_].side, p) !in b.queues &&
    |b.queues| >= lim.maxLevels
  }

  lemma {:induction false} LoneWithout(q: seq<u64>, id: u64)
    requires id in q
    ensures Without(q, id) == [] <==> q == [id]
  {
    if q[0] != id { assert Without(q, id)[0] == q[0]; }
  }

  /** Replace is the transaction erase-then-add, except when a lone order moves to a new price at level capacity. */
  lemma {:induction false} ReplaceMeets(b: Book, lim: Limits, old_: u64, new_: u64, q: u32, p: u32)
    requires Coherent(b) && Fits(b, lim)
    ensures Replace(b, lim, old_, new_, q, p) == EraseThenAdd(b, lim, old_, new_, q, p) <==>
              !LoneMoveAtCapacity(b, lim, old_, new_, q, p)
  {
    hide Coherent, Removed, Enqueued, Without, QueueAt;
    if old_ in b.orders {
      var e, r := b.orders[old_], Removed(b, old_);
      CoherentQueue(b, old_);
      RemovedCounts(b, old_);
      RemovedQueues(b, old_, Key(e.side, p));
      RemovedIds(b, old_);
      LoneWithout(QueueAt(b, e.KeyOf()), old_);
    }
  }

  lemma {:induction false} CoherentQueue(b: Book, id: u64)
    requires Coherent(b) && id in b.orders
    ensures id in QueueAt(b, b.orders[id].KeyOf()) && b.orders[id].KeyOf() in b.queues
  {}

  lemma {:induction false} RemovedIds(b: Book, id: u64)
    requires id in b.orders
    ensures Removed(b, id).orders.Keys == b.orders.Keys - {id}
  {}

  /** A book of one level, one order: moving it by a tick is refused although erase-then-add would succeed. */
  lemma {:induction false} ReplaceRefusesLoneMove()
    ensures var b := Book(map[1 := Entry(Buy, 100, 10)], map[Key(Buy, 100) := [1]]);
            var lim := Limits(2, 1);
            Coherent(b) && Fits(b, lim) &&
            Replace(b, lim, 1, 2, 10, 101).error == LevelPoolExhausted &&
            EraseThenAdd(b, lim, 1, 2, 10, 101).error == Ok
  {
    var b := Book(map[1 := Entry(Buy, 100, 10)], map[Key(Buy, 100) := [1]]);
    var lim := Limits(2, 1);
    assert b.queues[Key(Buy, 100)] == [1] && b.queues.Keys == {Key(Buy, 100)} && b.orders.Keys == {1};
    assert Coherent(b);
    ReplaceMeets(b, lim, 1, 2, 10, 101);
    RemovedCounts(b, 1);
    assert Without([1], 1) == [];
  }
}
