/**
 What every operation of the book answers and does, stated of orders and queues alone, without the functions
 that compute it: for each operation, a relation that admits exactly one outcome, and that outcome is it.
 */
module Effects {
  import opened Types
  import opened Messages
  import opened BookSpec
  import opened Processing

  // ---------- Changes of a book ----------

  /** From b to c, order id has come with entry e, behind all others at its price; nothing else has changed. */
  ghost predicate Joined(b: Book, c: Book, id: u64, e: Entry) {
    var k := Key(e.side, e.price);
    c.orders == b.orders[id := e] && k in c.queues && c.queues[k] != [] && c.queues[k][|c.queues[k]| - 1] == id &&
    (if k in b.queues then c.queues[k][..|c.queues[k]| - 1] == b.queues[k] else |c.queues[k]| == 1) &&
    c.queues - {k} == b.queues - {k}
  }

  /** Queue r is queue q with the element at place i taken out. */
  predicate Closes(q: seq<u64>, i: int, r: seq<u64>) {
    0 <= i < |q| && |r| == |q| - 1 && r[..i] == q[..i] && r[i..] == q[i + 1..]
  }

  /** Order id has gone from its place in the queue, and its price with it if it was alone there. */
  ghost predicate Gone(b: Book, c: Book, id: u64) {
    id in b.orders && c.orders == b.orders - {id} &&
    var k := Key(b.orders[id].side, b.orders[id].price);
    k in b.queues && c.queues - {k} == b.queues - {k} &&
    if b.queues[k] == [id] then k !in c.queues
    else k in c.queues && exists i :: Closes(b.queues[k], i, c.queues[k]) && b.queues[k][i] == id
  }

  /** Order id has lost q shares and is left with some; it keeps its side, price and place. */
  ghost predicate Shrunk(b: Book, c: Book, id: u64, q: nat) {
    id in b.orders && id in c.orders && c.queues == b.queues && c.orders - {id} == b.orders - {id} &&
    c.orders[id].side == b.orders[id].side && c.orders[id].price == b.orders[id].price &&
    c.orders[id].quantity == b.orders[id].quantity - q > 0
  }

  // ---------- The answer of each operation ----------

  ghost predicate AddAnswers(b: Book, lim: Limits, id: u64, side: Side, q: u32, p: u32, out: Outcome) {
    var newPrice := Key(side, p) !in b.queues;
    (out.error == InvalidQuantity <==> q == 0) &&
    (out.error == DuplicateOrder <==> q > 0 && id in b.orders) &&
    (out.error == OrderPoolExhausted <==> q > 0 && id !in b.orders && |b.orders| >= lim.maxOrders) &&
    (out.error == LevelPoolExhausted <==>
       q > 0 && id !in b.orders && |b.orders| < lim.maxOrders && newPrice && |b.queues| >= lim.maxLevels) &&
    (out.error == Ok <==>
       q > 0 && id !in b.orders && |b.orders| < lim.maxOrders && (newPrice ==> |b.queues| < lim.maxLevels)) &&
    if out.error == Ok then Joined(b, out.book, id, Entry(side, p, q)) else out.book == b
  }

  /** Executing and cancelling. */
  ghost predicate ReduceAnswers(b: Book, id: u64, q: u32, out: Outcome) {
    (out.error == UnknownOrder <==> id !in b.orders) &&
    (out.error == InvalidQuantity <==> id in b.orders && (q == 0 || q > b.orders[id].quantity)) &&
    (out.error == Ok <==> id in b.orders && 0 < q <= b.orders[id].quantity) &&
    if out.error != Ok then out.book == b
    else if q == b.orders[id].quantity then Gone(b, out.book, id)
    else Shrunk(b, out.book, id, q)
  }

  ghost predicate EraseAnswers(b: Book, id: u64, out: Outcome) {
    (out.error == UnknownOrder <==> id !in b.orders) && (out.error == Ok <==> id in b.orders) &&
    if out.error == Ok then Gone(b, out.book, id) else out.book == b
  }

  ghost predicate ReplaceAnswers(b: Book, lim: Limits, old_: u64, new_: u64, q: u32, p: u32, out: Outcome) {
    (out.error == UnknownOrder <==> old_ !in b.orders) &&
    (out.error == InvalidQuantity <==> old_ in b.orders && q == 0) &&
    (out.error == DuplicateOrder <==> old_ in b.orders && q > 0 && new_ != old_ && new_ in b.orders) &&
    (out.error == LevelPoolExhausted <==>
       old_ in b.orders && q > 0 && (new_ == old_ || new_ !in b.orders) && p != b.orders[old_].price &&
       Key(b.orders[old_].side, p) !in b.queues && |b.queues| >= lim.maxLevels) &&
    (out.error == Ok <==>
       old_ in b.orders && q > 0 && (new_ == old_ || new_ !in b.orders) &&
       (p == b.orders[old_].price || Key(b.orders[old_].side, p) in b.queues || |b.queues| < lim.maxLevels)) &&
    if out.error == Ok then
      exists mid :: Gone(b, mid, old_) && Joined(mid, out.book, new_, Entry(b.orders[old_].side, p, q))
    else
      out.book == b
  }

  ghost predicate CommandAnswers(b: Book, lim: Limits, c: Command, out: Outcome) {
    match c
    case AddCmd(id, side, q, p) => AddAnswers(b, lim, id, side, q, p, out)
    case ExecuteCmd(id, q) => ReduceAnswers(b, id, q, out)
    case CancelCmd(id, q) => ReduceAnswers(b, id, q, out)
    case EraseCmd(id) => EraseAnswers(b, id, out)
    case ReplaceCmd(id, newId, q, p) => ReplaceAnswers(b, lim, id, newId, q, p, out)
  }

  // ---------- The functions of the book give these answers, and there are no others ----------

  lemma {:induction false} JoinedIs(b: Book, c: Book, id: u64, e: Entry)
    ensures Joined(b, c, id, e) <==> c == Enqueued(b, id, e)
  {
    var k, d := e.KeyOf(), Enqueued(b, id, e);
    assert d.queues - {k} == b.queues - {k};
    if Joined(b, c, id, e) {
      assert c.queues[k] == c.queues[k][..|c.queues[k]| - 1] + [id];
      MapApart(c.queues, d.queues, k);
    }
  }

  /** Two maps that agree at a key and elsewhere are equal. */
  lemma {:induction false} MapApart<K, V>(m: map<K, V>, n: map<K, V>, k: K)
    requires m - {k} == n - {k} && (k in m <==> k in n) && (k in m ==> m[k] == n[k])
    ensures m == n
  {
    forall x ensures (x in m <==> x in n) && (x in m ==> m[x] == n[x]) {
      if x != k {
        assert x in m <==> x in m - {k};
        assert x in n <==> x in n - {k};
        assert x in m - {k} ==> (m - {k})[x] == (n - {k})[x];
      }
    }
  }

  lemma {:induction false} WithoutPlace(q: seq<u64>, id: u64) returns (i: int)
    requires id in q
    ensures Closes(q, i, Without(q, id)) && q[i] == id
  {
    if q[0] == id {
      i := 0;
    } else {
      var rest := q[1..];
      i := WithoutPlace(rest, id);
      i := i + 1;
      var r, s := Without(q, id), Without(rest, id);
      assert r[1..] == s && r[..i] == [q[0]] + s[..i - 1] && r[i..] == s[i - 1..];
      assert q[..i] == [q[0]] + rest[..i - 1] && q[i + 1..] == rest[i..];
    }
  }

  lemma {:induction false} GoneIs(b: Book, c: Book, id: u64)
    requires Coherent(b) && id in b.orders
    ensures Gone(b, c, id) <==> c == Removed(b, id)
  {
    var k, d := b.orders[id].KeyOf(), Removed(b, id);
    var q := b.queues[k];
    var i := WithoutPlace(q, id);
    assert Without(q, id) == [] <==> |q| == 1;
    assert |q| == 1 ==> q == [id];
    assert d.queues - {k} == b.queues - {k};
    if Gone(b, c, id) {
      if q != [id] {
        var j :| Closes(q, j, c.queues[k]) && q[j] == id;
        assert i == j;
        assert c.queues[k] == q[..i] + q[i + 1..] == d.queues[k];
      }
      MapApart(c.queues, d.queues, k);
    }
  }

  lemma {:induction false} ShrunkIs(b: Book, c: Book, id: u64, q: u32)
    requires id in b.orders && q < b.orders[id].quantity
    ensures Shrunk(b, c, id, q) <==>
            c == b.(orders := b.orders[id := b.orders[id].(quantity := b.orders[id].quantity - q)])
  {
    var d := b.orders[id := b.orders[id].(quantity := b.orders[id].quantity - q)];
    assert d - {id} == b.orders - {id};
    if Shrunk(b, c, id, q) { MapApart(c.orders, d, id); }
  }

  lemma {:induction false} AddExactly(b: Book, lim: Limits, id: u64, side: Side, q: u32, p: u32, out: Outcome)
    ensures AddAnswers(b, lim, id, side, q, p, out) <==> out == Add(b, lim, id, side, q, p)
  {
    hide Joined, Enqueued;
    JoinedIs(b, out.book, id, Entry(side, p, q));
    JoinedIs(b, Add(b, lim, id, side, q, p).book, id, Entry(side, p, q));
  }

  lemma {:induction false} ReduceExactly(b: Book, id: u64, q: u32, out: Outcome)
    requires Coherent(b)
    ensures ReduceAnswers(b, id, q, out) <==> out == Execute(b, id, q)
  {
    hide Gone, Shrunk, Removed, Coherent;
    if id in b.orders {
      var c := Execute(b, id, q).book;
      GoneIs(b, out.book, id);
      GoneIs(b, c, id);
      if q < b.orders[id].quantity {
        ShrunkIs(b, out.book, id, q);
        ShrunkIs(b, c, id, q);
      }
    }
  }

  lemma {:induction false} EraseExactly(b: Book, id: u64, out: Outcome)
    requires Coherent(b)
    ensures EraseAnswers(b, id, out) <==> out == Erase(b, id)
  {
    hide Gone, Removed, Coherent;
    if id in b.orders {
      GoneIs(b, out.book, id);
      GoneIs(b, Removed(b, id), id);
    }
  }

  lemma {:induction false} ReplaceExactly(b: Book, lim: Limits, old_: u64, new_: u64, q: u32, p: u32, out: Outcome)
    requires Coherent(b)
    ensures ReplaceAnswers(b, lim, old_, new_, q, p, out) <==> out == Replace(b, lim, old_, new_, q, p)
  {
    hide Gone, Joined, Removed, Enqueued, Coherent;
    if old_ in b.orders {
      var e, r := Entry(b.orders[old_].side, p, q), Removed(b, old_);
      GoneIs(b, r, old_);
      MovedIs(b, r, out.book, old_, new_, e);
      MovedIs(b, r, Enqueued(r, new_, e), old_, new_, e);
    }
  }

  lemma {:induction false} MovedIs(b: Book, r: Book, c: Book, old_: u64, new_: u64, e: Entry)
    requires Coherent(b) && old_ in b.orders && r == Removed(b, old_)
    ensures (exists mid :: Gone(b, mid, old_) && Joined(mid, c, new_, e)) <==> c == Enqueued(r, new_, e)
  {
    hide Gone, Joined, Removed, Enqueued, Coherent;
    forall mid ensures Gone(b, mid, old_) <==> mid == r { GoneIs(b, mid, old_); }
    JoinedIs(r, c, new_, e);
  }

  /** Every command: its code and its whole effect, and no other outcome. */
  lemma {:induction false} CommandExactly(b: Book, lim: Limits, c: Command, out: Outcome)
    requires Coherent(b)
    ensures CommandAnswers(b, lim, c, out) <==> out == Apply(b, lim, c)
  {
    hide AddAnswers, ReduceAnswers, EraseAnswers, ReplaceAnswers, Add, Execute, Erase, Replace, Coherent;
    match c
    case AddCmd(id, side, q, p) => AddExactly(b, lim, id, side, q, p, out);
    case ExecuteCmd(id, q) => ReduceExactly(b, id, q, out);
    case CancelCmd(id, q) => ReduceExactly(b, id, q, out);
    case EraseCmd(id) => EraseExactly(b, id, out);
    case ReplaceCmd(id, newId, q, p) => ReplaceExactly(b, lim, id, newId, q, p, out);
  }

  /** In a run, answer number i is that of command i on the book that the commands before it have left. */
  lemma {:induction false} RunExactly(b: Book, lim: Limits, cmds: seq<Command>, i: nat)
    requires Coherent(b) && Fits(b, lim) && i < |cmds|
    ensures var codes, before := Run(b, lim, cmds).0, Run(b, lim, cmds[..i]).1;
            |codes| == |cmds| && Coherent(before) &&
            CommandAnswers(before, lim, cmds[i], Outcome(codes[i], Run(b, lim, cmds[..i + 1]).1))
    decreases |cmds|
  {
    hide CommandAnswers, Coherent, Fits, Apply;
    var out, rest := Apply(b, lim, cmds[0]), cmds[1..];
    ApplyKeeps(b, lim, cmds[0]);
    if i > 0 {
      RunExactly(out.book, lim, rest, i - 1);
      assert cmds[..i][1..] == rest[..i - 1] && cmds[..i + 1][1..] == rest[..i];
    } else {
      CommandExactly(b, lim, cmds[0], out);
      RunOne(b, lim, cmds);
      if rest != [] { RunExactly(out.book, lim, rest, 0); }
    }
  }

  lemma {:induction false} RunOne(b: Book, lim: Limits, cmds: seq<Command>)
    requires cmds != []
    ensures Run(b, lim, cmds[..0]).1 == b && Run(b, lim, cmds[..1]).1 == Apply(b, lim, cmds[0]).book
    ensures |cmds| == 1 ==> |Run(b, lim, cmds).0| == 1
  {
    hide Apply;
    assert cmds[..1][1..] == [] && Run(Apply(b, lim, cmds[0]).book, lim, []).1 == Apply(b, lim, cmds[0]).book;
    assert |cmds| == 1 ==> cmds == cmds[..1] && cmds[1..] == [];
  }

  // ---------- Messages ----------

  /** The stock field is the symbol, padded with spaces; a book without a symbol takes every stock. */
  predicate Names(symbol: seq<u8>, stock: Stock) {
    symbol == [] ||
    (|symbol| <= 8 && symbol[|symbol| - 1] != 0x20 && stock[..|symbol|] == symbol &&
     forall i :: |symbol| <= i < 8 ==> stock[i] == 0x20)
  }

  lemma {:induction false} ViewIs(s: seq<u8>, symbol: seq<u8>)
    ensures StockView(s) == symbol <==>
            |symbol| <= |s| && s[..|symbol|] == symbol && (symbol != [] ==> symbol[|symbol| - 1] != 0x20) &&
            forall i :: |symbol| <= i < |s| ==> s[i] == 0x20
  {
    if s != [] && s[|s| - 1] == SPACE {
      var t := s[..|s| - 1];
      ViewIs(t, symbol);
      if |symbol| <= |t| {
        assert t[..|symbol|] == s[..|symbol|];
      } else if |symbol| == |s| && s[..|symbol|] == symbol {
        assert symbol[|symbol| - 1] == SPACE;
      }
    } else if s != [] {
      assert s[..|s|] == s;
      assert |symbol| < |s| ==> s[|s| - 1] != 0x20;
    }
  }

  lemma {:induction false} MatchesExactly(symbol: seq<u8>, stock: Stock)
    ensures SymbolMatches(symbol, stock) <==> Names(symbol, stock)
  {
    ViewIs(stock, symbol);
  }

  /** What a message asks of the book, by its kind and fields. */
  ghost predicate MessageAnswers(b: Book, lim: Limits, symbol: seq<u8>, m: Message, out: Outcome) {
    if m.AddOrder? || m.AddOrderMpid? then
      if Names(symbol, m.stock) then AddAnswers(b, lim, m.orderId, m.side, m.quantity, m.price, out)
      else out == Outcome(WrongSymbol, b)
    else if m.OrderExecuted? || m.OrderExecutedWithPrice? then ReduceAnswers(b, m.orderId, m.executed, out)
    else if m.OrderCancel? then ReduceAnswers(b, m.orderId, m.canceled, out)
    else if m.OrderDelete? then EraseAnswers(b, m.orderId, out)
    else if m.OrderReplace? then
      ReplaceAnswers(b, lim, m.originalOrderId, m.newOrderId, m.quantity, m.price, out)
    else out == Outcome(Ok, b)
  }

  /** Every message of every kind: its code and its whole effect, and no other outcome. */
  lemma {:induction false} MessageExactly(b: Book, lim: Limits, symbol: seq<u8>, m: Message, out: Outcome)
    requires Coherent(b)
    ensures MessageAnswers(b, lim, symbol, m, out) <==> out == Interpret(b, lim, symbol, m)
  {
    hide AddAnswers, ReduceAnswers, EraseAnswers, ReplaceAnswers, Add, Execute, Erase, Replace, Coherent, Names,
         SymbolMatches;
    match m
    case AddOrder(_, id, side, q, stock, p) =>
      MatchesExactly(symbol, stock);
      AddExactly(b, lim, id, side, q, p, out);
    case AddOrderMpid(_, id, side, q, stock, p, _) =>
      MatchesExactly(symbol, stock);
      AddExactly(b, lim, id, side, q, p, out);
    case OrderExecuted(_, id, q, _) => ReduceExactly(b, id, q, out);
    case OrderExecutedWithPrice(_, id, q, _, _, _) => ReduceExactly(b, id, q, out);
    case OrderCancel(_, id, q) => ReduceExactly(b, id, q, out);
    case OrderDelete(_, id) => EraseExactly(b, id, out);
    case OrderReplace(_, id, newId, q, p) => ReplaceExactly(b, lim, id, newId, q, p, out);
    case Other(_, _) =>
  }

  /** An accepted add, attributed or not, leaves the order with its quantity and price, last in its queue. */
  lemma {:induction false} AcceptedAdd(b: Book, lim: Limits, symbol: seq<u8>, m: Message)
    requires Coherent(b) && (m.AddOrder? || m.AddOrderMpid?) && Interpret(b, lim, symbol, m).error == Ok
    ensures var c, k := Interpret(b, lim, symbol, m).book, Key(m.side, m.price);
            m.orderId !in b.orders && c.orders == b.orders[m.orderId := Entry(m.side, m.price, m.quantity)] &&
            k in c.queues && c.queues[k] == (if k in b.queues then b.queues[k] else []) + [m.orderId]
  {
    hide Interpret, AddAnswers, Coherent, Enqueued;
    MessageExactly(b, lim, symbol, m, Interpret(b, lim, symbol, m));
    AddedLast(b, lim, m, Interpret(b, lim, symbol, m));
  }

  lemma {:induction false} AddedLast(b: Book, lim: Limits, m: Message, out: Outcome)
    requires (m.AddOrder? || m.AddOrderMpid?) && out.error == Ok
    requires AddAnswers(b, lim, m.orderId, m.side, m.quantity, m.price, out)
    ensures var c, k := out.book, Key(m.side, m.price);
            m.orderId !in b.orders && c.orders == b.orders[m.orderId := Entry(m.side, m.price, m.quantity)] &&
            k in c.queues && c.queues[k] == (if k in b.queues then b.queues[k] else []) + [m.orderId]
  {
    var q := out.book.queues[Key(m.side, m.price)];
    assert q == q[..|q| - 1] + [m.orderId];
  }

  /** An attributed add does what the plain one does, and an execution at a price what one without and a cancel do. */
  lemma {:induction false} SameOutcome(b: Book, lim: Limits, symbol: seq<u8>, h: Header, id: u64, side: Side, q: u32,
                                       stock: Stock, p: u32, who: seq<u8>, n: u64, printable: u8)
    ensures Interpret(b, lim, symbol, AddOrderMpid(h, id, side, q, stock, p, who)) ==
            Interpret(b, lim, symbol, AddOrder(h, id, side, q, stock, p))
    ensures Interpret(b, lim, symbol, OrderExecutedWithPrice(h, id, q, n, printable, p)) ==
            Interpret(b, lim, symbol, OrderExecuted(h, id, q, n)) == Interpret(b, lim, symbol, OrderCancel(h, id, q))
  {
    hide Add, Execute, SymbolMatches;
  }
}
