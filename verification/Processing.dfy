/** What a book does with a stream of decoded messages: symbol filter, dispatch and statistics. */
module Processing {
  import opened Types
  import opened Messages
  import opened Wrapping
  import opened BookSpec

  /** The counters of processed messages, which wrap like every 64-bit counter. */
  datatype Stats = Stats(accepted: u64, ignored: u64, rejected: u64)

  const NO_STATS: Stats := Stats(0, 0, 0)

  datatype Desk = Desk(book: Book, stats: Stats)

  /** A book without a symbol takes every stock. */
  predicate SymbolMatches(symbol: seq<u8>, stock: Stock) { symbol == [] || StockView(stock) == symbol }

  function Interpret(b: Book, lim: Limits, symbol: seq<u8>, m: Message): Outcome {
    match m
    case AddOrder(_, id, side, q, stock, p) =>
      if SymbolMatches(symbol, stock) then Add(b, lim, id, side, q, p) else Outcome(WrongSymbol, b)
    case AddOrderMpid(_, id, side, q, stock, p, _) =>
      if SymbolMatches(symbol, stock) then Add(b, lim, id, side, q, p) else Outcome(WrongSymbol, b)
    case OrderExecuted(_, id, q, _) => Execute(b, id, q)
    case OrderExecutedWithPrice(_, id, q, _, _, _) => Execute(b, id, q)
    case OrderCancel(_, id, q) => Execute(b, id, q)
    case OrderDelete(_, id) => Erase(b, id)
    case OrderReplace(_, id, newId, q, p) => Replace(b, lim, id, newId, q, p)
    case Other(_, _) => Outcome(Ok, b)
  }

  /** Orders of other symbols are ignored; every other error is a rejection. */
  function Counted(s: Stats, e: BookError): Stats {
    if e == Ok then s.(accepted := Wrap64(s.accepted + 1))
    else if e == WrongSymbol || e == UnknownOrder then s.(ignored := Wrap64(s.ignored + 1))
    else s.(rejected := Wrap64(s.rejected + 1))
  }

  function Step(d: Desk, lim: Limits, symbol: seq<u8>, m: Message): Desk {
    var out := Interpret(d.book, lim, symbol, m);
    Desk(out.book, Counted(d.stats, out.error))
  }

  /** A whole stream of messages. */
  function ReplayAll(d: Desk, lim: Limits, symbol: seq<u8>, ms: seq<Message>): Desk
    decreases |ms|
  {
    if ms == [] then d else ReplayAll(Step(d, lim, symbol, ms[0]), lim, symbol, ms[1..])
  }

  lemma {:induction false} ReplayConcat(d: Desk, lim: Limits, symbol: seq<u8>, a: seq<Message>, b: seq<Message>)
    ensures ReplayAll(d, lim, symbol, a + b) == ReplayAll(ReplayAll(d, lim, symbol, a), lim, symbol, b)
    decreases |a|
  {
    if a == [] {
      assert a + b == b;
    } else {
      assert (a + b)[1..] == a[1..] + b;
      ReplayConcat(Step(d, lim, symbol, a[0]), lim, symbol, a[1..], b);
    }
  }

  /** A message does to the book what some command does, or nothing. */
  lemma {:induction false} InterpretKeeps(b: Book, lim: Limits, symbol: seq<u8>, m: Message)
    requires Coherent(b) && Fits(b, lim)
    ensures Coherent(Interpret(b, lim, symbol, m).book) && Fits(Interpret(b, lim, symbol, m).book, lim)
    ensures Interpret(b, lim, symbol, m).error != Ok ==> Interpret(b, lim, symbol, m).book == b
  {
    hide Coherent, Fits, Add, Execute, Erase, Replace, SymbolMatches;
    match m
    case AddOrder(_, id, side, q, stock, p) => ApplyKeeps(b, lim, AddCmd(id, side, q, p));
    case AddOrderMpid(_, id, side, q, stock, p, _) => ApplyKeeps(b, lim, AddCmd(id, side, q, p));
    case OrderExecuted(_, id, q, _) => ApplyKeeps(b, lim, ExecuteCmd(id, q));
    case OrderExecutedWithPrice(_, id, q, _, _, _) => ApplyKeeps(b, lim, ExecuteCmd(id, q));
    case OrderCancel(_, id, q) => ApplyKeeps(b, lim, CancelCmd(id, q));
    case OrderDelete(_, id) => ApplyKeeps(b, lim, EraseCmd(id));
    case OrderReplace(_, id, newId, q, p) => ApplyKeeps(b, lim, ReplaceCmd(id, newId, q, p));
    case Other(_, _) =>
  }

  /** Every stream keeps the book coherent, and every message is counted exactly once. */
  lemma {:induction false} ReplayKeeps(d: Desk, lim: Limits, symbol: seq<u8>, ms: seq<Message>)
    requires Coherent(d.book) && Fits(d.book, lim)
    ensures var e := ReplayAll(d, lim, symbol, ms);
            Coherent(e.book) && Fits(e.book, lim) &&
            Wrap64(e.stats.accepted + e.stats.ignored + e.stats.rejected) ==
            Wrap64(d.stats.accepted + d.stats.ignored + d.stats.rejected + |ms|)
    decreases |ms|
  {
    hide Coherent, Fits, Wrap64, Counted, Interpret;
    if ms != [] {
      InterpretKeeps(d.book, lim, symbol, ms[0]);
      var d' := Step(d, lim, symbol, ms[0]);
      OnceCounted(d.stats, Interpret(d.book, lim, symbol, ms[0]).error, |ms| - 1);
      ReplayKeeps(d', lim, symbol, ms[1..]);
    }
  }

  lemma {:induction false} OnceCounted(s: Stats, e: BookError, n: nat)
    ensures var s' := Counted(s, e);
            Wrap64(s'.accepted + s'.ignored + s'.rejected + n) == Wrap64(s.accepted + s.ignored + s.rejected + n + 1)
  {
    hide Wrap64;
    WrapSum(s.accepted + 1, s.ignored + s.rejected + n);
    WrapSum(s.ignored + 1, s.accepted + s.rejected + n);
    WrapSum(s.rejected + 1, s.accepted + s.ignored + n);
  }

  // ---------- The symbol filter ----------

  /** A message about an order of this symbol, when `own` tells the symbol's order ids. */
  predicate Concerns(own: u64 -> bool, m: Message) {
    match m
    case AddOrder(_, id, _, _, _, _) => own(id)
    case AddOrderMpid(_, id, _, _, _, _, _) => own(id)
    case OrderExecuted(_, id, _, _) => own(id)
    case OrderExecutedWithPrice(_, id, _, _, _, _) => own(id)
    case OrderCancel(_, id, _) => own(id)
    case OrderDelete(_, id) => own(id)
    case OrderReplace(_, id, _, _, _) => own(id)
    case Other(_, _) => false
  }

  /** The feed gives every order id one symbol, also when an order is replaced. */
  predicate OneSymbolEach(own: u64 -> bool, symbol: seq<u8>, m: Message) {
    match m
    case AddOrder(_, id, _, _, stock, _) => own(id) <==> SymbolMatches(symbol, stock)
    case AddOrderMpid(_, id, _, _, stock, _, _) => own(id) <==> SymbolMatches(symbol, stock)
    case OrderReplace(_, id, newId, _, _) => own(id) <==> own(newId)
    case _ => true
  }

  function Concerning(own: u64 -> bool, ms: seq<Message>): seq<Message> {
    if ms == [] then [] else (if Concerns(own, ms[0]) then [ms[0]] else []) + Concerning(own, ms[1..])
  }

  ghost predicate AllOwn(own: u64 -> bool, b: Book) { forall id :: id in b.orders ==> own(id) }

  lemma {:induction false} OthersIgnored(own: u64 -> bool, b: Book, lim: Limits, symbol: seq<u8>, m: Message)
    requires AllOwn(own, b) && OneSymbolEach(own, symbol, m)
    ensures !Concerns(own, m) ==> Interpret(b, lim, symbol, m).book == b
    ensures AllOwn(own, Interpret(b, lim, symbol, m).book)
  {
    hide SymbolMatches, Without;
  }

  /** Replaying the feed of a whole market leaves the book that replaying its own symbol's orders leaves. */
  lemma {:induction false} SymbolFilter(own: u64 -> bool, d: Desk, e: Desk, lim: Limits, symbol: seq<u8>,
                                        ms: seq<Message>)
    requires AllOwn(own, d.book) && d.book == e.book && forall i :: 0 <= i < |ms| ==> OneSymbolEach(own, symbol, ms[i])
    ensures ReplayAll(d, lim, symbol, ms).book == ReplayAll(e, lim, symbol, Concerning(own, ms)).book
    decreases |ms|
  {
    hide Concerns, OneSymbolEach, Interpret, AllOwn;
    if ms != [] {
      var rest := Concerning(own, ms[1..]);
      OthersIgnored(own, d.book, lim, symbol, ms[0]);
      var d', e' := Step(d, lim, symbol, ms[0]), if Concerns(own, ms[0]) then Step(e, lim, symbol, ms[0]) else e;
      SymbolFilter(own, d', e', lim, symbol, ms[1..]);
      if Concerns(own, ms[0]) {
        assert Concerning(own, ms)[1..] == rest;
      } else {
        assert Concerning(own, ms) == rest;
      }
    }
  }
}
