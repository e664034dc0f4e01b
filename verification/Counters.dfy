/** What the three counters of a replay count, and what the events of other symbols do to them. */
module Counters {
  import opened Types
  import opened Messages
  import opened Wrapping
  import opened BookSpec
  import opened Processing

  /** The answers to a stream of messages, one each. */
  function Answers(b: Book, lim: Limits, symbol: seq<u8>, ms: seq<Message>): (codes: seq<BookError>)
    ensures |codes| == |ms|
    decreases |ms|
  {
    if ms == [] then []
    else
      var out := Interpret(b, lim, symbol, ms[0]);
      [out.error] + Answers(out.book, lim, symbol, ms[1..])
  }

  function HowMany(codes: seq<BookError>, kinds: set<BookError>): nat {
    if codes == [] then 0 else (if codes[0] in kinds then 1 else 0) + HowMany(codes[1..], kinds)
  }

  const IGNORED: set<BookError> := {UnknownOrder, WrongSymbol}

  const REJECTED: set<BookError> :=
    {DuplicateOrder, InvalidQuantity, OrderPoolExhausted, LookupFull, LevelPoolExhausted}

  /**
   Successes are accepted, events of unknown orders and adds of other symbols are ignored, and every other
   failure is rejected; each counter has grown by exactly the number of its answers.
   */
  lemma {:induction false} CountersExactly(d: Desk, lim: Limits, symbol: seq<u8>, ms: seq<Message>)
    ensures var codes, s := Answers(d.book, lim, symbol, ms), ReplayAll(d, lim, symbol, ms).stats;
            s == Stats(Wrap64(d.stats.accepted + HowMany(codes, {Ok})),
                       Wrap64(d.stats.ignored + HowMany(codes, IGNORED)),
                       Wrap64(d.stats.rejected + HowMany(codes, REJECTED)))
    decreases |ms|
  {
    hide Interpret, Wrap64;
    if ms == [] {
      NothingAdded(d.stats.accepted);
      NothingAdded(d.stats.ignored);
      NothingAdded(d.stats.rejected);
    } else {
      var out, d' := Interpret(d.book, lim, symbol, ms[0]), Step(d, lim, symbol, ms[0]);
      var more := Answers(out.book, lim, symbol, ms[1..]);
      CountersExactly(d', lim, symbol, ms[1..]);
      assert ([out.error] + more)[1..] == more;
      OneMore(d.stats.accepted, HowMany(more, {Ok}));
      OneMore(d.stats.ignored, HowMany(more, IGNORED));
      OneMore(d.stats.rejected, HowMany(more, REJECTED));
    }
  }

  lemma {:induction false} NothingAdded(x: u64)
    ensures Wrap64(x + 0) == x
  {}

  lemma {:induction false} OneMore(x: u64, n: nat)
    ensures Wrap64(Wrap64(x + 1) + n) == Wrap64(x + (1 + n))
  {
    WrapSum(x + 1, n);
  }

  // ---------- A whole market's feed ----------

  /** Messages about orders, but not about this symbol's. */
  function Foreign(own: u64 -> bool, ms: seq<Message>): nat {
    if ms == [] then 0 else (if ms[0].Other? || Concerns(own, ms[0]) then 0 else 1) + Foreign(own, ms[1..])
  }

  /** Messages that are not about orders. */
  function Unrelated(ms: seq<Message>): nat {
    if ms == [] then 0 else (if ms[0].Other? then 1 else 0) + Unrelated(ms[1..])
  }

  /** The counters s, with messages about other orders ignored and messages about no order accepted on top. */
  predicate Beside(s: Stats, t: Stats, foreign: nat, unrelated: nat) {
    s.rejected == t.rejected && s.ignored == Wrap64(t.ignored + foreign) && s.accepted == Wrap64(t.accepted + unrelated)
  }

  /** A message about another symbol's order is refused as unknown or of another symbol, and changes nothing. */
  lemma {:induction false} ForeignIgnored(own: u64 -> bool, b: Book, lim: Limits, symbol: seq<u8>, m: Message)
    requires AllOwn(own, b) && OneSymbolEach(own, symbol, m) && !Concerns(own, m)
    ensures Interpret(b, lim, symbol, m).book == b
    ensures var e := Interpret(b, lim, symbol, m).error;
            if m.Other? then e == Ok else if m.AddOrder? || m.AddOrderMpid? then e == WrongSymbol else e == UnknownOrder
  {
    hide SymbolMatches;
  }

  /**
   Replaying the feed of a whole market rejects exactly what replaying its own symbol's messages rejects: a message
   about another symbol's order only raises `ignored`, and one about no order only `accepted`.
   */
  lemma {:induction false} MarketCounters(own: u64 -> bool, d: Desk, e: Desk, lim: Limits, symbol: seq<u8>,
                                          ms: seq<Message>, foreign: nat, unrelated: nat)
    requires AllOwn(own, d.book) && d.book == e.book && Beside(d.stats, e.stats, foreign, unrelated)
    requires forall i :: 0 <= i < |ms| ==> OneSymbolEach(own, symbol, ms[i])
    ensures var whole, part := ReplayAll(d, lim, symbol, ms), ReplayAll(e, lim, symbol, Concerning(own, ms));
            whole.book == part.book &&
            Beside(whole.stats, part.stats, foreign + Foreign(own, ms), unrelated + Unrelated(ms))
    decreases |ms|
  {
    hide Concerns, OneSymbolEach, Interpret, AllOwn, Beside, Wrap64, Counted;
    if ms != [] {
      var m, rest := ms[0], Concerning(own, ms[1..]);
      OthersIgnored(own, d.book, lim, symbol, m);
      var d', e' := Step(d, lim, symbol, m), if Concerns(own, m) then Step(e, lim, symbol, m) else e;
      if Concerns(own, m) {
        assert Concerning(own, ms)[1..] == rest;
        assert !m.Other? by { NoOrder(own, m); }
        BothCounted(d.stats, e.stats, Interpret(d.book, lim, symbol, m).error, foreign, unrelated);
        MarketCounters(own, d', e', lim, symbol, ms[1..], foreign, unrelated);
      } else {
        assert Concerning(own, ms) == rest;
        ForeignIgnored(own, d.book, lim, symbol, m);
        OneCounted(d.stats, e.stats, Interpret(d.book, lim, symbol, m).error, foreign, unrelated);
        MarketCounters(own, d', e', lim, symbol, ms[1..], if m.Other? then foreign else foreign + 1,
                       if m.Other? then unrelated + 1 else unrelated);
      }
    }
  }

  lemma {:induction false} NoOrder(own: u64 -> bool, m: Message)
    ensures Concerns(own, m) ==> !m.Other?
  {}

  lemma {:induction false} BothCounted(s: Stats, t: Stats, e: BookError, foreign: nat, unrelated: nat)
    requires Beside(s, t, foreign, unrelated)
    ensures Beside(Counted(s, e), Counted(t, e), foreign, unrelated)
  {
    hide Wrap64;
    Swap(s.ignored, t.ignored, foreign);
    Swap(s.accepted, t.accepted, unrelated);
  }

  lemma {:induction false} Swap(x: u64, y: u64, n: nat)
    requires x == Wrap64(y + n)
    ensures Wrap64(x + 1) == Wrap64(Wrap64(y + 1) + n)
  {
    WrapSum(y + n, 1);
    WrapSum(y + 1, n);
  }

  lemma {:induction false} OneCounted(s: Stats, t: Stats, e: BookError, foreign: nat, unrelated: nat)
    requires Beside(s, t, foreign, unrelated)
    ensures e in IGNORED ==> Beside(Counted(s, e), t, foreign + 1, unrelated)
    ensures e == Ok ==> Beside(Counted(s, e), t, foreign, unrelated + 1)
  {
    hide Wrap64;
    WrapSum(t.ignored + foreign, 1);
    WrapSum(t.accepted + unrelated, 1);
  }

  /** From a new desk on: what the whole market and the symbol's own messages count. */
  lemma {:induction false} WholeMarket(own: u64 -> bool, lim: Limits, symbol: seq<u8>, ms: seq<Message>)
    requires forall i :: 0 <= i < |ms| ==> OneSymbolEach(own, symbol, ms[i])
    ensures var whole := ReplayAll(Desk(EMPTY, NO_STATS), lim, symbol, ms);
            var part := ReplayAll(Desk(EMPTY, NO_STATS), lim, symbol, Concerning(own, ms));
            whole.book == part.book && whole.stats.rejected == part.stats.rejected &&
            whole.stats.ignored == Wrap64(part.stats.ignored + Foreign(own, ms)) &&
            whole.stats.accepted == Wrap64(part.stats.accepted + Unrelated(ms))
  {
    hide ReplayAll, Concerning, Foreign, Unrelated, OneSymbolEach, Wrap64;
    NothingAdded(0);
    MarketCounters(own, Desk(EMPTY, NO_STATS), Desk(EMPTY, NO_STATS), lim, symbol, ms, 0, 0);
  }
}
