/**
 The sequence gate over an epoch as a fold over the frontier: a reference that knows only how far the numbers have
 come and whether a gap has been seen, and counts packets that start above and below the frontier they meet.
 */
module Epochs {
  import opened Types
  import opened Sequencing
  import Wrapping

  /** The first number after a packet; an end-of-session packet covers none. */
  function End(h: MoldHeader): int { h.sequence + if h.count == 0xffff then 0 else h.count }

  function FrontierAfter(f: int, hs: seq<MoldHeader>): int
    decreases |hs|
  {
    if hs == [] then f else FrontierAfter(Max(f, End(hs[0])), hs[1..])
  }

  /** The packets that start above the frontier: one gap each. */
  function Above(f: int, hs: seq<MoldHeader>): nat
    decreases |hs|
  {
    if hs == [] then 0 else (if hs[0].sequence > f then 1 else 0) + Above(Max(f, End(hs[0])), hs[1..])
  }

  /** The packets that start below it: one rewind each. */
  function Below(f: int, hs: seq<MoldHeader>): nat
    decreases |hs|
  {
    if hs == [] then 0 else (if hs[0].sequence < f then 1 else 0) + Below(Max(f, End(hs[0])), hs[1..])
  }

  /** The numbers between the frontier and the packets that start above it. */
  function Shortfall(f: int, hs: seq<MoldHeader>): nat
    decreases |hs|
  {
    if hs == [] then 0
    else (if hs[0].sequence > f then hs[0].sequence - f else 0) + Shortfall(Max(f, End(hs[0])), hs[1..])
  }

  /** The numbers delivered: those of packets that start at the frontier, until the first that starts above it. */
  function Taken(f: int, open: bool, hs: seq<MoldHeader>): seq<int>
    decreases |hs|
  {
    if hs == [] || !open || hs[0].sequence > f then []
    else (if hs[0].sequence == f then Consecutive(f, End(hs[0])) else []) + Taken(Max(f, End(hs[0])), open, hs[1..])
  }

  /** Where an epoch begins: at the number expected in its session, or at its first packet. */
  function Origin(g: GateState, session: Session, hs: seq<MoldHeader>): int {
    if hs == [] || (g.tracker.initialized && g.tracker.session == session) then g.tracker.expected else hs[0].sequence
  }

  /** The gate starts an epoch open unless a gap of the same session has closed it, or one before any packet. */
  predicate StartsOpen(g: GateState, session: Session) {
    g.valid || (g.tracker.initialized && g.tracker.session != session)
  }

  lemma {:induction false} StepExactly(g: GateState, session: Session, h: MoldHeader)
    requires h.session == session && Fits64(h)
    ensures var g', f, open := Admitted(g, h).0, Origin(g, session, [h]), StartsOpen(g, session);
            g'.tracker == Tracker(session, Max(f, End(h)), true) && (g'.valid <==> open && h.sequence <= f) &&
            g'.gaps == Wrap64(g.gaps + if h.sequence > f then 1 else 0) &&
            g'.rewinds == Wrap64(g.rewinds + if h.sequence < f then 1 else 0) &&
            g'.missing == Wrap64(g.missing + if h.sequence > f then h.sequence - f else 0) &&
            Delivers(g, h) == if open && h.sequence == f then Consecutive(f, End(h)) else []
  {
    PlainNumbers(g, h);
    assert h.Advances() == if h.count == 0xffff then 0 else h.count;
    Wrapping.WrapSmall(h.sequence + h.Advances());
  }

  /**
   Over an epoch, from any state of the gate: what is delivered, where the frontier ends, and that gaps, rewinds and
   missing messages are counted once for each packet above or below the frontier it meets.
   */
  lemma {:induction false} EpochExactly(g: GateState, session: Session, hs: seq<MoldHeader>)
    requires Epoch(session, hs)
    ensures var g', f, open := GateAfter(g, hs), Origin(g, session, hs), StartsOpen(g, session);
            DeliversAll(g, hs) == Taken(f, open, hs) &&
            (hs != [] ==> g'.tracker.initialized && g'.tracker.session == session) &&
            (hs != [] ==> g'.tracker.expected == FrontierAfter(f, hs)) &&
            (hs != [] ==> (g'.valid <==> open && Above(f, hs) == 0)) &&
            g'.gaps == Wrap64(g.gaps + Above(f, hs)) && g'.rewinds == Wrap64(g.rewinds + Below(f, hs)) &&
            g'.missing == Wrap64(g.missing + Shortfall(f, hs))
    decreases |hs|
  {
    hide Admitted, Delivers, Wrap64, Consecutive, End, Fits64;
    if hs == [] {
      Unchanged(g.gaps);
      Unchanged(g.rewinds);
      Unchanged(g.missing);
    } else {
      var h, rest, g', f := hs[0], hs[1..], Admitted(g, hs[0]).0, Origin(g, session, hs);
      StepExactly(g, session, h);
      EpochExactly(g', session, rest);
      assert Origin(g', session, rest) == Max(f, End(h));
      Wrapping.WrapSum(g.gaps + if h.sequence > f then 1 else 0, Above(Max(f, End(h)), rest));
      Wrapping.WrapSum(g.rewinds + if h.sequence < f then 1 else 0, Below(Max(f, End(h)), rest));
      Wrapping.WrapSum(g.missing + if h.sequence > f then h.sequence - f else 0, Shortfall(Max(f, End(h)), rest));
      TakenClosed(Max(f, End(h)), rest);
      assert rest == [] ==> GateAfter(g, hs) == g';
    }
  }

  lemma {:induction false} Unchanged(x: u64)
    ensures Wrap64(x + 0) == x
  {}

  lemma {:induction false} TakenClosed(f: int, hs: seq<MoldHeader>)
    ensures Taken(f, false, hs) == []
  {}

  /** Messages are missing exactly if a gap has been seen, and at least one for each gap. */
  lemma {:induction false} MissingWithGaps(f: int, hs: seq<MoldHeader>)
    ensures Shortfall(f, hs) >= Above(f, hs) && (Shortfall(f, hs) == 0 <==> Above(f, hs) == 0)
    decreases |hs|
  {
    if hs != [] { MissingWithGaps(Max(f, End(hs[0])), hs[1..]); }
  }

  /** What the tracker reports for a packet, wrapped numbers included. */
  lemma {:induction false} StatusExactly(t: Tracker, h: MoldHeader)
    ensures var (t', r) := Observed(t, h);
            var following := t.initialized && h.session == t.session;
            (r.status == Initialized <==> !t.initialized) &&
            (r.status == NewSession <==> t.initialized && h.session != t.session) &&
            (r.status == Gap <==> following && h.sequence > t.expected) &&
            (r.status == Rewind <==> following && h.sequence < t.expected) &&
            (r.status == InOrder <==> following && h.sequence == t.expected) &&
            r.received == h.sequence && r.expected == (if t.initialized then t.expected else h.sequence) &&
            r.missing == (if following && h.sequence > t.expected then h.sequence - t.expected else 0) &&
            t'.initialized && t'.session == h.session &&
            t'.expected == if following then Max(t.expected, Wrap64(End(h))) else Wrap64(End(h))
  {
    assert h.Advances() == if h.count == 0xffff then 0 else h.count;
  }
}
