/** MoldUDP64 sequence tracking, and the gate that decides which packets reach the book. */
module Sequencing {
  import opened Types
  import Wrapping

  /** A session name is ten bytes. */
  type Session = s: seq<u8> | |s| == 10 witness [0, 0, 0, 0, 0, 0, 0, 0, 0, 0]

  const NO_SESSION: Session := [0, 0, 0, 0, 0, 0, 0, 0, 0, 0]

  datatype MoldHeader = MoldHeader(session: Session, sequence: u64, count: u16) {
    predicate Heartbeat() { count == 0 }

    predicate EndOfSession() { count == 0xffff }

    /** How many sequence numbers the packet covers. */
    function Advances(): u64 { if EndOfSession() then 0 else count }
  }

  datatype SequenceStatus = Initialized | InOrder | Gap | Rewind | NewSession

  datatype SequenceResult = SequenceResult(status: SequenceStatus, expected: u64, received: u64, missing: u64)

  datatype Tracker = Tracker(session: Session, expected: u64, initialized: bool)

  const NO_TRACKER: Tracker := Tracker(NO_SESSION, 0, false)

  function Observed(t: Tracker, h: MoldHeader): (Tracker, SequenceResult) {
    var end := Wrap64(h.sequence + h.Advances());
    if !t.initialized then
      (Tracker(h.session, end, true), SequenceResult(Initialized, h.sequence, h.sequence, 0))
    else if h.session != t.session then
      (Tracker(h.session, end, true), SequenceResult(NewSession, t.expected, h.sequence, 0))
    else
      (Tracker(t.session, if end > t.expected then end else t.expected, true),
       if h.sequence > t.expected then SequenceResult(Gap, t.expected, h.sequence, h.sequence - t.expected)
       else if h.sequence < t.expected then SequenceResult(Rewind, t.expected, h.sequence, 0)
       else SequenceResult(InOrder, t.expected, h.sequence, 0))
  }

  class SequenceTracker {
    var session: Session
    var expected: u64
    var initialized: bool

    ghost function State(): Tracker
      reads this
    {
      Tracker(session, expected, initialized)
    }

    constructor ()
      ensures State() == NO_TRACKER
    {
      session, expected, initialized := NO_SESSION, 0, false;
    }

    method Observe(h: MoldHeader) returns (r: SequenceResult)
      modifies this
      ensures (State(), r) == Observed(old(State()), h)
    {
      var advances := if h.EndOfSession() then 0 else h.count;
      if !initialized {
        session := h.session;
        expected := Wrap64(h.sequence + advances);
        initialized := true;
        return SequenceResult(Initialized, h.sequence, h.sequence, 0);
      }
      if h.session != session {
        session := h.session;
        var previousExpected := expected;
        expected := Wrap64(h.sequence + advances);
        return SequenceResult(NewSession, previousExpected, h.sequence, 0);
      }
      r := SequenceResult(InOrder, expected, h.sequence, 0);
      if h.sequence > expected {
        r := r.(status := Gap, missing := h.sequence - expected);
      } else if h.sequence < expected {
        r := r.(status := Rewind);
      }
      var packetEnd := Wrap64(h.sequence + advances);
      if packetEnd > expected {
        expected := packetEnd;
      }
    }

    method Reset()
      modifies this
      ensures State() == NO_TRACKER
    {
      session, expected, initialized := NO_SESSION, 0, false;
    }
  }

  // ---------- The gate ----------

  datatype GateState = GateState(tracker: Tracker, valid: bool, gaps: u64, missing: u64, rewinds: u64)

  const OPEN: GateState := GateState(NO_TRACKER, true, 0, 0, 0)

  /** What the gate answers for a packet, and its next state. */
  function Admitted(g: GateState, h: MoldHeader): (GateState, bool) {
    var (t, r) := Observed(g.tracker, h);
    match r.status
    case Gap => (GateState(t, false, Wrap64(g.gaps + 1), Wrap64(g.missing + r.missing), g.rewinds), false)
    case Rewind => (g.(tracker := t, rewinds := Wrap64(g.rewinds + 1)), false)
    case NewSession => (g.(tracker := t, valid := true), true)
    case _ => (g.(tracker := t), g.valid)
  }

  class Gate {
    const tracker: SequenceTracker
    var valid: bool
    var gaps: u64
    var missing: u64
    var rewinds: u64

    ghost function State(): GateState
      reads this, tracker
    {
      GateState(tracker.State(), valid, gaps, missing, rewinds)
    }

    constructor ()
      ensures State() == OPEN && fresh(tracker)
    {
      tracker := new SequenceTracker();
      valid, gaps, missing, rewinds := true, 0, 0, 0;
    }

    method Admit(h: MoldHeader) returns (ok: bool)
      modifies this, tracker
      ensures (State(), ok) == Admitted(old(State()), h)
    {
      var sequence := tracker.Observe(h);
      if sequence.status == Gap {
        gaps := Wrap64(gaps + 1);
        missing := Wrap64(missing + sequence.missing);
        valid := false;
        return false;
      }
      if sequence.status == Rewind {
        rewinds := Wrap64(rewinds + 1);
        return false;
      }
      if sequence.status == NewSession {
        valid := true;
      }
      return valid;
    }
  }

  // ---------- Streams of packets ----------

  /** The sequence numbers that a packet delivers: all of them or none, and none for a control packet. */
  function Delivers(g: GateState, h: MoldHeader): seq<int> {
    if Admitted(g, h).1 && !h.EndOfSession() then seq(h.count, i => Wrap64(h.sequence + i)) else []
  }

  function GateAfter(g: GateState, hs: seq<MoldHeader>): GateState
    decreases |hs|
  {
    if hs == [] then g else GateAfter(Admitted(g, hs[0]).0, hs[1..])
  }

  function DeliversAll(g: GateState, hs: seq<MoldHeader>): seq<int>
    decreases |hs|
  {
    if hs == [] then [] else Delivers(g, hs[0]) + DeliversAll(Admitted(g, hs[0]).0, hs[1..])
  }

  /** A stream is the epochs it consists of, one after the other. */
  lemma {:induction false} StreamSplit(g: GateState, a: seq<MoldHeader>, b: seq<MoldHeader>)
    ensures GateAfter(g, a + b) == GateAfter(GateAfter(g, a), b)
    ensures DeliversAll(g, a + b) == DeliversAll(g, a) + DeliversAll(GateAfter(g, a), b)
    decreases |a|
  {
    hide Admitted, Delivers;
    if a == [] {
      assert a + b == b;
    } else {
      assert (a + b)[1..] == a[1..] + b;
      StreamSplit(Admitted(g, a[0]).0, a[1..], b);
    }
  }

  predicate Fits64(h: MoldHeader) { h.sequence + h.Advances() < U64_MODULUS }

  /** An epoch: packets of one session whose numbers do not run over 64 bits. */
  ghost predicate Epoch(session: Session, hs: seq<MoldHeader>) {
    forall i :: 0 <= i < |hs| ==> hs[i].session == session && Fits64(hs[i])
  }

  /** The gate has seen a packet of the session last. */
  predicate Following(g: GateState, session: Session) { g.tracker.initialized && g.tracker.session == session }

  /** The frontier that a packet meets: the expected number, or its own number if it opens an epoch. */
  function Base(g: GateState, h: MoldHeader): int { if Following(g, h.session) then g.tracker.expected else h.sequence }

  /** Where the numbers of an epoch start. */
  function Start(g: GateState, hs: seq<MoldHeader>): int { if hs == [] then g.tracker.expected else Base(g, hs[0]) }

  /** No gap bars packets of the session: the gate is valid, or the packet will start a new session. */
  predicate Live(g: GateState, session: Session) { g.valid || (g.tracker.initialized && g.tracker.session != session) }

  lemma {:induction false} StepInEpoch(g: GateState, h: MoldHeader)
    requires Fits64(h)
    ensures var g', b, d := Admitted(g, h).0, Base(g, h), Delivers(g, h);
            Following(g', h.session) && b <= g'.tracker.expected && (g'.valid ==> Live(g, h.session)) &&
            (!Live(g, h.session) ==> d == []) &&
            forall i :: 0 <= i < |d| ==> d[i] == b + i && d[i] < g'.tracker.expected
  {
    PlainNumbers(g, h);
  }

  /** Without overflow, no delivered number wraps. */
  lemma {:induction false} PlainNumbers(g: GateState, h: MoldHeader)
    requires Fits64(h)
    ensures forall i :: 0 <= i < |Delivers(g, h)| ==> Delivers(g, h)[i] == h.sequence + i
  {
    hide Admitted;
    forall i | 0 <= i < |Delivers(g, h)| ensures Delivers(g, h)[i] == h.sequence + i {
      Wrapping.WrapSmall(h.sequence + i);
    }
  }

  /** In the rest of an epoch, every packet meets the expected number. */
  lemma {:induction false} FollowingStart(g: GateState, session: Session, hs: seq<MoldHeader>)
    requires Following(g, session) && Epoch(session, hs)
    ensures Start(g, hs) == g.tracker.expected && (Live(g, session) <==> g.valid)
  {}

  ghost predicate Increasing(s: seq<int>) { forall i, j :: 0 <= i < j < |s| ==> s[i] < s[j] }

  /**
   Within an epoch, whatever the gate has seen before it, the delivered numbers strictly increase from the
   epoch's start: nothing is delivered twice or out of order.
   */
  lemma {:induction false} NoDuplicates(g: GateState, session: Session, hs: seq<MoldHeader>)
    requires Epoch(session, hs)
    ensures Increasing(DeliversAll(g, hs))
    ensures forall i :: 0 <= i < |DeliversAll(g, hs)| ==>
              Start(g, hs) <= DeliversAll(g, hs)[i] < GateAfter(g, hs).tracker.expected
    ensures Start(g, hs) <= GateAfter(g, hs).tracker.expected && (hs != [] ==> Following(GateAfter(g, hs), session))
    decreases |hs|
  {
    hide Admitted, Delivers, Following, Fits64;
    if hs != [] {
      var g' := Admitted(g, hs[0]).0;
      StepInEpoch(g, hs[0]);
      FollowingStart(g', session, hs[1..]);
      NoDuplicates(g', session, hs[1..]);
      assert hs[1..] == [] ==> GateAfter(g, hs) == g';
    }
  }

  /** After a gap nothing is delivered for the rest of the session. */
  lemma {:induction false} SilentAfterGap(g: GateState, session: Session, hs: seq<MoldHeader>)
    requires Epoch(session, hs) && !Live(g, session)
    ensures DeliversAll(g, hs) == [] && !GateAfter(g, hs).valid
    decreases |hs|
  {
    hide Admitted, Delivers, Following, Fits64;
    if hs != [] {
      StepInEpoch(g, hs[0]);
      FollowingStart(Admitted(g, hs[0]).0, session, hs[1..]);
      SilentAfterGap(Admitted(g, hs[0]).0, session, hs[1..]);
    }
  }

  /** A new session opens the gate again, whatever came before. */
  lemma {:induction false} NewSessionReopens(g: GateState, h: MoldHeader)
    requires g.tracker.initialized && h.session != g.tracker.session
    ensures Admitted(g, h).1 && Admitted(g, h).0.valid && Following(Admitted(g, h).0, h.session)
    ensures !h.EndOfSession() ==> |Delivers(g, h)| == h.count
  {}

  // ---------- Holes ----------

  predicate Between(a: int, n: int, b: int) { a <= n < b }

  function Range(a: int, b: int): set<int> { set n | a <= n < b && Between(a, n, b) }

  /** The packet starts before the frontier and ends beyond it. */
  predicate Straddles(g: GateState, h: MoldHeader) { h.sequence < Base(g, h) < h.sequence + h.Advances() }

  /** The numbers that a straddling packet moves the frontier over without delivering them. */
  function Skips(g: GateState, h: MoldHeader): set<int> {
    if Straddles(g, h) then Range(Base(g, h), h.sequence + h.Advances()) else {}
  }

  /** The numbers skipped while no gap has been seen. */
  ghost function SkipsAll(g: GateState, hs: seq<MoldHeader>): set<int>
    decreases |hs|
  {
    if hs == [] || !Admitted(g, hs[0]).0.valid then {} else Skips(g, hs[0]) + SkipsAll(Admitted(g, hs[0]).0, hs[1..])
  }

  /** The frontier when the first gap is seen, or the last one if there is no gap. */
  function Reach(g: GateState, hs: seq<MoldHeader>): int
    decreases |hs|
  {
    if hs == [] then g.tracker.expected
    else if !Admitted(g, hs[0]).0.valid then Base(g, hs[0])
    else Reach(Admitted(g, hs[0]).0, hs[1..])
  }

  ghost function Members(s: seq<int>): set<int> { set n | n in s }

  lemma {:induction false} StepCovers(g: GateState, h: MoldHeader)
    requires Fits64(h) && Admitted(g, h).0.valid
    ensures Members(Delivers(g, h)) + Skips(g, h) == Range(Base(g, h), Admitted(g, h).0.tracker.expected)
    ensures Members(Delivers(g, h)) !! Skips(g, h)
  {
    PlainNumbers(g, h);
    var d, b, e' := Delivers(g, h), Base(g, h), Admitted(g, h).0.tracker.expected;
    forall n | Between(b, n, e') ensures n in Members(d) + Skips(g, h) {
      if h.sequence == b && !h.EndOfSession() { assert d[n - b] == n; }
    }
  }

  /** The packet that shows a gap delivers nothing, and nothing after it in the epoch does. */
  lemma {:induction false} ClosedEpoch(g: GateState, session: Session, hs: seq<MoldHeader>)
    requires hs != [] && Epoch(session, hs) && !Admitted(g, hs[0]).0.valid
    ensures DeliversAll(g, hs) == [] && !GateAfter(g, hs).valid
  {
    var g' := Admitted(g, hs[0]).0;
    assert Delivers(g, hs[0]) == [];
    StepInEpoch(g, hs[0]);
    hide Admitted, Delivers;
    SilentAfterGap(g', session, hs[1..]);
  }

  /**
   Every number from the start of an epoch up to the frontier at its first gap is either delivered or skipped
   by a packet that straddles the frontier, and nothing else is delivered. So any hole among the delivered
   numbers lies in the undelivered tail of a straddling packet, in streams with a gap as well.
   */
  lemma {:induction false} Coverage(g: GateState, session: Session, hs: seq<MoldHeader>)
    requires Epoch(session, hs)
    ensures Members(DeliversAll(g, hs)) + SkipsAll(g, hs) == Range(Start(g, hs), Reach(g, hs))
    ensures Members(DeliversAll(g, hs)) !! SkipsAll(g, hs)
    ensures Start(g, hs) <= Reach(g, hs) <= GateAfter(g, hs).tracker.expected
    ensures GateAfter(g, hs).valid ==> Reach(g, hs) == GateAfter(g, hs).tracker.expected
    decreases |hs|
  {
    hide Admitted, Delivers, Following, Skips, Fits64;
    if hs != [] {
      var g', rest := Admitted(g, hs[0]).0, hs[1..];
      if !g'.valid {
        ClosedEpoch(g, session, hs);
        NoDuplicates(g, session, hs);
      } else {
        StepInEpoch(g, hs[0]);
        StepCovers(g, hs[0]);
        FollowingStart(g', session, rest);
        Coverage(g', session, rest);
        SplitRange(Start(g, hs), g'.tracker.expected, Reach(g', rest));
        assert Members(DeliversAll(g, hs)) == Members(Delivers(g, hs[0])) + Members(DeliversAll(g', rest));
      }
    }
  }

  lemma {:induction false} SplitRange(a: int, b: int, c: int)
    requires a <= b <= c
    ensures Range(a, b) + Range(b, c) == Range(a, c) && Range(a, b) !! Range(b, c)
  {
    forall n | n in Range(a, c) ensures n in Range(a, b) + Range(b, c) {
      assert Between(a, n, b) || Between(b, n, c);
    }
  }

  /** The number of a hole: between the epoch's start and a delivered number, it was skipped. */
  lemma {:induction false} HolesAreSkipped(g: GateState, session: Session, hs: seq<MoldHeader>, n: int, last: int)
    requires Epoch(session, hs) && last in DeliversAll(g, hs) && Start(g, hs) <= n < last
    ensures n in DeliversAll(g, hs) || n in SkipsAll(g, hs)
  {
    Coverage(g, session, hs);
    assert last in Members(DeliversAll(g, hs));
    assert Between(Start(g, hs), n, Reach(g, hs));
    assert n in Members(DeliversAll(g, hs)) + SkipsAll(g, hs);
  }

  /** No packet that arrives before the first gap straddles the frontier. */
  predicate NoStraddling(g: GateState, hs: seq<MoldHeader>)
    decreases |hs|
  {
    hs == [] || (Admitted(g, hs[0]).0.valid ==> !Straddles(g, hs[0]) && NoStraddling(Admitted(g, hs[0]).0, hs[1..]))
  }

  function Consecutive(from: int, to: int): seq<int> { if from < to then seq(to - from, i => from + i) else [] }

  /**
   An epoch delivers every number from its start up to the frontier at its first gap, one after the other,
   exactly when no packet before that gap straddles the frontier.
   */
  lemma {:induction false} ContiguousExactly(g: GateState, session: Session, hs: seq<MoldHeader>)
    requires Epoch(session, hs)
    ensures DeliversAll(g, hs) == Consecutive(Start(g, hs), Reach(g, hs)) <==> NoStraddling(g, hs)
  {
    hide Admitted, Delivers, Base;
    Coverage(g, session, hs);
    NoSkips(g, session, hs);
    NoDuplicates(g, session, hs);
    ConsecutiveMembers(Start(g, hs), Reach(g, hs), DeliversAll(g, hs));
  }

  lemma {:induction false} NoSkips(g: GateState, session: Session, hs: seq<MoldHeader>)
    requires Epoch(session, hs)
    ensures SkipsAll(g, hs) == {} <==> NoStraddling(g, hs)
    decreases |hs|
  {
    hide Admitted, Following, Fits64, Base;
    if hs != [] {
      assert Straddles(g, hs[0]) ==> Between(Base(g, hs[0]), Base(g, hs[0]), hs[0].sequence + hs[0].Advances());
      assert Straddles(g, hs[0]) ==> Base(g, hs[0]) in Skips(g, hs[0]);
      NoSkips(Admitted(g, hs[0]).0, session, hs[1..]);
    }
  }

  /** An increasing sequence with exactly the members of a range counts through it. */
  lemma {:induction false} ConsecutiveMembers(a: int, b: int, s: seq<int>)
    requires Increasing(s)
    ensures s == Consecutive(a, b) <==> Members(s) == Range(a, b)
  {
    var c := Consecutive(a, b);
    forall n | Between(a, n, b) ensures n in c {
      assert c[n - a] == n;
    }
    assert Members(c) == Range(a, b);
    if Members(s) == Range(a, b) {
      assert Increasing(c);
      IncreasingUnique(s, c);
    }
  }

  lemma {:induction false} HasMember(s: seq<int>)
    ensures Members(s) == {} <==> s == []
  {
    if s != [] { assert s[0] in Members(s); }
  }

  lemma {:induction false} IncreasingUnique(s: seq<int>, t: seq<int>)
    requires Increasing(s) && Increasing(t) && Members(s) == Members(t)
    ensures s == t
    decreases |s|
  {
    HasMember(s);
    HasMember(t);
    if s != [] {
      assert s[0] in Members(t);
      assert t[0] in Members(s);
      var i :| 0 <= i < |t| && t[i] == s[0];
      var j :| 0 <= j < |s| && s[j] == t[0];
      assert i == 0 && j == 0;
      assert Members(s[1..]) == Members(s) - {s[0]} && Members(t[1..]) == Members(t) - {t[0]};
      IncreasingUnique(s[1..], t[1..]);
    }
  }

  /**
   A straddling rewind loses messages: 1 and 2 arrive, then 2..4 is refused, then 5 is delivered; 3 and 4
   never are, although no gap is reported, nothing is counted missing and the gate stays open.
   */
  lemma {:induction false} StraddlingLoses()
    ensures var h := (n: u64, c: u16) => MoldHeader(NO_SESSION, n, c);
            var hs := [h(1, 2), h(2, 3), h(5, 1)];
            var g := GateAfter(OPEN, hs);
            Epoch(NO_SESSION, hs) && DeliversAll(OPEN, hs) == [1, 2, 5] && !NoStraddling(OPEN, hs) &&
            g.gaps == 0 && g.missing == 0 && g.valid && g.rewinds == 1 && g.tracker.expected == 6
  {
    var a, b, c := MoldHeader(NO_SESSION, 1, 2), MoldHeader(NO_SESSION, 2, 3), MoldHeader(NO_SESSION, 5, 1);
    var g1 := Admitted(OPEN, a).0;
    var g2 := Admitted(g1, b).0;
    assert Delivers(OPEN, a) == [1, 2];
    assert Delivers(g1, b) == [];
    assert Delivers(g2, c) == [5];
    assert Straddles(g1, b) && g1.valid && g2.valid;
    ThreePackets(OPEN, a, b, c);
  }

  lemma {:induction false} ThreePackets(g: GateState, a: MoldHeader, b: MoldHeader, c: MoldHeader)
    ensures var g1 := Admitted(g, a).0;
            var g2 := Admitted(g1, b).0;
            DeliversAll(g, [a, b, c]) == Delivers(g, a) + Delivers(g1, b) + Delivers(g2, c) &&
            GateAfter(g, [a, b, c]) == Admitted(g2, c).0 &&
            (g1.valid && g2.valid && Straddles(g1, b) ==> !NoStraddling(g, [a, b, c]))
  {
    hide Admitted, Delivers, Straddles;
    var g1 := Admitted(g, a).0;
    var g2 := Admitted(g1, b).0;
    assert [a, b, c][1..] == [b, c] && [b, c][1..] == [c] && [c][1..] == [];
    assert DeliversAll(g2, [c]) == Delivers(g2, c) + DeliversAll(Admitted(g2, c).0, []);
    assert DeliversAll(g1, [b, c]) == Delivers(g1, b) + Delivers(g2, c);
    assert GateAfter(g2, [c]) == GateAfter(Admitted(g2, c).0, []);
    assert GateAfter(g1, [b, c]) == GateAfter(g2, [c]);
  }

  // ---------- The frontier ----------

  /** How far a packet moves the frontier beyond what it reports missing. */
  function Progress(g: GateState, h: MoldHeader): int {
    Max(0, h.sequence + h.Advances() - Max(Base(g, h), h.sequence))
  }

  function Missing(g: GateState, h: MoldHeader): int { Max(0, h.sequence - Base(g, h)) }

  function FrontierMoves(g: GateState, hs: seq<MoldHeader>): int
    decreases |hs|
  {
    if hs == [] then 0 else Progress(g, hs[0]) + Missing(g, hs[0]) + FrontierMoves(Admitted(g, hs[0]).0, hs[1..])
  }

  function AllMissing(g: GateState, hs: seq<MoldHeader>): int
    decreases |hs|
  {
    if hs == [] then 0 else Missing(g, hs[0]) + AllMissing(Admitted(g, hs[0]).0, hs[1..])
  }

  /**
   Over an epoch, its opening packet included, the frontier moves by what packets cover beyond it plus what
   is reported missing, which the statistics add up.
   */
  lemma {:induction false} FrontierAccounts(g: GateState, session: Session, hs: seq<MoldHeader>)
    requires Epoch(session, hs)
    ensures GateAfter(g, hs).tracker.expected == Start(g, hs) + FrontierMoves(g, hs)
    ensures GateAfter(g, hs).missing == Wrap64(g.missing + AllMissing(g, hs))
    decreases |hs|
  {
    hide Following, Wrap64, Admitted, Progress, Missing, Fits64;
    if hs == [] {
      SmallWrap(g.missing);
    } else {
      var g' := Admitted(g, hs[0]).0;
      StepInEpoch(g, hs[0]);
      StepFrontier(g, hs[0]);
      FollowingStart(g', session, hs[1..]);
      FrontierAccounts(g', session, hs[1..]);
      Wrapping.WrapSum(g.missing + Missing(g, hs[0]), AllMissing(g', hs[1..]));
    }
  }

  lemma {:induction false} SmallWrap(x: u64)
    ensures Wrap64(x + 0) == x
  {}

  lemma {:induction false} StepFrontier(g: GateState, h: MoldHeader)
    requires Fits64(h)
    ensures Admitted(g, h).0.tracker.expected == Base(g, h) + Progress(g, h) + Missing(g, h)
    ensures Admitted(g, h).0.missing == Wrap64(g.missing + Missing(g, h))
  {}
}
