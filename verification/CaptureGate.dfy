/** What the sequence gate guarantees about the datagrams of a capture, malformed ones included. */
module CaptureGate {
  import opened Types
  import opened Framing
  import opened Sequencing
  import opened Mold
  import opened Capture
  import opened Epochs

  /** The datagram decodes; that does not depend on the gate. */
  predicate WellFormed(packet: seq<u8>) {
    |packet| >= HEADER_SIZE &&
    var h := HeaderOf(packet);
    if h.Heartbeat() || h.EndOfSession() then |packet| == HEADER_SIZE
    else Split(packet[HEADER_SIZE..], h.count).error == NoError
  }

  /** The headers of the datagrams that decode. */
  function Headers(packets: seq<seq<u8>>): seq<MoldHeader> {
    if packets == [] then []
    else (if WellFormed(packets[0]) then [HeaderOf(packets[0])] else []) + Headers(packets[1..])
  }

  /** Everything delivered from a list of datagrams, in order. */
  function DeliveriesOf(g: GateState, packets: seq<seq<u8>>): seq<Delivery>
    decreases |packets|
  {
    if packets == [] then []
    else DecodeSpec(packets[0], g).delivered + DeliveriesOf(DecodeSpec(packets[0], g).gate, packets[1..])
  }

  function NumbersOf(ds: seq<Delivery>): seq<int> { seq(|ds|, i requires 0 <= i < |ds| => ds[i].sequence) }

  /** A datagram that decodes meets the gate once and delivers what the gate lets through; another one does nothing. */
  lemma {:induction false} PacketDelivers(packet: seq<u8>, g: GateState)
    ensures var d := DecodeSpec(packet, g);
            if WellFormed(packet) then
              d.result.error == NoError && d.gate == Admitted(g, HeaderOf(packet)).0 &&
              NumbersOf(d.delivered) == Delivers(g, HeaderOf(packet))
            else d.result.error != NoError && d.gate == g && d.delivered == []
  {
    hide Admitted, Split, HeaderOf;
    if |packet| >= HEADER_SIZE {
      SplitCount(packet[HEADER_SIZE..], HeaderOf(packet).count);
    }
  }

  lemma {:induction false} ParseConcat(s: DecoderStats, a: seq<seq<u8>>, b: seq<seq<u8>>)
    ensures ParseAll(s, a + b) == (ParseAll(ParseAll(s, a).0, b).0, ParseAll(s, a).1 + ParseAll(ParseAll(s, a).0, b).1)
    decreases |a|
  {
    hide Wire.Parse, Tally, Emitted;
    if a == [] {
      assert a + b == b;
      assert [] + ParseAll(s, b).1 == ParseAll(s, b).1;
    } else {
      assert (a + b)[1..] == a[1..] + b;
      var r := Wire.Parse(a[0]);
      ParseConcat(Tally(s, r), a[1..], b);
      var mid := ParseAll(Tally(s, r), a[1..]);
      assert Emitted(r) + (mid.1 + ParseAll(mid.0, b).1) == (Emitted(r) + mid.1) + ParseAll(mid.0, b).1;
    }
  }

  /** A capture's gate and delivered numbers are those of the headers that decode. */
  lemma {:induction false} CaptureFollowsGate(p: Progress, packets: seq<seq<u8>>)
    ensures var hs, ds := Headers(packets), DeliveriesOf(p.gate, packets);
            ReceivedAll(p, packets).gate == GateAfter(p.gate, hs) && NumbersOf(ds) == DeliversAll(p.gate, hs)
    decreases |packets|
  {
    hide DecodeSpec, Admitted, Delivers, ParseAll, PacketCounted, Split, HeaderOf, Payloads;
    if packets != [] {
      var d, rest := DecodeSpec(packets[0], p.gate), packets[1..];
      PacketDelivers(packets[0], p.gate);
      CaptureFollowsGate(Received(p, packets[0]), rest);
      var more := DeliveriesOf(d.gate, rest);
      assert NumbersOf(d.delivered + more) == NumbersOf(d.delivered) + NumbersOf(more);
      FirstHeader(packets, p.gate);
    }
  }

  /** The messages and counters of a capture are what its deliveries parse to. */
  lemma {:induction false} CaptureParsesDeliveries(p: Progress, packets: seq<seq<u8>>)
    ensures var q, r := ReceivedAll(p, packets), ParseAll(p.parsed, Payloads(DeliveriesOf(p.gate, packets)));
            q.parsed == r.0 && q.messages == p.messages + r.1
    decreases |packets|
  {
    hide DecodeSpec, ParseAll, PacketCounted;
    if packets == [] {
      NothingParsed(p.parsed);
      assert p.messages + [] == p.messages && Payloads([]) == [];
    } else {
      var d, rest := DecodeSpec(packets[0], p.gate), packets[1..];
      CaptureParsesDeliveries(Received(p, packets[0]), rest);
      var more := DeliveriesOf(d.gate, rest);
      assert Payloads(d.delivered + more) == Payloads(d.delivered) + Payloads(more);
      ParseConcat(p.parsed, Payloads(d.delivered), Payloads(more));
      var a := ParseAll(p.parsed, Payloads(d.delivered));
      var b := ParseAll(a.0, Payloads(more));
      assert (p.messages + a.1) + b.1 == p.messages + (a.1 + b.1);
    }
  }

  lemma {:induction false} NothingParsed(s: DecoderStats)
    ensures ParseAll(s, []) == (s, [])
  {}

  lemma {:induction false} FirstHeader(packets: seq<seq<u8>>, g: GateState)
    requires packets != []
    ensures var hs, rest := Headers(packets), Headers(packets[1..]);
            if WellFormed(packets[0]) then
              GateAfter(g, hs) == GateAfter(Admitted(g, HeaderOf(packets[0])).0, rest) &&
              DeliversAll(g, hs) ==
              Delivers(g, HeaderOf(packets[0])) + DeliversAll(Admitted(g, HeaderOf(packets[0])).0, rest)
            else hs == rest
  {
    hide Split, Admitted, Delivers, HeaderOf;
    if WellFormed(packets[0]) {
      assert Headers(packets)[0] == HeaderOf(packets[0]) && Headers(packets)[1..] == Headers(packets[1..]);
    }
  }

  lemma {:induction false} ReceivedConcat(p: Progress, a: seq<seq<u8>>, b: seq<seq<u8>>)
    ensures ReceivedAll(p, a + b) == ReceivedAll(ReceivedAll(p, a), b)
    decreases |a|
  {
    hide Received;
    if a == [] {
      assert a + b == b;
    } else {
      assert (a + b)[1..] == a[1..] + b;
      ReceivedConcat(Received(p, a[0]), a[1..], b);
    }
  }

  /**
   The gate over a whole capture. After any datagrams `before`, an epoch of datagrams (the first of a session
   included, and malformed ones in between) hands on what its deliveries parse to; the delivered numbers
   strictly increase; up to the frontier at the first gap they and the straddled numbers tile the range; they
   are consecutive exactly when nothing straddles; and the frontier moves by progress plus what is missing.
   Delivered numbers, gaps, rewinds and missing messages are those of the fold over the frontier.
   */
  lemma {:induction false} CaptureEpoch(before: seq<seq<u8>>, packets: seq<seq<u8>>, session: Session)
    requires Epoch(session, Headers(packets))
    ensures var p, q := ReceivedAll(AT_START, before), ReceivedAll(AT_START, before + packets);
            var g, hs, ds := p.gate, Headers(packets), DeliveriesOf(p.gate, packets);
            var ns := NumbersOf(ds);
            q.messages == p.messages + ParseAll(p.parsed, Payloads(ds)).1 && Increasing(ns) &&
            Members(ns) + SkipsAll(g, hs) == Range(Start(g, hs), Reach(g, hs)) && Members(ns) !! SkipsAll(g, hs) &&
            (ns == Consecutive(Start(g, hs), Reach(g, hs)) <==> NoStraddling(g, hs)) &&
            q.gate.tracker.expected == Start(g, hs) + FrontierMoves(g, hs) &&
            q.gate.missing == Wrap64(g.missing + AllMissing(g, hs))
    ensures var p, q := ReceivedAll(AT_START, before), ReceivedAll(AT_START, before + packets);
            var g, hs, f := p.gate, Headers(packets), Origin(p.gate, session, Headers(packets));
            NumbersOf(DeliveriesOf(g, packets)) == Taken(f, StartsOpen(g, session), hs) &&
            q.gate.gaps == Wrap64(g.gaps + Above(f, hs)) && q.gate.rewinds == Wrap64(g.rewinds + Below(f, hs)) &&
            q.gate.missing == Wrap64(g.missing + Shortfall(f, hs)) && (Shortfall(f, hs) == 0 <==> Above(f, hs) == 0)
  {
    hide Received, ReceivedAll, Headers, DeliveriesOf, NumbersOf, ParseAll, Payloads, GateAfter, DeliversAll, SkipsAll,
         Reach, Start, NoStraddling, FrontierMoves, AllMissing, Range, Members, Consecutive, Increasing, Epoch, Wrap64,
         Origin, StartsOpen, Taken, Above, Below, Shortfall;
    var p, hs := ReceivedAll(AT_START, before), Headers(packets);
    ReceivedConcat(AT_START, before, packets);
    CaptureFollowsGate(p, packets);
    CaptureParsesDeliveries(p, packets);
    NoDuplicates(p.gate, session, hs);
    Coverage(p.gate, session, hs);
    ContiguousExactly(p.gate, session, hs);
    FrontierAccounts(p.gate, session, hs);
    EpochExactly(p.gate, session, hs);
    MissingWithGaps(Origin(p.gate, session, hs), hs);
  }
}
