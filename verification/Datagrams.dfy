/** MoldUDP64 datagrams by their bytes: the header's fields, each error's exact cause, and what the statistics count. */
module Datagrams {
  import opened Types
  import opened Bytes
  import opened Sequencing
  import opened Mold
  import opened Capture
  import opened CaptureGate
  import opened Framing
  import WireTable
  import FrameCounts
  import Wrapping

  function TwoBytesAt(b: seq<u8>, i: nat): nat
    requires i + 2 <= |b|
  {
    b[i] as int * 256 + b[i + 1]
  }

  /** The position after the message whose length prefix is at p, or -1 if the bytes end before that. */
  function Next(rest: seq<u8>, p: int): int {
    if p >= 0 && p + 2 <= |rest| && p + 2 + TwoBytesAt(rest, p) <= |rest| then p + 2 + TwoBytesAt(rest, p) else -1
  }

  /** The position after k messages, or -1. */
  function Walk(rest: seq<u8>, k: nat): int { if k == 0 then 0 else Next(rest, Walk(rest, k - 1)) }

  /** Fewer than two bytes are left for the length of the message with index k. */
  predicate LengthCut(rest: seq<u8>, k: nat) { Walk(rest, k) >= 0 && Walk(rest, k) + 2 > |rest| }

  /** The message with index k is longer than what is left. */
  predicate MessageCut(rest: seq<u8>, k: nat) {
    var p := Walk(rest, k); p >= 0 && p + 2 <= |rest| && p + 2 + TwoBytesAt(rest, p) > |rest|
  }

  lemma {:induction false} LengthIs(rest: seq<u8>)
    requires |rest| >= 2
    ensures FromBytes(rest[..2]) == TwoBytesAt(rest, 0)
  {
    FrameCounts.DeclaredIs(rest);
  }

  /** Walking on from behind the first message. */
  lemma {:induction false} WalkOn(rest: seq<u8>, k: nat)
    requires Next(rest, 0) >= 0
    ensures var w := Next(rest, 0);
            0 <= w <= |rest| && Walk(rest, k + 1) == if Walk(rest[w..], k) < 0 then -1 else w + Walk(rest[w..], k)
  {
    var w := Next(rest, 0);
    var tail := rest[w..];
    if k > 0 {
      WalkOn(rest, k - 1);
      var p := Walk(tail, k - 1);
      assert p >= 0 && p + 2 <= |tail| ==> tail[p] == rest[w + p] && tail[p + 1] == rest[w + p + 1];
    }
  }

  lemma {:induction false} WalkWithin(rest: seq<u8>, k: nat)
    ensures -1 <= Walk(rest, k) <= |rest|
  {}

  lemma {:induction false} CutsOn(rest: seq<u8>, k: nat)
    requires Next(rest, 0) >= 0
    ensures var w := Next(rest, 0);
            0 <= w <= |rest| && (LengthCut(rest, k + 1) <==> LengthCut(rest[w..], k)) &&
            (MessageCut(rest, k + 1) <==> MessageCut(rest[w..], k))
  {
    var w := Next(rest, 0);
    var tail := rest[w..];
    WalkOn(rest, k);
    var p := Walk(tail, k);
    assert p >= 0 && p + 2 <= |tail| ==> tail[p] == rest[w + p] && tail[p + 1] == rest[w + p + 1];
    hide Walk;
  }

  ghost predicate SomeLengthCut(rest: seq<u8>, n: nat) { exists k: nat :: k < n && LengthCut(rest, k) }

  ghost predicate SomeMessageCut(rest: seq<u8>, n: nat) { exists k: nat :: k < n && MessageCut(rest, k) }

  lemma {:induction false} FirstCut(rest: seq<u8>, n: nat)
    requires n > 0
    ensures Next(rest, 0) < 0 ==>
      (SomeLengthCut(rest, n) <==> LengthCut(rest, 0)) && (SomeMessageCut(rest, n) <==> MessageCut(rest, 0)) &&
      Walk(rest, n) < 0
    ensures Next(rest, 0) >= 0 ==>
      Next(rest, 0) <= |rest| && (SomeLengthCut(rest, n) <==> SomeLengthCut(rest[Next(rest, 0)..], n - 1)) &&
      (SomeMessageCut(rest, n) <==> SomeMessageCut(rest[Next(rest, 0)..], n - 1))
  {
    hide Next, TwoBytesAt, LengthCut, MessageCut;
    if Next(rest, 0) < 0 {
      forall k: nat | 0 < k ensures Walk(rest, k) < 0 && !LengthCut(rest, k) && !MessageCut(rest, k) {
        Stuck(rest, k);
      }
    } else {
      WalkOn(rest, 0);
      forall k: nat
        ensures (LengthCut(rest, k + 1) <==> LengthCut(rest[Next(rest, 0)..], k)) &&
                (MessageCut(rest, k + 1) <==> MessageCut(rest[Next(rest, 0)..], k))
      {
        CutsOn(rest, k);
      }
      Uncut(rest);
      ShiftCuts(rest, rest[Next(rest, 0)..], n);
    }
  }

  lemma {:induction false} Stuck(rest: seq<u8>, k: nat)
    requires k > 0 && Next(rest, 0) < 0
    ensures Walk(rest, k) < 0 && !LengthCut(rest, k) && !MessageCut(rest, k)
  {
    if k > 1 { Stuck(rest, k - 1); }
  }

  lemma {:induction false} Uncut(rest: seq<u8>)
    requires Next(rest, 0) >= 0
    ensures !LengthCut(rest, 0) && !MessageCut(rest, 0)
  {}

  lemma {:induction false} ShiftCuts(rest: seq<u8>, tail: seq<u8>, n: nat)
    requires n > 0 && !LengthCut(rest, 0) && !MessageCut(rest, 0)
    requires forall k: nat ::
               (LengthCut(rest, k + 1) <==> LengthCut(tail, k)) && (MessageCut(rest, k + 1) <==> MessageCut(tail, k))
    ensures SomeLengthCut(rest, n) <==> SomeLengthCut(tail, n - 1)
    ensures SomeMessageCut(rest, n) <==> SomeMessageCut(tail, n - 1)
  {
    hide LengthCut, MessageCut;
    if SomeLengthCut(rest, n) {
      var k: nat :| k < n && LengthCut(rest, k);
      assert LengthCut(rest, (k - 1) + 1) && LengthCut(tail, k - 1);
    }
    if SomeMessageCut(rest, n) {
      var k: nat :| k < n && MessageCut(rest, k);
      assert MessageCut(rest, (k - 1) + 1) && MessageCut(tail, k - 1);
    }
    if SomeLengthCut(tail, n - 1) {
      var k: nat :| k < n - 1 && LengthCut(tail, k);
      assert LengthCut(rest, k + 1);
    }
    if SomeMessageCut(tail, n - 1) {
      var k: nat :| k < n - 1 && MessageCut(tail, k);
      assert MessageCut(rest, k + 1);
    }
  }

  /** The messages fill the datagram exactly, or the first thing that is wrong gives the error. */
  lemma {:induction false} SplitExactly(rest: seq<u8>, n: nat)
    ensures var e := Split(rest, n).error;
            (e == NoError <==> Walk(rest, n) == |rest|) && (e == TrailingBytes <==> 0 <= Walk(rest, n) < |rest|) &&
            (e == TruncatedMessageLength <==> SomeLengthCut(rest, n)) &&
            (e == TruncatedMessage <==> SomeMessageCut(rest, n))
    decreases n
  {
    hide FromBytes, SomeLengthCut, SomeMessageCut, LengthCut, MessageCut, Walk;
    if n == 0 {
      NoCuts(rest);
    } else {
      FirstCut(rest, n);
      if |rest| >= 2 { LengthIs(rest); }
      FirstCuts(rest);
      var w := Next(rest, 0);
      if w >= 0 {
        var tail := rest[w..];
        SplitExactly(tail, n - 1);
        WalkOn(rest, n - 1);
        WalkWithin(tail, n - 1);
      }
    }
  }

  lemma {:induction false} FirstCuts(rest: seq<u8>)
    ensures LengthCut(rest, 0) <==> |rest| < 2
    ensures MessageCut(rest, 0) <==> |rest| >= 2 && 2 + TwoBytesAt(rest, 0) > |rest|
  {}

  lemma {:induction false} NoCuts(rest: seq<u8>)
    ensures Walk(rest, 0) == 0 && !SomeLengthCut(rest, 0) && !SomeMessageCut(rest, 0)
  {}

  // ---------- Whole datagrams ----------

  /** The header's three fields. */
  lemma {:induction false} HeaderExactly(packet: seq<u8>)
    requires |packet| >= 20
    ensures var h := HeaderOf(packet);
            h.session == packet[..10] && h.sequence == WireTable.Value(packet[10..18]) &&
            h.count == TwoBytesAt(packet, 18)
  {
    WireTable.ValueIs(packet[10..18]);
    LengthIs(packet[18..20]);
    assert packet[18..20][..2] == packet[18..20];
    hide FromBytes, WireTable.Value;
  }

  /** A datagram without messages: a heartbeat, or the end of a session. */
  predicate Control(packet: seq<u8>)
    requires |packet| >= 20
  {
    TwoBytesAt(packet, 18) == 0 || TwoBytesAt(packet, 18) == 0xffff
  }

  /** Each error of a datagram has exactly one cause, and a datagram without one decodes. */
  lemma {:induction false} ErrorExactly(packet: seq<u8>, g: GateState)
    ensures var e := DecodeSpec(packet, g).result.error;
            (e == HeaderTooShort <==> |packet| < 20) &&
            (e == InvalidControlPacket <==> |packet| > 20 && Control(packet)) &&
            (|packet| >= 20 && !Control(packet) ==>
               var rest, n := packet[20..], TwoBytesAt(packet, 18);
               (e == TruncatedMessageLength <==> SomeLengthCut(rest, n)) &&
               (e == TruncatedMessage <==> SomeMessageCut(rest, n)) &&
               (e == TrailingBytes <==> 0 <= Walk(rest, n) < |rest|) && (e == NoError <==> Walk(rest, n) == |rest|)) &&
            (|packet| == 20 && Control(packet) ==> e == NoError)
  {
    hide HeaderOf, Admitted, Split, SomeLengthCut, SomeMessageCut, Walk;
    if |packet| >= 20 {
      HeaderExactly(packet);
      SplitExactly(packet[20..], HeaderOf(packet).count);
      SplitErrors(packet[20..], HeaderOf(packet).count);
    }
  }

  lemma {:induction false} SplitErrors(rest: seq<u8>, n: nat)
    ensures Split(rest, n).error != HeaderTooShort && Split(rest, n).error != InvalidControlPacket
    decreases n
  {
    hide FromBytes;
    if n > 0 && |rest| >= 2 && |rest| - 2 >= FromBytes(rest[..2]) {
      SplitErrors(rest[2 + FromBytes(rest[..2])..], n - 1);
    }
  }

  // ---------- The statistics of a capture ----------

  function HowMany(hs: seq<MoldHeader>, kind: MoldHeader -> bool): nat {
    if hs == [] then 0 else (if kind(hs[0]) then 1 else 0) + HowMany(hs[1..], kind)
  }

  predicate IsHeartbeat(h: MoldHeader) { h.count == 0 }

  predicate IsEnd(h: MoldHeader) { h.count == 0xffff }

  /** The message counts of all headers but those that end a session. */
  function Announced(hs: seq<MoldHeader>): nat {
    if hs == [] then 0 else (if hs[0].count == 0xffff then 0 else hs[0].count) + Announced(hs[1..])
  }

  /** The datagrams that do not decode. */
  function Broken(packets: seq<seq<u8>>): nat {
    if packets == [] then 0 else (if WellFormed(packets[0]) then 0 else 1) + Broken(packets[1..])
  }

  function Added(s: PacketStats, packets: seq<seq<u8>>): PacketStats {
    var hs := Headers(packets);
    PacketStats(Wrap64(s.errors + Broken(packets)), Wrap64(s.packets + |hs|), Wrap64(s.messages + Announced(hs)),
                Wrap64(s.heartbeats + HowMany(hs, IsHeartbeat)), Wrap64(s.endsOfSession + HowMany(hs, IsEnd)))
  }

  lemma {:induction false} CountedOnce(s: PacketStats, packet: seq<u8>, g: GateState)
    ensures PacketCounted(s, DecodeSpec(packet, g).result) == Added(s, [packet])
  {
    hide Split, HeaderOf, Admitted, Added, Wrap64;
    PacketDelivers(packet, g);
    AddedOne(s, packet);
  }

  /** The headers and the broken datagrams of a list, one datagram at a time. */
  lemma {:induction false} HeadersCons(packet: seq<u8>, rest: seq<seq<u8>>)
    ensures var one, hs := if WellFormed(packet) then [HeaderOf(packet)] else [], Headers(rest);
            Headers([packet]) == one && Headers([packet] + rest) == one + hs &&
            Broken([packet] + rest) == Broken([packet]) + Broken(rest) &&
            Broken([packet]) == if WellFormed(packet) then 0 else 1
  {
    hide HeaderOf, Split;
    var all := [packet] + rest;
    assert all[0] == packet && all[1..] == rest && [packet][1..] == [] && Headers([]) == [] && Broken([]) == 0;
  }

  lemma {:induction false} AddedOne(s: PacketStats, packet: seq<u8>)
    ensures Added(s, [packet]) ==
            if !WellFormed(packet) then s.(errors := Wrap64(s.errors + 1))
            else
              var h := HeaderOf(packet);
              PacketStats(s.errors, Wrap64(s.packets + 1),
                          if h.count == 0xffff then s.messages else Wrap64(s.messages + h.count),
                          if h.count == 0 then Wrap64(s.heartbeats + 1) else s.heartbeats,
                          if h.count == 0xffff then Wrap64(s.endsOfSession + 1) else s.endsOfSession)
  {
    hide Split, HeaderOf, Wrap64, Headers, Broken;
    Same(s);
    HeadersCons(packet, []);
    if WellFormed(packet) {
      var h := HeaderOf(packet);
      assert [h][1..] == [];
      assert Announced([h]) == (if h.count == 0xffff then 0 else h.count) + Announced([]);
      assert HowMany([h], IsHeartbeat) == (if h.count == 0 then 1 else 0) + HowMany([], IsHeartbeat);
      assert HowMany([h], IsEnd) == (if h.count == 0xffff then 1 else 0) + HowMany([], IsEnd);
    }
  }

  lemma {:induction false} Same(s: PacketStats)
    ensures Wrap64(s.errors + 0) == s.errors && Wrap64(s.packets + 0) == s.packets
    ensures Wrap64(s.messages + 0) == s.messages && Wrap64(s.heartbeats + 0) == s.heartbeats
    ensures Wrap64(s.endsOfSession + 0) == s.endsOfSession
  {}

  lemma {:induction false} Additive(a: seq<MoldHeader>, b: seq<MoldHeader>, kind: MoldHeader -> bool)
    ensures HowMany(a + b, kind) == HowMany(a, kind) + HowMany(b, kind)
    ensures Announced(a + b) == Announced(a) + Announced(b)
    decreases |a|
  {
    if a == [] {
      assert a + b == b;
    } else {
      assert (a + b)[1..] == a[1..] + b;
      Additive(a[1..], b, kind);
    }
  }

  lemma {:induction false} AddedTwice(s: PacketStats, packet: seq<u8>, rest: seq<seq<u8>>)
    ensures Added(Added(s, [packet]), rest) == Added(s, [packet] + rest)
  {
    hide Wrap64, HeaderOf, Split, Headers, Broken;
    var one, hs := Headers([packet]), Headers(rest);
    HeadersCons(packet, rest);
    Additive(one, hs, IsHeartbeat);
    Additive(one, hs, IsEnd);
    hide HowMany, Announced;
    Wrapping.WrapSum(s.errors + Broken([packet]), Broken(rest));
    Wrapping.WrapSum(s.packets + |one|, |hs|);
    Wrapping.WrapSum(s.messages + Announced(one), Announced(hs));
    Wrapping.WrapSum(s.heartbeats + HowMany(one, IsHeartbeat), HowMany(hs, IsHeartbeat));
    Wrapping.WrapSum(s.endsOfSession + HowMany(one, IsEnd), HowMany(hs, IsEnd));
  }

  /** What every statistic of a capture counts, by the bytes of its datagrams. */
  lemma {:induction false} StatisticsExactly(p: Progress, packets: seq<seq<u8>>)
    ensures ReceivedAll(p, packets).packets == Added(p.packets, packets)
    decreases |packets|
  {
    hide Added, PacketCounted, DecodeSpec, ParseAll;
    if packets == [] {
      AddedNone(p.packets);
    } else {
      CountedOnce(p.packets, packets[0], p.gate);
      StatisticsExactly(Received(p, packets[0]), packets[1..]);
      AddedTwice(p.packets, packets[0], packets[1..]);
      assert [packets[0]] + packets[1..] == packets;
    }
  }

  lemma {:induction false} AddedNone(s: PacketStats)
    ensures Added(s, []) == s
  {
    Same(s);
  }

  /** What the decoder counters of a capture count: the payloads delivered, by their bytes. */
  lemma {:induction false} PayloadsCounted(packets: seq<seq<u8>>)
    ensures var q, delivered := ReceivedAll(AT_START, packets), Payloads(DeliveriesOf(OPEN, packets));
            q.parsed == FrameCounts.Counts(delivered) && FrameCounts.Meanings(delivered, q.messages)
  {
    hide ReceivedAll, DeliveriesOf, Payloads, ParseAll, FrameCounts.HowMany, FrameCounts.Meanings, Wrap64;
    var delivered := Payloads(DeliveriesOf(OPEN, packets));
    CaptureParsesDeliveries(AT_START, packets);
    FrameCounts.CountsExactly(NO_COUNTS, delivered);
    assert AT_START.messages + ParseAll(NO_COUNTS, delivered).1 == ParseAll(NO_COUNTS, delivered).1;
  }
}
