/** Decoding the UDP payloads of a capture into messages: datagrams, the sequence gate, the parser. */
module Capture {
  import opened Types
  import opened Messages
  import opened Wire
  import opened Encoding
  import opened Sequencing
  import opened Mold
  import opened MoldDecoders
  import opened Framing
  import Wrapping

  datatype PacketStats = PacketStats(errors: u64, packets: u64, messages: u64, heartbeats: u64, endsOfSession: u64)

  const NO_PACKETS: PacketStats := PacketStats(0, 0, 0, 0, 0)

  function PacketCounted(s: PacketStats, r: MoldResult): PacketStats {
    if r.error != NoError then s.(errors := Wrap64(s.errors + 1))
    else
      var h := r.header;
      PacketStats(s.errors, Wrap64(s.packets + 1),
                  if h.EndOfSession() then s.messages else Wrap64(s.messages + h.count),
                  if h.Heartbeat() then Wrap64(s.heartbeats + 1) else s.heartbeats,
                  if h.EndOfSession() then Wrap64(s.endsOfSession + 1) else s.endsOfSession)
  }

  /** The state of a capture under way, and the messages handed on so far. */
  datatype Progress = Progress(gate: GateState, packets: PacketStats, parsed: DecoderStats, messages: seq<Message>)

  const AT_START: Progress := Progress(OPEN, NO_PACKETS, NO_COUNTS, [])

  function Payloads(ds: seq<Delivery>): seq<seq<u8>> { seq(|ds|, i requires 0 <= i < |ds| => ds[i].bytes) }

  function Received(p: Progress, packet: seq<u8>): Progress {
    var d := DecodeSpec(packet, p.gate);
    var (parsed, messages) := ParseAll(p.parsed, Payloads(d.delivered));
    Progress(d.gate, PacketCounted(p.packets, d.result), parsed, p.messages + messages)
  }

  function ReceivedAll(p: Progress, packets: seq<seq<u8>>): Progress
    decreases |packets|
  {
    if packets == [] then p else ReceivedAll(Received(p, packets[0]), packets[1..])
  }

  /** Parses what a datagram delivered; the callback of the capture loop. */
  method ParseDelivered(start: DecoderStats, ds: seq<Delivery>) returns (stats: DecoderStats, messages: seq<Message>)
    ensures (stats, messages) == ParseAll(start, Payloads(ds))
  {
    hide Parse, Tally;
    stats, messages := start, [];
    ghost var all := Payloads(ds);
    assert all[0..] == all && [] + ParseAll(start, all).1 == ParseAll(start, all).1;
    for i := 0 to |ds|
      invariant ParseAll(start, all) == (ParseAll(stats, all[i..]).0, messages + ParseAll(stats, all[i..]).1)
    {
      assert all[i..][0] == ds[i].bytes && all[i..][1..] == all[i + 1..];
      var result, _ := ParseMessage(ds[i].bytes);
      ghost var rest := ParseAll(Tally(stats, result), all[i + 1..]).1;
      assert messages + (Emitted(result) + rest) == (messages + Emitted(result)) + rest;
      messages := messages + Emitted(result);
      stats := Tally(stats, result);
    }
    assert all[|ds|..] == [];
    assert messages + [] == messages;
  }

  method DecodeCapture(packets: seq<seq<u8>>)
    returns (stats: PacketStats, parsed: DecoderStats, messages: seq<Message>, gate: Gate)
    ensures Progress(gate.State(), stats, parsed, messages) == ReceivedAll(AT_START, packets)
  {
    hide DecodeSpec, ParseAll, PacketCounted, Payloads;
    gate := new Gate();
    stats, parsed, messages := NO_PACKETS, NO_COUNTS, [];
    for i := 0 to |packets|
      invariant fresh(gate) && fresh(gate.tracker)
      invariant Progress(gate.State(), stats, parsed, messages) == ReceivedAll(AT_START, packets[..i])
    {
      ReceivedSnoc(AT_START, packets[..i], packets[i]);
      assert packets[..i + 1] == packets[..i] + [packets[i]];
      var result, delivered := Decode(packets[i], gate);
      var emitted;
      parsed, emitted := ParseDelivered(parsed, delivered);
      messages := messages + emitted;
      stats := PacketCounted(stats, result);
    }
    assert packets[..|packets|] == packets;
  }

  lemma {:induction false} ReceivedSnoc(p: Progress, packets: seq<seq<u8>>, packet: seq<u8>)
    ensures ReceivedAll(p, packets + [packet]) == Received(ReceivedAll(p, packets), packet)
    decreases |packets|
  {
    hide Received;
    if packets == [] {
      assert [packet][1..] == [] && [] + [packet] == [packet];
    } else {
      assert (packets + [packet])[1..] == packets[1..] + [packet];
      ReceivedSnoc(Received(p, packets[0]), packets[1..], packet);
    }
  }

  // ---------- End to end ----------

  /** Batches of messages sent as consecutive datagrams of one session. */
  predicate CanSend(batches: seq<seq<Message>>) {
    forall i :: 0 <= i < |batches| ==> 1 <= |batches[i]| <= 0xfffe && AllEncodable(batches[i])
  }

  function CountOf(batches: seq<seq<Message>>): nat {
    if batches == [] then 0 else |batches[0]| + CountOf(batches[1..])
  }

  function Joined(batches: seq<seq<Message>>): seq<Message> {
    if batches == [] then [] else batches[0] + Joined(batches[1..])
  }

  lemma {:induction false} EncodedSized(batch: seq<Message>)
    requires AllEncodable(batch)
    ensures |EncodeAll(batch)| == |batch| && forall i :: 0 <= i < |batch| ==> Sized(EncodeAll(batch)[i])
  {
    EncodedFrames(batch);
  }

  function Datagram(session: Session, sequence: u64, batch: seq<Message>): seq<u8>
    requires 1 <= |batch| <= 0xfffe && AllEncodable(batch)
  {
    EncodedSized(batch);
    EncodeHeader(MoldHeader(session, sequence, |batch|)) + BlocksOf(EncodeAll(batch))
  }

  function Sent(session: Session, sequence: u64, batches: seq<seq<Message>>): seq<seq<u8>>
    requires CanSend(batches) && sequence + CountOf(batches) < U64_MODULUS
    decreases |batches|
  {
    if batches == [] then []
    else [Datagram(session, sequence, batches[0])] + Sent(session, sequence + |batches[0]|, batches[1..])
  }

  /** The gate takes the next packet: it is the first one, or it starts at the frontier. */
  predicate Expecting(g: GateState, session: Session, sequence: u64) {
    g.valid && (g.tracker.initialized ==> g.tracker.session == session && g.tracker.expected == sequence)
  }

  lemma {:induction false} BatchReceived(p: Progress, session: Session, sequence: u64, batch: seq<Message>)
    requires Expecting(p.gate, session, sequence) && 1 <= |batch| <= 0xfffe && sequence + |batch| < U64_MODULUS
    requires AllEncodable(batch)
    ensures var q := Received(p, Datagram(session, sequence, batch));
            Expecting(q.gate, session, sequence + |batch|) && q.messages == p.messages + batch &&
            q.packets.errors == p.packets.errors &&
            q.parsed == p.parsed.(decoded := Wrap64(p.parsed.decoded + |batch|))
  {
    hide Encodable, EncodeAll, BlocksOf, EncodeHeader, DecodeSpec, ParseAll, PacketCounted, Wrap64, Numbered, Admitted,
         Expecting, Payloads;
    var h := MoldHeader(session, sequence, |batch|);
    EncodedSized(batch);
    NextAdmitted(p.gate, h);
    AdmittedDecoding(h, EncodeAll(batch), p.gate);
    PayloadsNumbered(EncodeAll(batch), sequence);
    AllParsed(p.parsed, batch);
    ErrorsKept(p.packets, MoldResult(NoError, h, |batch|));
  }

  lemma {:induction false} AdmittedDecoding(h: MoldHeader, ms: seq<seq<u8>>, g: GateState)
    requires 1 <= |ms| <= 0xfffe && h.count == |ms| && (forall i :: 0 <= i < |ms| ==> Sized(ms[i])) && Admitted(g, h).1
    ensures DecodeSpec(EncodeHeader(h) + BlocksOf(ms), g) ==
              Decoding(MoldResult(NoError, h, h.count), Admitted(g, h).0, Numbered(ms, h.sequence))
  {
    hide BlocksOf, EncodeHeader, DecodeSpec, Numbered, Admitted;
    DatagramRoundTrip(h, ms, g);
  }

  lemma {:induction false} NextAdmitted(g: GateState, h: MoldHeader)
    requires Expecting(g, h.session, h.sequence) && !h.EndOfSession() && h.sequence + h.count < U64_MODULUS
    ensures Admitted(g, h).1 && Expecting(Admitted(g, h).0, h.session, h.sequence + h.count)
  {}

  lemma {:induction false} PayloadsNumbered(ms: seq<seq<u8>>, sequence: u64)
    ensures Payloads(Numbered(ms, sequence)) == ms
  {}

  lemma {:induction false} ErrorsKept(s: PacketStats, r: MoldResult)
    requires r.error == NoError
    ensures PacketCounted(s, r).errors == s.errors
  {}

  /** All messages sent in consecutive datagrams arrive, once each and in order, and nothing is counted malformed. */
  lemma {:induction false} SentReceived(p: Progress, session: Session, sequence: u64, batches: seq<seq<Message>>)
    requires CanSend(batches) && sequence + CountOf(batches) < U64_MODULUS && Expecting(p.gate, session, sequence)
    ensures var q := ReceivedAll(p, Sent(session, sequence, batches));
            q.messages == p.messages + Joined(batches) && q.packets.errors == p.packets.errors &&
            q.parsed == p.parsed.(decoded := Wrap64(p.parsed.decoded + CountOf(batches)))
    decreases |batches|
  {
    hide Received, Datagram, Expecting, Encodable, Wrap64;
    if batches == [] {
      WrapSame(p.parsed.decoded);
      assert p.messages + [] == p.messages;
    } else {
      BatchReceived(p, session, sequence, batches[0]);
      var p' := Received(p, Datagram(session, sequence, batches[0]));
      SentReceived(p', session, sequence + |batches[0]|, batches[1..]);
      Wrapping.WrapSum(p.parsed.decoded + |batches[0]|, CountOf(batches[1..]));
      assert (p.messages + batches[0]) + Joined(batches[1..]) == p.messages + Joined(batches);
      var sent := Sent(session, sequence, batches);
      assert sent[1..] == Sent(session, sequence + |batches[0]|, batches[1..]);
    }
  }

  lemma {:induction false} JoinedEncodable(batches: seq<seq<Message>>)
    requires CanSend(batches)
    ensures AllEncodable(Joined(batches))
  {
    hide Encodable;
    if batches != [] {
      JoinedEncodable(batches[1..]);
    }
  }

  /** The same messages as one framed file. */
  function AsFile(batches: seq<seq<Message>>): seq<u8>
    requires CanSend(batches)
  {
    JoinedEncodable(batches);
    FileOf(Joined(batches))
  }
}
