/** MoldUDP64 datagrams: a header, then length-prefixed messages. */
module Mold {
  import opened Types
  import opened Bytes
  import opened Sequencing

  const HEADER_SIZE: nat := 20

  datatype MoldError =
    | NoError | HeaderTooShort | InvalidControlPacket | TruncatedMessageLength | TruncatedMessage | TrailingBytes

  datatype MoldResult = MoldResult(error: MoldError, header: MoldHeader, decoded: u16)

  /** A message handed to the callback, with its sequence number. */
  datatype Delivery = Delivery(bytes: seq<u8>, sequence: u64)

  const NO_HEADER: MoldHeader := MoldHeader(NO_SESSION, 0, 0)

  function HeaderOf(packet: seq<u8>): MoldHeader
    requires |packet| >= HEADER_SIZE
  {
    PowValues();
    MoldHeader(packet[..10], FromBytes(packet[10..18]), FromBytes(packet[18..20]))
  }

  /** The result of taking n messages off the front of `rest`; an error leaves no messages. */
  datatype Blocks = Blocks(error: MoldError, messages: seq<seq<u8>>)

  function Split(rest: seq<u8>, n: nat): Blocks
    decreases n
  {
    if n == 0 then (if rest == [] then Blocks(NoError, []) else Blocks(TrailingBytes, []))
    else if |rest| < 2 then Blocks(TruncatedMessageLength, [])
    else
      var length := FromBytes(rest[..2]);
      if |rest| - 2 < length then Blocks(TruncatedMessage, [])
      else
        var more := Split(rest[2 + length..], n - 1);
        if more.error != NoError then Blocks(more.error, []) else Blocks(NoError, [rest[2..2 + length]] + more.messages)
  }

  function Numbered(messages: seq<seq<u8>>, sequence: u64): seq<Delivery> {
    seq(|messages|, i requires 0 <= i < |messages| => Delivery(messages[i], Wrap64(sequence + i)))
  }

  /** What decoding a datagram against a gate gives: result, next gate, and the deliveries. */
  datatype Decoding = Decoding(result: MoldResult, gate: GateState, delivered: seq<Delivery>)

  function DecodeSpec(packet: seq<u8>, g: GateState): Decoding {
    if |packet| < HEADER_SIZE then Decoding(MoldResult(HeaderTooShort, NO_HEADER, 0), g, [])
    else
      var h := HeaderOf(packet);
      if h.Heartbeat() || h.EndOfSession() then
        if |packet| != HEADER_SIZE then Decoding(MoldResult(InvalidControlPacket, h, 0), g, [])
        else Decoding(MoldResult(NoError, h, 0), Admitted(g, h).0, [])
      else
        var blocks := Split(packet[HEADER_SIZE..], h.count);
        if blocks.error != NoError then Decoding(MoldResult(blocks.error, h, 0), g, [])
        else if !Admitted(g, h).1 then Decoding(MoldResult(NoError, h, 0), Admitted(g, h).0, [])
        else Decoding(MoldResult(NoError, h, h.count), Admitted(g, h).0, Numbered(blocks.messages, h.sequence))
  }

  /** A malformed datagram delivers nothing and does not reach the gate; a good one delivers all or nothing. */
  lemma {:induction false} Transactional(packet: seq<u8>, g: GateState)
    ensures var d := DecodeSpec(packet, g);
            (d.result.error != NoError ==> d.delivered == [] && d.gate == g) && d.result.decoded == |d.delivered| &&
            (d.delivered == [] || (d.result.error == NoError && |d.delivered| == d.result.header.count))
  {
    hide Admitted, FromBytes, Split;
    if |packet| >= HEADER_SIZE {
      SplitCount(packet[HEADER_SIZE..], HeaderOf(packet).count);
    }
  }

  lemma {:induction false} SplitCount(rest: seq<u8>, n: nat)
    ensures Split(rest, n).error == NoError ==> |Split(rest, n).messages| == n
    ensures Split(rest, n).error != NoError ==> Split(rest, n).messages == []
    decreases n
  {
    hide FromBytes;
    if n > 0 && |rest| >= 2 && |rest| - 2 >= FromBytes(rest[..2]) {
      SplitCount(rest[2 + FromBytes(rest[..2])..], n - 1);
    }
  }

  // ---------- Encoding ----------

  predicate Sized(m: seq<u8>) { |m| <= 0xffff }

  function Block(m: seq<u8>): seq<u8>
    requires Sized(m)
  {
    ToBytes(|m|, 2) + m
  }

  function BlocksOf(ms: seq<seq<u8>>): seq<u8>
    requires forall i :: 0 <= i < |ms| ==> Sized(ms[i])
  {
    if ms == [] then [] else Block(ms[0]) + BlocksOf(ms[1..])
  }

  function EncodeHeader(h: MoldHeader): seq<u8> { h.session + (ToBytes(h.sequence, 8) + ToBytes(h.count, 2)) }

  lemma {:induction false} HeaderRoundTrip(h: MoldHeader, rest: seq<u8>)
    ensures var p := EncodeHeader(h) + rest; |p| >= HEADER_SIZE && HeaderOf(p) == h && p[HEADER_SIZE..] == rest
  {
    var p := EncodeHeader(h) + rest;
    FromTo(h.sequence, 8);
    FromTo(h.count, 2);
    PowValues();
    assert p[..10] == h.session;
    assert p[10..18] == ToBytes(h.sequence, 8);
    assert p[18..20] == ToBytes(h.count, 2);
    assert p[HEADER_SIZE..] == rest;
  }

  /** A datagram is its header followed by what is left. */
  lemma {:induction false} HeaderAgain(packet: seq<u8>)
    requires |packet| >= HEADER_SIZE
    ensures packet == EncodeHeader(HeaderOf(packet)) + packet[HEADER_SIZE..]
  {
    PowValues();
    ToFrom(packet[10..18]);
    ToFrom(packet[18..20]);
  }

  lemma {:induction false} SplitEncoded(ms: seq<seq<u8>>)
    requires forall i :: 0 <= i < |ms| ==> Sized(ms[i])
    ensures Split(BlocksOf(ms), |ms|) == Blocks(NoError, ms)
  {
    if ms != [] {
      var m, rest := ms[0], BlocksOf(ms[1..]);
      BlockLength(m);
      SplitEncoded(ms[1..]);
      hide ToBytes, FromBytes;
      var all := Block(m) + rest;
      assert all[..2] == ToBytes(|m|, 2) && all[2..2 + |m|] == m && all[2 + |m|..] == rest;
    }
  }

  lemma {:induction false} BlockLength(m: seq<u8>)
    requires Sized(m)
    ensures FromBytes(ToBytes(|m|, 2)) == |m|
  {
    FromTo(|m|, 2);
    PowValues();
  }

  /** The messages of a datagram that decodes tile it exactly, length prefixes included. */
  lemma {:induction false} SplitTiles(rest: seq<u8>, n: nat)
    requires Split(rest, n).error == NoError
    ensures forall i :: 0 <= i < |Split(rest, n).messages| ==> Sized(Split(rest, n).messages[i])
    ensures BlocksOf(Split(rest, n).messages) == rest
    decreases n
  {
    if n > 0 {
      var length := FromBytes(rest[..2]);
      PowValues();
      ToFrom(rest[..2]);
      hide ToBytes, FromBytes;
      SplitTiles(rest[2 + length..], n - 1);
      var m, more := rest[2..2 + length], Split(rest[2 + length..], n - 1).messages;
      assert ([m] + more)[1..] == more;
      assert rest == rest[..2] + m + rest[2 + length..];
    }
  }

  /** An encoded datagram of 1 to 0xfffe messages that the gate admits delivers exactly those messages, numbered. */
  lemma {:induction false} DatagramRoundTrip(h: MoldHeader, ms: seq<seq<u8>>, g: GateState)
    requires 1 <= |ms| <= 0xfffe && h.count == |ms| && forall i :: 0 <= i < |ms| ==> Sized(ms[i])
    ensures DecodeSpec(EncodeHeader(h) + BlocksOf(ms), g) ==
            (var (g', ok) := Admitted(g, h);
             Decoding(MoldResult(NoError, h, if ok then h.count else 0), g',
                      if ok then Numbered(ms, h.sequence) else []))
  {
    HeaderRoundTrip(h, BlocksOf(ms));
    SplitEncoded(ms);
    hide Admitted, Split, BlocksOf, EncodeHeader, HeaderOf;
  }

  /** Conversely, a datagram that delivers is the encoding of its header and of what it delivers, in order. */
  lemma {:induction false} DeliveredTiles(packet: seq<u8>, g: GateState)
    requires DecodeSpec(packet, g).delivered != []
    ensures var d := DecodeSpec(packet, g);
            var ms := seq(|d.delivered|, i requires 0 <= i < |d.delivered| => d.delivered[i].bytes);
            (forall i :: 0 <= i < |ms| ==> Sized(ms[i])) && packet == EncodeHeader(d.result.header) + BlocksOf(ms) &&
            forall i :: 0 <= i < |ms| ==> d.delivered[i].sequence == Wrap64(d.result.header.sequence + i)
  {
    hide Admitted, FromBytes, Split, BlocksOf, EncodeHeader;
    var blocks := Split(packet[HEADER_SIZE..], HeaderOf(packet).count);
    HeaderAgain(packet);
    SplitTiles(packet[HEADER_SIZE..], HeaderOf(packet).count);
    var d := DecodeSpec(packet, g);
    assert seq(|d.delivered|, i requires 0 <= i < |d.delivered| => d.delivered[i].bytes) == blocks.messages;
  }
}
