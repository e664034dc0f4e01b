/** The two-pass datagram decoder: validate everything, ask the gate, then dispatch. */
module MoldDecoders {
  import opened Types
  import opened Bytes
  import opened Sequencing
  import opened Mold

  method ReadU16(packet: seq<u8>, at: nat) returns (v: u16)
    requires at + 2 <= |packet|
    ensures v == FromBytes(packet[at..at + 2])
  {
    var s := packet[at..at + 2];
    assert s[..1][..0] == [];
    assert FromBytes(s[..1]) == FromBytes([]) * 256 + s[0];
    var a: int, b: int := packet[at], packet[at + 1];
    v := a * 256 + b;
  }

  method ReadU64(packet: seq<u8>, at: nat) returns (v: u64)
    requires at + 8 <= |packet|
    ensures v == FromBytes(packet[at..at + 8])
  {
    PowValues();
    var value: nat := 0;
    for i := 0 to 8
      invariant value == FromBytes(packet[at..at + i])
    {
      assert packet[at..at + i + 1][..i] == packet[at..at + i];
      value := value * 256 + packet[at + i];
    }
    v := value;
  }

  /** The first pass: walks over all length prefixes, without dispatching anything. */
  method Validate(packet: seq<u8>, count: u16) returns (error: MoldError)
    requires |packet| >= HEADER_SIZE
    ensures error == Split(packet[HEADER_SIZE..], count).error
  {
    hide FromBytes;
    var position := HEADER_SIZE;
    for index := 0 to count
      invariant HEADER_SIZE <= position <= |packet|
      invariant Split(packet[position..], count - index).error == Split(packet[HEADER_SIZE..], count).error
    {
      if |packet| - position < 2 {
        return TruncatedMessageLength;
      }
      var length := ReadU16(packet, position);
      BlockAt(packet, position, length);
      position := position + 2;
      if |packet| - position < length {
        return TruncatedMessage;
      }
      position := position + length;
    }
    if position != |packet| {
      return TrailingBytes;
    }
    return NoError;
  }

  /** The block at a position, seen from the rest of the packet. */
  lemma {:induction false} BlockAt(packet: seq<u8>, position: nat, length: nat)
    requires position + 2 <= |packet|
    ensures packet[position..][..2] == packet[position..position + 2]
    ensures position + 2 + length <= |packet| ==>
      packet[position..][2 + length..] == packet[position + 2 + length..] &&
      packet[position..][2..2 + length] == packet[position + 2..position + 2 + length]
  {}

  /** The second pass over a validated datagram. */
  method Dispatch(packet: seq<u8>, h: MoldHeader) returns (delivered: seq<Delivery>)
    requires |packet| >= HEADER_SIZE && Split(packet[HEADER_SIZE..], h.count).error == NoError
    ensures delivered == Numbered(Split(packet[HEADER_SIZE..], h.count).messages, h.sequence)
  {
    hide FromBytes, Wrap64;
    ghost var messages := Split(packet[HEADER_SIZE..], h.count).messages;
    var position := HEADER_SIZE;
    delivered := [];
    SplitCount(packet[HEADER_SIZE..], h.count);
    for index := 0 to h.count
      invariant HEADER_SIZE <= position <= |packet| && |messages| == h.count
      invariant Split(packet[position..], h.count - index) == Blocks(NoError, messages[index..])
      invariant delivered == Numbered(messages[..index], h.sequence)
    {
      var length := ReadU16(packet, position);
      BlockAt(packet, position, length);
      position := position + 2;
      assert messages[index..][0] == messages[index] && messages[index..][1..] == messages[index + 1..];
      NumberedSnoc(messages, h.sequence, index);
      delivered := delivered + [Delivery(packet[position..position + length], Wrap64(h.sequence + index))];
      position := position + length;
    }
    assert messages[..h.count] == messages;
  }

  lemma {:induction false} NumberedSnoc(messages: seq<seq<u8>>, sequence: u64, index: nat)
    requires index < |messages|
    ensures Numbered(messages[..index + 1], sequence) ==
              Numbered(messages[..index], sequence) + [Delivery(messages[index], Wrap64(sequence + index))]
  {
    hide Wrap64;
  }

  method Decode(packet: seq<u8>, gate: Gate) returns (r: MoldResult, delivered: seq<Delivery>)
    modifies gate, gate.tracker
    ensures Decoding(r, gate.State(), delivered) == DecodeSpec(packet, old(gate.State()))
  {
    hide FromBytes, Split, Admitted, Numbered;
    delivered := [];
    if |packet| < HEADER_SIZE {
      return MoldResult(HeaderTooShort, NO_HEADER, 0), [];
    }
    var sequence := ReadU64(packet, 10);
    var count := ReadU16(packet, 18);
    var h := MoldHeader(packet[..10], sequence, count);
    if h.Heartbeat() || h.EndOfSession() {
      if |packet| != HEADER_SIZE {
        return MoldResult(InvalidControlPacket, h, 0), [];
      }
      var _ := gate.Admit(h);
      return MoldResult(NoError, h, 0), [];
    }
    var error := Validate(packet, count);
    if error != NoError {
      return MoldResult(error, h, 0), [];
    }
    var admitted := gate.Admit(h);
    if !admitted {
      return MoldResult(NoError, h, 0), [];
    }
    delivered := Dispatch(packet, h);
    return MoldResult(NoError, h, h.count), delivered;
  }
}
