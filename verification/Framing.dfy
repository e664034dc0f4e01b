/** The file framing: a two-byte length, then one message; input may be cut anywhere. */
module Framing {
  import opened Types
  import opened Bytes
  import opened Messages
  import opened Wire
  import opened Encoding
  import Wrapping

  const MAX_MESSAGE: nat := 64

  datatype DecoderStats = DecoderStats(decoded: u64, malformed: u64, unsupported: u64)

  const NO_COUNTS: DecoderStats := DecoderStats(0, 0, 0)

  function Tally(s: DecoderStats, r: ParseResult): DecoderStats {
    match r
    case Parsed(_) => s.(decoded := Wrap64(s.decoded + 1))
    case Failed(UnsupportedType) => s.(unsupported := Wrap64(s.unsupported + 1))
    case Failed(_) => s.(malformed := Wrap64(s.malformed + 1))
  }

  function Emitted(r: ParseResult): seq<Message> { if r.Parsed? then [r.message] else [] }

  // ---------- One byte at a time ----------

  /** The bytes of the frame under way, and the counters. */
  datatype Partial = Partial(buf: seq<u8>, stats: DecoderStats)

  /** What decoding some input gives; `ok` is false if it stopped at an impossible length. */
  datatype Fed = Fed(state: Partial, messages: seq<Message>, ok: bool)

  function LengthOf(buf: seq<u8>): nat
    requires |buf| >= 2
  {
    FromBytes(buf[..2])
  }

  /** A frame under way: its length is possible and not all of it is there. */
  predicate Incomplete(buf: seq<u8>) {
    |buf| < 2 || (1 <= LengthOf(buf) <= MAX_MESSAGE && |buf| < 2 + LengthOf(buf))
  }

  function PushByte(s: Partial, b: u8): (r: Fed)
    requires Incomplete(s.buf)
    ensures Incomplete(r.state.buf)
  {
    var buf := s.buf + [b];
    if |buf| < 2 then Fed(Partial(buf, s.stats), [], true)
    else if |buf| == 2 && !(1 <= LengthOf(buf) <= MAX_MESSAGE) then
      Fed(Partial([], s.stats.(malformed := Wrap64(s.stats.malformed + 1))), [], false)
    else
      assert |s.buf| >= 2 ==> buf[..2] == s.buf[..2];
      if |buf| < 2 + LengthOf(buf) then Fed(Partial(buf, s.stats), [], true)
      else Fed(Partial([], Tally(s.stats, Parse(buf[2..]))), Emitted(Parse(buf[2..])), true)
  }

  /** A whole input; decoding stops for good at an impossible length. */
  function Feed(s: Partial, input: seq<u8>): (r: Fed)
    requires Incomplete(s.buf)
    ensures Incomplete(r.state.buf)
    decreases |input|
  {
    if input == [] then Fed(s, [], true)
    else
      var first := PushByte(s, input[0]);
      if !first.ok then first
      else
        var rest := Feed(first.state, input[1..]);
        Fed(rest.state, first.messages + rest.messages, rest.ok)
  }

  /** One call after another, for a caller that stops when a call fails. */
  function FeedChunks(s: Partial, chunks: seq<seq<u8>>): (r: Fed)
    requires Incomplete(s.buf)
    ensures Incomplete(r.state.buf)
    decreases |chunks|
  {
    if chunks == [] then Fed(s, [], true)
    else
      var first := Feed(s, chunks[0]);
      if !first.ok then first
      else
        var rest := FeedChunks(first.state, chunks[1..]);
        Fed(rest.state, first.messages + rest.messages, rest.ok)
  }

  function Flatten(chunks: seq<seq<u8>>): seq<u8> { if chunks == [] then [] else chunks[0] + Flatten(chunks[1..]) }

  lemma {:induction false} FeedSplit(s: Partial, a: seq<u8>, b: seq<u8>)
    requires Incomplete(s.buf)
    ensures var first := Feed(s, a);
            Feed(s, a + b) ==
            if !first.ok then first
            else
              Fed(Feed(first.state, b).state, first.messages + Feed(first.state, b).messages, Feed(first.state, b).ok)
    decreases |a|
  {
    hide PushByte, Incomplete;
    if a == [] {
      assert a + b == b;
      assert [] + Feed(s, b).messages == Feed(s, b).messages;
    } else {
      assert (a + b)[1..] == a[1..] + b;
      var first := PushByte(s, a[0]);
      if first.ok {
        FeedSplit(first.state, a[1..], b);
        var mid := Feed(first.state, a[1..]);
        assert (first.messages + mid.messages) + Feed(mid.state, b).messages ==
                 first.messages + (mid.messages + Feed(mid.state, b).messages);
      }
    }
  }

  /** However the bytes are cut into calls, messages, counters, residue and success are the same. */
  lemma {:induction false} ChunkingIndependent(s: Partial, chunks: seq<seq<u8>>)
    requires Incomplete(s.buf)
    ensures FeedChunks(s, chunks) == Feed(s, Flatten(chunks))
    decreases |chunks|
  {
    hide PushByte, Incomplete;
    if chunks != [] {
      FeedSplit(s, chunks[0], Flatten(chunks[1..]));
      var first := Feed(s, chunks[0]);
      if first.ok {
        ChunkingIndependent(first.state, chunks[1..]);
      }
    }
  }

  // ---------- Bulk copies ----------

  /** The effect of bytes that stay within the message under way. */
  function Absorb(s: Partial, chunk: seq<u8>): (r: Fed)
    requires Incomplete(s.buf) && |s.buf| >= 2 && chunk != [] && |s.buf| + |chunk| <= 2 + LengthOf(s.buf)
    ensures Incomplete(r.state.buf)
  {
    var buf := s.buf + chunk;
    assert buf[..2] == s.buf[..2];
    if |buf| < 2 + LengthOf(s.buf) then Fed(Partial(buf, s.stats), [], true)
    else Fed(Partial([], Tally(s.stats, Parse(buf[2..]))), Emitted(Parse(buf[2..])), true)
  }

  lemma {:induction false} FeedWithin(s: Partial, chunk: seq<u8>)
    requires Incomplete(s.buf) && |s.buf| >= 2 && chunk != [] && |s.buf| + |chunk| <= 2 + LengthOf(s.buf)
    ensures Feed(s, chunk) == Absorb(s, chunk)
    decreases |chunk|
  {
    hide Parse, FromBytes, Tally;
    var first := PushByte(s, chunk[0]);
    assert (s.buf + [chunk[0]])[..2] == s.buf[..2];
    if |chunk| == 1 {
      assert chunk == [chunk[0]] && chunk[1..] == [];
      assert Feed(first.state, []) == Fed(first.state, [], true);
      assert first.messages + [] == first.messages;
    } else {
      FeedWithin(first.state, chunk[1..]);
      assert s.buf + [chunk[0]] + chunk[1..] == s.buf + chunk;
      assert [] + Feed(first.state, chunk[1..]).messages == Feed(first.state, chunk[1..]).messages;
    }
  }

  // ---------- Framed streams ----------

  predicate CanFrame(m: seq<u8>) { 1 <= |m| <= MAX_MESSAGE }

  function Framed(m: seq<u8>): seq<u8>
    requires CanFrame(m)
  {
    ToBytes(|m|, 2) + m
  }

  function FramedAll(ms: seq<seq<u8>>): seq<u8>
    requires forall i :: 0 <= i < |ms| ==> CanFrame(ms[i])
  {
    if ms == [] then [] else Framed(ms[0]) + FramedAll(ms[1..])
  }

  /** The results of parsing messages one after the other. */
  function ParseAll(s: DecoderStats, ms: seq<seq<u8>>): (DecoderStats, seq<Message>)
    decreases |ms|
  {
    if ms == [] then (s, [])
    else
      var r := Parse(ms[0]);
      var (last, rest) := ParseAll(Tally(s, r), ms[1..]);
      (last, Emitted(r) + rest)
  }

  lemma {:induction false} FeedFrame(s: Partial, m: seq<u8>)
    requires s.buf == [] && CanFrame(m)
    ensures Feed(s, Framed(m)) == Fed(Partial([], Tally(s.stats, Parse(m))), Emitted(Parse(m)), true)
  {
    hide Parse, Tally, FromBytes, ToBytes, Feed;
    var head := ToBytes(|m|, 2);
    LengthBytes(|m|);
    assert head[..2] == head;
    HeadPushed(s, head);
    FeedWithin(Partial(head, s.stats), m);
    assert (head + m)[2..] == m && (head + m)[..2] == head;
    TwoBytes(s, head, m);
  }

  lemma {:induction false} LengthBytes(n: nat)
    requires n <= MAX_MESSAGE
    ensures FromBytes(ToBytes(n, 2)) == n
  {
    FromTo(n, 2);
    PowValues();
  }

  /** A possible length leaves the decoder waiting for that many bytes. */
  lemma {:induction false} HeadPushed(s: Partial, head: seq<u8>)
    requires s.buf == [] && |head| == 2 && 1 <= FromBytes(head) <= MAX_MESSAGE
    ensures PushByte(s, head[0]) == Fed(Partial([head[0]], s.stats), [], true)
    ensures PushByte(Partial([head[0]], s.stats), head[1]) == Fed(Partial(head, s.stats), [], true)
  {
    hide Parse, Tally, FromBytes;
    assert [head[0]] + [head[1]] == head && head[..2] == head;
  }

  lemma {:induction false} TwoBytes(s: Partial, head: seq<u8>, m: seq<u8>)
    requires |head| == 2 && Incomplete(s.buf)
    requires PushByte(s, head[0]).ok && PushByte(s, head[0]).messages == []
    requires var one := PushByte(s, head[0]).state; PushByte(one, head[1]).ok && PushByte(one, head[1]).messages == []
    ensures Feed(s, head + m) == Feed(PushByte(PushByte(s, head[0]).state, head[1]).state, m)
  {
    hide PushByte, Incomplete;
    var one := PushByte(s, head[0]).state;
    assert (head + m)[1..] == [head[1]] + m && ([head[1]] + m)[1..] == m;
    assert Feed(one, [head[1]] + m) == Feed(PushByte(one, head[1]).state, m) by {
      assert [] + Feed(PushByte(one, head[1]).state, m).messages == Feed(PushByte(one, head[1]).state, m).messages;
    }
    assert [] + Feed(one, [head[1]] + m).messages == Feed(one, [head[1]] + m).messages;
  }

  /** Decoding framed messages parses exactly those messages, in order, and leaves nothing over. */
  lemma {:induction false} FramesDecode(s: Partial, ms: seq<seq<u8>>)
    requires s.buf == [] && forall i :: 0 <= i < |ms| ==> CanFrame(ms[i])
    ensures var (stats, messages) := ParseAll(s.stats, ms);
            Feed(s, FramedAll(ms)) == Fed(Partial([], stats), messages, true)
    decreases |ms|
  {
    hide Parse, Tally, Framed, PushByte;
    if ms != [] {
      FeedFrame(s, ms[0]);
      FeedSplit(s, Framed(ms[0]), FramedAll(ms[1..]));
      FramesDecode(Partial([], Tally(s.stats, Parse(ms[0]))), ms[1..]);
    }
  }

  /** Conversely, input that decodes without residue is a sequence of frames. */
  lemma {:induction false} DecodedIsFrames(s: Partial, input: seq<u8>) returns (ms: seq<seq<u8>>)
    requires s.buf == [] && Feed(s, input).ok && Feed(s, input).state.buf == []
    ensures (forall i :: 0 <= i < |ms| ==> CanFrame(ms[i])) && input == FramedAll(ms)
    decreases |input|
  {
    if input == [] {
      ms := [];
    } else {
      var m, rest := FirstFrame(s, input);
      FeedFrame(s, m);
      FeedSplit(s, Framed(m), rest);
      hide Framed, Feed, Parse;
      var more := DecodedIsFrames(Feed(s, Framed(m)).state, rest);
      ms := [m] + more;
      assert ms[1..] == more;
    }
  }

  lemma {:induction false} FirstFrame(s: Partial, input: seq<u8>) returns (m: seq<u8>, rest: seq<u8>)
    requires s.buf == [] && input != [] && Feed(s, input).ok && Feed(s, input).state.buf == []
    ensures CanFrame(m) && input == Framed(m) + rest && |rest| < |input|
  {
    hide Parse, Tally, FromBytes, ToBytes, Feed, PushByte;
    AtLeastTwo(s, input);
    FeedTwo(s, input);
    var head, body := input[..2], input[2..];
    assert head[..2] == head;
    ShortBody(Partial(head, s.stats), body);
    m, rest := body[..LengthOf(head)], body[LengthOf(head)..];
    ToFrom(head);
    assert input == head + m + rest;
  }

  lemma {:induction false} AtLeastTwo(s: Partial, input: seq<u8>)
    requires s.buf == [] && input != [] && Feed(s, input).state.buf == [] && Feed(s, input).ok
    ensures |input| >= 2
  {
    hide Parse, Tally, FromBytes;
    var one, tail := PushByte(s, input[0]), input[1..];
    assert Feed(one.state, []).state == one.state;
    assert |tail| == 0 <==> tail == [];
  }

  lemma {:induction false} ShortBody(s: Partial, body: seq<u8>)
    requires Incomplete(s.buf) && |s.buf| == 2
    ensures |body| < LengthOf(s.buf) ==> Feed(s, body).state.buf == s.buf + body
  {
    hide Parse, Tally, FromBytes, PushByte;
    if 0 < |body| < LengthOf(s.buf) {
      FeedWithin(s, body);
    }
  }

  lemma {:induction false} FeedTwo(s: Partial, input: seq<u8>)
    requires s.buf == [] && |input| >= 2 && Feed(s, input).ok
    ensures 1 <= FromBytes(input[..2]) <= MAX_MESSAGE
    ensures Incomplete(input[..2]) && Feed(Partial(input[..2], s.stats), input[2..]).ok
    ensures Feed(Partial(input[..2], s.stats), input[2..]).state == Feed(s, input).state
  {
    hide FromBytes, Parse, Tally;
    assert [] + [input[0]] == [input[0]] && [input[0]] + [input[1]] == input[..2] && input[..2][..2] == input[..2];
    assert input[1..][0] == input[1] && input[1..][1..] == input[2..];
  }

  /** Decoding succeeds without residue exactly on sequences of frames of one to 64 bytes. */
  ghost predicate IsFrames(input: seq<u8>) {
    exists ms: seq<seq<u8>> :: (forall i :: 0 <= i < |ms| ==> CanFrame(ms[i])) && input == FramedAll(ms)
  }

  lemma {:induction false} CleanExactlyFrames(s: Partial, input: seq<u8>)
    requires s.buf == []
    ensures Feed(s, input).ok && Feed(s, input).state.buf == [] <==> IsFrames(input)
  {
    hide Feed, FramedAll, ParseAll;
    if Feed(s, input).ok && Feed(s, input).state.buf == [] {
      var ms := DecodedIsFrames(s, input);
    }
    if IsFrames(input) {
      var ms: seq<seq<u8>> :| (forall i :: 0 <= i < |ms| ==> CanFrame(ms[i])) && input == FramedAll(ms);
      FramesDecode(s, ms);
    }
  }

  // ---------- Encoded feeds ----------

  function EncodeAll(ms: seq<Message>): seq<seq<u8>>
    requires forall i :: 0 <= i < |ms| ==> Encodable(ms[i])
  {
    if ms == [] then []
    else
      assert Encodable(ms[0]);
      [Encode(ms[0])] + EncodeAll(ms[1..])
  }

  lemma {:induction false} EncodedFrames(ms: seq<Message>)
    requires forall i :: 0 <= i < |ms| ==> Encodable(ms[i])
    ensures |EncodeAll(ms)| == |ms| &&
            forall i :: 0 <= i < |ms| ==> EncodeAll(ms)[i] == Encode(ms[i]) && CanFrame(Encode(ms[i]))
  {
    hide Encode, Parse, Encodable;
    if ms != [] {
      EncodedLength(ms[0]);
      EncodedFrames(ms[1..]);
    }
  }

  lemma {:induction false} EncodedLength(m: Message)
    requires Encodable(m)
    ensures CanFrame(Encode(m))
  {
    hide Head, ToBytes;
  }

  predicate AllEncodable(ms: seq<Message>) { forall i :: 0 <= i < |ms| ==> Encodable(ms[i]) }

  /** The file form of a list of messages. */
  function FileOf(ms: seq<Message>): seq<u8>
    requires AllEncodable(ms)
  {
    EncodedFrames(ms);
    FramedAll(EncodeAll(ms))
  }

  /** The messages of an encoded and framed feed come out again, all of them, in order, however the bytes are cut. */
  lemma {:induction false} FeedRoundTrip(ms: seq<Message>, chunks: seq<seq<u8>>)
    requires AllEncodable(ms) && Flatten(chunks) == FileOf(ms)
    ensures var r := FeedChunks(Partial([], NO_COUNTS), chunks);
            r.ok && r.state.buf == [] && r.messages == ms && r.state.stats == DecoderStats(Wrap64(|ms|), 0, 0)
  {
    hide Feed, FeedChunks, ParseAll, EncodeAll, FramedAll, Flatten, Encodable, Wrap64;
    EncodedFrames(ms);
    ChunkingIndependent(Partial([], NO_COUNTS), chunks);
    FramesDecode(Partial([], NO_COUNTS), EncodeAll(ms));
    AllParsed(NO_COUNTS, ms);
  }

  lemma {:induction false} AllParsed(s: DecoderStats, ms: seq<Message>)
    requires forall i :: 0 <= i < |ms| ==> Encodable(ms[i])
    ensures ParseAll(s, EncodeAll(ms)) == (s.(decoded := Wrap64(s.decoded + |ms|)), ms)
    decreases |ms|
  {
    hide Encode, Parse, Encodable, Wrap64;
    if ms == [] {
      WrapSame(s.decoded);
    } else {
      RoundTrip(ms[0]);
      AllParsed(s.(decoded := Wrap64(s.decoded + 1)), ms[1..]);
      Wrapping.WrapSum(s.decoded + 1, |ms| - 1);
      assert EncodeAll(ms)[1..] == EncodeAll(ms[1..]);
      assert [ms[0]] + ms[1..] == ms;
    }
  }

  lemma {:induction false} WrapSame(x: u64)
    ensures Wrap64(x + 0) == x
  {}
}
