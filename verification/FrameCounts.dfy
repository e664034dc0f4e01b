/** What the decoder counters count: the complete frames of a file, or the payloads of datagrams, by what they hold. */
module FrameCounts {
  import opened Types
  import opened Bytes
  import opened Messages
  import opened Wire
  import opened Framing
  import opened WireTable
  import Wrapping

  // ---------- The frames of a file ----------

  function Declared(input: seq<u8>): nat
    requires |input| >= 2
  {
    input[0] as int * 256 + input[1]
  }

  /** The input starts with a complete frame of 1 to 64 bytes. */
  predicate StartsWithFrame(input: seq<u8>) {
    |input| >= 2 && 1 <= Declared(input) <= 64 && |input| >= 2 + Declared(input)
  }

  /** The contents of the complete frames at the front of a file, up to the first that is cut off or impossible. */
  function FramesOf(input: seq<u8>): seq<seq<u8>> {
    if StartsWithFrame(input) then [input[2..2 + Declared(input)]] + FramesOf(input[2 + Declared(input)..]) else []
  }

  /** What is left behind those frames. */
  function RestOf(input: seq<u8>): seq<u8> {
    if StartsWithFrame(input) then RestOf(input[2 + Declared(input)..]) else input
  }

  /** The length that comes next is 0 or above 64. */
  predicate Impossible(rest: seq<u8>) { |rest| >= 2 && !(1 <= Declared(rest) <= 64) }

  // ---------- Kinds of contents ----------

  function HowMany(ms: seq<seq<u8>>, kind: seq<u8> -> bool): nat {
    if ms == [] then 0 else (if kind(ms[0]) then 1 else 0) + HowMany(ms[1..], kind)
  }

  predicate Good(m: seq<u8>) { Parses(m) }

  /** The first byte is none of the 22 types. */
  predicate OfUnknownType(m: seq<u8>) { m != [] && !Known(m[0]) }

  /** Empty, or of a known type but with another length or without a proper side. */
  predicate Bad(m: seq<u8>) { !Good(m) && !OfUnknownType(m) }

  /** The messages that the good contents carry, in order. */
  ghost predicate Meanings(ms: seq<seq<u8>>, out: seq<Message>)
    decreases |ms|
  {
    if ms == [] then out == []
    else if Good(ms[0]) then out != [] && Carries(ms[0], out[0]) && Meanings(ms[1..], out[1..])
    else Meanings(ms[1..], out)
  }

  function Counts(ms: seq<seq<u8>>): DecoderStats {
    DecoderStats(Wrap64(HowMany(ms, Good)), Wrap64(HowMany(ms, Bad)), Wrap64(HowMany(ms, OfUnknownType)))
  }

  /** One counter moves per message, and which one depends on its bytes as the table says. */
  lemma {:induction false} TallyExactly(s: DecoderStats, m: seq<u8>)
    ensures Tally(s, Parse(m)) ==
            if Good(m) then s.(decoded := Wrap64(s.decoded + 1))
            else if OfUnknownType(m) then s.(unsupported := Wrap64(s.unsupported + 1))
            else s.(malformed := Wrap64(s.malformed + 1))
  {
    hide Parse, Parses, Wrap64, Known, Carries;
    ParsesExactly(m);
  }

  /** Parsing messages one after the other counts each kind, and hands on what the good ones carry. */
  lemma {:induction false} CountsExactly(s: DecoderStats, ms: seq<seq<u8>>)
    ensures var (t, out) := ParseAll(s, ms);
            t.decoded == Wrap64(s.decoded + HowMany(ms, Good)) &&
            t.malformed == Wrap64(s.malformed + HowMany(ms, Bad)) &&
            t.unsupported == Wrap64(s.unsupported + HowMany(ms, OfUnknownType)) && Meanings(ms, out)
    decreases |ms|
  {
    hide Parse, Parses, Tally, Wrap64, Known, Carries;
    if ms == [] {
      NoneAdded(s.decoded);
      NoneAdded(s.malformed);
      NoneAdded(s.unsupported);
    } else {
      var m, r := ms[0], Parse(ms[0]);
      TallyExactly(s, m);
      CountsExactly(Tally(s, r), ms[1..]);
      OneAdded(s.decoded, HowMany(ms[1..], Good));
      OneAdded(s.malformed, HowMany(ms[1..], Bad));
      OneAdded(s.unsupported, HowMany(ms[1..], OfUnknownType));
      var out := ParseAll(Tally(s, r), ms[1..]).1;
      ParsesExactly(m);
      if r.Parsed? {
        MeaningExactly(m, r.message);
        assert ([r.message] + out)[1..] == out;
      } else {
        assert [] + out == out;
      }
    }
  }

  lemma {:induction false} NoneAdded(x: u64)
    ensures Wrap64(x + 0) == x
  {}

  lemma {:induction false} OneAdded(x: u64, n: nat)
    ensures Wrap64(Wrap64(x + 1) + n) == Wrap64(x + (1 + n))
  {
    Wrapping.WrapSum(x + 1, n);
  }

  // ---------- A whole file ----------

  lemma {:induction false} DeclaredIs(input: seq<u8>)
    requires |input| >= 2
    ensures FromBytes(input[..2]) == Declared(input)
  {
    var w := input[..2];
    assert w[..1][..0] == [] && w[..1] == [input[0]];
    assert FromBytes(w[..1]) == FromBytes([]) * 256 + input[0];
  }

  lemma {:induction false} FirstFramed(input: seq<u8>)
    requires StartsWithFrame(input)
    ensures var m := input[2..2 + Declared(input)];
            CanFrame(m) && input == Framed(m) + input[2 + Declared(input)..]
  {
    DeclaredIs(input);
    ToFrom(input[..2]);
    hide ToBytes, FromBytes;
    assert input == input[..2] + input[2..2 + Declared(input)] + input[2 + Declared(input)..];
  }

  /** What the decoder does with a rest that holds no complete frame. */
  lemma {:induction false} FeedRemainder(s: Partial, rest: seq<u8>)
    requires s.buf == [] && !StartsWithFrame(rest)
    ensures Feed(s, rest) ==
            if Impossible(rest) then Fed(Partial([], s.stats.(malformed := Wrap64(s.stats.malformed + 1))), [], false)
            else Fed(Partial(rest, s.stats), [], true)
  {
    hide FromBytes, Parse, Tally, Wrap64, Feed, PushByte;
    if |rest| < 2 {
      FeedShort(s, rest);
    } else {
      DeclaredIs(rest);
      var head := rest[..2];
      assert head[..2] == head && rest == head + rest[2..];
      if Impossible(rest) {
        FeedImpossible(s, rest);
      } else {
        HeadPushed(s, head);
        TwoBytes(s, head, rest[2..]);
        if rest[2..] != [] {
          FeedWithin(Partial(head, s.stats), rest[2..]);
        } else {
          FeedNothing(Partial(head, s.stats));
        }
      }
    }
  }

  lemma {:induction false} FeedNothing(s: Partial)
    requires Incomplete(s.buf)
    ensures Feed(s, []) == Fed(s, [], true)
  {}

  lemma {:induction false} FeedShort(s: Partial, rest: seq<u8>)
    requires s.buf == [] && |rest| < 2
    ensures Feed(s, rest) == Fed(Partial(rest, s.stats), [], true)
  {
    hide FromBytes, Parse, Tally;
    if rest != [] {
      assert rest == [rest[0]] && rest[1..] == [] && [] + [rest[0]] == rest;
    }
  }

  lemma {:induction false} FeedImpossible(s: Partial, rest: seq<u8>)
    requires s.buf == [] && Impossible(rest)
    ensures Feed(s, rest) == Fed(Partial([], s.stats.(malformed := Wrap64(s.stats.malformed + 1))), [], false)
  {
    DeclaredIs(rest);
    hide FromBytes, Parse, Tally, Wrap64;
    assert [] + [rest[0]] == [rest[0]] && [rest[0]] + [rest[1]] == rest[..2] && rest[..2][..2] == rest[..2];
    assert rest[1..][0] == rest[1];
  }

  /** Decoding a file parses its complete frames; an impossible length stops it, a frame cut off is kept. */
  lemma {:induction false} FeedExactly(s: Partial, input: seq<u8>)
    requires s.buf == []
    ensures var (stats, out) := ParseAll(s.stats, FramesOf(input));
            Feed(s, input) ==
            if Impossible(RestOf(input)) then
              Fed(Partial([], stats.(malformed := Wrap64(stats.malformed + 1))), out, false)
            else
              Fed(Partial(RestOf(input), stats), out, true)
    decreases |input|
  {
    hide FromBytes, Parse, Tally, Wrap64, Feed, Framed, Impossible, StartsWithFrame;
    if StartsWithFrame(input) {
      var n := NextFrame(input);
      var m, more := input[2..2 + n], input[2 + n..];
      FirstFramed(input);
      FeedFrame(s, m);
      FeedSplit(s, Framed(m), more);
      FeedExactly(Feed(s, Framed(m)).state, more);
    } else {
      FeedRemainder(s, input);
    }
  }

  lemma {:induction false} NextFrame(input: seq<u8>) returns (n: nat)
    requires StartsWithFrame(input)
    ensures |input| >= 2 + n && n >= 1 && |input| >= 2 && n == Declared(input)
    ensures FramesOf(input) == [input[2..2 + n]] + FramesOf(input[2 + n..]) && RestOf(input) == RestOf(input[2 + n..])
  {
    n := Declared(input);
  }
}
