/** The resumable decoder of the file framing, with its fixed buffers. */
module FramedDecoders {
  import opened Types
  import opened Bytes
  import opened Messages
  import opened Wire
  import opened Framing

  class FramedDecoder {
    const lengthBuf: array<u8>
    const messageBuf: array<u8>
    var lengthBytes: nat
    var expected: nat
    var used: nat
    var stats: DecoderStats

    /** `used <= expected <= 64`, and a frame under way always wants more bytes. */
    ghost predicate Valid()
      reads this, lengthBuf
    {
      lengthBuf.Length == 2 && messageBuf.Length == MAX_MESSAGE && lengthBuf != messageBuf && lengthBytes <= 2 &&
      (lengthBytes < 2 ==> expected == 0 && used == 0) &&
      (lengthBytes == 2 ==> expected == FromBytes(lengthBuf[..]) && used < expected <= MAX_MESSAGE)
    }

    /** The bytes of the frame under way, and the counters. */
    ghost function State(): (s: Partial)
      requires Valid()
      reads this, lengthBuf, messageBuf
      ensures Incomplete(s.buf)
    {
      assert lengthBytes == 2 ==> (lengthBuf[..lengthBytes] + messageBuf[..used])[..2] == lengthBuf[..];
      Partial(lengthBuf[..lengthBytes] + messageBuf[..used], stats)
    }

    constructor ()
      ensures Valid() && State() == Partial([], NO_COUNTS) && fresh(lengthBuf) && fresh(messageBuf)
    {
      lengthBuf := new u8[2];
      messageBuf := new u8[MAX_MESSAGE];
      lengthBytes, expected, used := 0, 0, 0;
      stats := NO_COUNTS;
    }

    method Reset()
      modifies this`lengthBytes, this`expected, this`used
      ensures lengthBytes == 0 && expected == 0 && used == 0
    {
      lengthBytes := 0;
      expected := 0;
      used := 0;
    }

    /**
     Decodes what a call brings; the callback's messages are returned in order. The state, the messages and
     the result are those of decoding byte by byte.
     */
    method Consume(input: seq<u8>) returns (ok: bool, messages: seq<Message>)
      requires Valid()
      modifies this, lengthBuf, messageBuf
      ensures Valid() && Fed(State(), messages, ok) == Feed(old(State()), input)
    {
      hide Feed, Parse, PushByte, Incomplete;
      ghost var start := State();
      var i := 0;
      messages := [];
      FeedRest(start, input, start, messages, 0);
      while i < |input|
        invariant i <= |input| && Valid() && Resumes(start, input, State(), messages, i)
      {
        ghost var before := State();
        if lengthBytes < 2 {
          ok := TakeLengthByte(input[i]);
          FeedByte(start, input, before, messages, i);
          i := i + 1;
          if !ok {
            return;
          }
        } else {
          var take := Min(expected - used, |input| - i);
          var emitted := TakeBody(input[i..i + take]);
          FeedBody(start, input, before, messages, i, take);
          messages := messages + emitted;
          i := i + take;
        }
      }
      FeedDone(start, input, State(), messages);
      ok := true;
    }

    /** The first branch of the loop: one of the two length bytes. */
    method TakeLengthByte(b: u8) returns (ok: bool)
      requires Valid() && lengthBytes < 2
      modifies this, lengthBuf
      ensures Valid() && PushByte(old(State()), b) == Fed(State(), [], ok)
    {
      hide Parse, Pow256;
      ghost var before := State();
      lengthBuf[lengthBytes] := b;
      lengthBytes := lengthBytes + 1;
      assert before.buf + [b] == lengthBuf[..lengthBytes];
      if lengthBytes != 2 {
        return true;
      }
      TwoByteValue(lengthBuf[..]);
      assert lengthBuf[..][..2] == lengthBuf[..];
      expected := lengthBuf[0] as int * 256 + lengthBuf[1];
      if expected == 0 || expected > MAX_MESSAGE {
        stats := stats.(malformed := Wrap64(stats.malformed + 1));
        Reset();
        return false;
      }
      return true;
    }

    /** The second branch: as many bytes of the message as the call still has. */
    method TakeBody(chunk: seq<u8>) returns (emitted: seq<Message>)
      requires Valid() && lengthBytes == 2 && chunk != [] && used + |chunk| <= expected
      modifies this, messageBuf
      ensures Valid()
      ensures var s := old(State());
              |s.buf| >= 2 && |s.buf| + |chunk| <= 2 + LengthOf(s.buf) &&
              Absorb(s, chunk) == Fed(State(), emitted, true)
    {
      hide Parse, FromBytes;
      ghost var before := State();
      assert before.buf[..2] == lengthBuf[..];
      for k := 0 to |chunk|
        invariant unchanged(this) && lengthBuf[..] == old(lengthBuf[..])
        invariant messageBuf[..used + k] == old(messageBuf[..used]) + chunk[..k]
      {
        messageBuf[used + k] := chunk[k];
      }
      used := used + |chunk|;
      assert chunk[..|chunk|] == chunk;
      assert before.buf + chunk == lengthBuf[..] + messageBuf[..used];
      emitted := [];
      if used == expected {
        assert (before.buf + chunk)[2..] == messageBuf[..expected];
        var result, _ := ParseMessage(messageBuf[..expected]);
        match result {
          case Parsed(m) =>
            stats := stats.(decoded := Wrap64(stats.decoded + 1));
            emitted := [m];
          case Failed(UnsupportedType) =>
            stats := stats.(unsupported := Wrap64(stats.unsupported + 1));
          case Failed(_) =>
            stats := stats.(malformed := Wrap64(stats.malformed + 1));
        }
        Reset();
      }
    }

    /** Ends the stream: a frame under way is malformed. */
    method Finish() returns (ok: bool)
      requires Valid()
      modifies this
      ensures Valid() && (ok <==> old(State()).buf == []) && State().buf == []
      ensures State().stats == if ok then old(stats) else old(stats).(malformed := Wrap64(old(stats).malformed + 1))
    {
      if lengthBytes == 0 && used == 0 {
        return true;
      }
      stats := stats.(malformed := Wrap64(stats.malformed + 1));
      Reset();
      return false;
    }
  }

  lemma {:induction false} TwoByteValue(s: seq<u8>)
    requires |s| == 2
    ensures FromBytes(s) == s[0] as int * 256 + s[1]
  {
    assert s[..1][..0] == [];
    assert FromBytes(s[..1]) == FromBytes([]) * 256 + s[0];
  }

  // ---------- The loop of Consume ----------

  /** After i bytes of input, going on from state s completes what decoding the whole input gives. */
  ghost predicate Resumes(start: Partial, input: seq<u8>, s: Partial, messages: seq<Message>, i: nat)
    requires Incomplete(start.buf) && Incomplete(s.buf) && i <= |input|
  {
    var rest := Feed(s, input[i..]);
    Feed(start, input) == Fed(rest.state, messages + rest.messages, rest.ok)
  }

  lemma {:induction false} FeedRest(start: Partial, input: seq<u8>, s: Partial, messages: seq<Message>, i: nat)
    requires Incomplete(start.buf) && s == start && messages == [] && i == 0
    ensures Resumes(start, input, s, messages, i)
  {
    assert input[0..] == input;
  }

  lemma {:induction false} FeedByte(start: Partial, input: seq<u8>, s: Partial, messages: seq<Message>, i: nat)
    requires Incomplete(start.buf) && Incomplete(s.buf) && i < |input| && Resumes(start, input, s, messages, i) &&
             PushByte(s, input[i]).messages == []
    ensures var next := PushByte(s, input[i]);
            if next.ok then Resumes(start, input, next.state, messages, i + 1)
            else Feed(start, input) == Fed(next.state, messages, false)
  {
    hide PushByte, Incomplete;
    var rest := input[i..];
    assert rest[0] == input[i] && rest[1..] == input[i + 1..];
    var next := PushByte(s, input[i]);
    if next.ok {
      assert [] + Feed(next.state, input[i + 1..]).messages == Feed(next.state, input[i + 1..]).messages;
    } else {
      assert messages + [] == messages;
    }
  }

  lemma {:induction false} FeedBody(start: Partial, input: seq<u8>, s: Partial, messages: seq<Message>, i: nat,
                                    take: nat)
    requires Incomplete(start.buf) && Incomplete(s.buf) && 0 < take && i + take <= |input| &&
             Resumes(start, input, s, messages, i)
    requires |s.buf| >= 2 && |s.buf| + take <= 2 + LengthOf(s.buf)
    ensures var next := Absorb(s, input[i..i + take]);
            Resumes(start, input, next.state, messages + next.messages, i + take)
  {
    hide Feed, Incomplete;
    var chunk := input[i..i + take];
    var next := Absorb(s, chunk);
    FeedWithin(s, chunk);
    FeedSplit(s, chunk, input[i + take..]);
    assert input[i..] == chunk + input[i + take..];
    var rest := Feed(next.state, input[i + take..]);
    assert (messages + next.messages) + rest.messages == messages + (next.messages + rest.messages);
  }

  lemma {:induction false} FeedDone(start: Partial, input: seq<u8>, s: Partial, messages: seq<Message>)
    requires Incomplete(start.buf) && Incomplete(s.buf) && Resumes(start, input, s, messages, |input|)
    ensures Feed(start, input) == Fed(s, messages, true)
  {
    assert input[|input|..] == [];
    assert messages + [] == messages;
  }
}
