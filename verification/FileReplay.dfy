/** Replaying a file or a capture on one thread: decode, and process every message as it comes out. */
module FileReplay {
  import opened Types
  import opened Messages
  import opened BookSpec
  import opened Processing
  import opened Framing
  import opened FramedDecoders
  import opened Capture
  import opened Sequencing
  import opened Encoding
  import opened OrderBooks
  import FrameCounts
  import Wrapping

  /** What finishing the stream adds to the counters. */
  function Finished(p: Partial): DecoderStats {
    if p.buf == [] then p.stats else p.stats.(malformed := Wrap64(p.stats.malformed + 1))
  }

  /**
   `buffers` are the results of the reads that brought bytes. The book ends as if the whole file had been decoded
   at once and its messages processed in order.
   */
  method RunFile(book: OrderBook, buffers: seq<seq<u8>>) returns (stats: DecoderStats)
    requires book.Valid()
    modifies book
    ensures var whole := Feed(Partial([], NO_COUNTS), Flatten(buffers));
            stats == Finished(whole.state) &&
            Desk(book.shadow.book, book.Stats()) ==
            ReplayAll(Desk(old(book.shadow.book), old(book.Stats())), old(book.Limit()), book.symbol, whole.messages)
    ensures var input := Flatten(buffers); stats == FileCounts(FrameCounts.FramesOf(input), FrameCounts.RestOf(input))
    ensures book.Valid() && book.Limit() == old(book.Limit())
  {
    hide FileCounts, FrameCounts.FramesOf, FrameCounts.RestOf, ReplayAll, Feed, Incomplete, OrderBook.Valid,
         Compose.BookOk, FeedChunks, Flatten, ReadsLeft, LengthOf;
    ghost var desk, lim, start := Desk(book.shadow.book, book.Stats()), book.Limit(), Partial([], NO_COUNTS);
    var decoder := new FramedDecoder();
    ghost var messages: seq<Message> := [];
    StartReads(start, buffers, desk, lim, book.symbol);
    var ok := true;
    var i := 0;
    while i < |buffers| && ok
      invariant i <= |buffers| && decoder.Valid() && fresh(decoder) && fresh(decoder.lengthBuf) &&
                fresh(decoder.messageBuf)
      invariant book.Valid() && book.Limit() == lim &&
                Desk(book.shadow.book, book.Stats()) == ReplayAll(desk, lim, book.symbol, messages)
      invariant if ok then ReadsLeft(start, buffers, decoder.State(), messages, i)
                else FeedChunks(start, buffers) == Fed(decoder.State(), messages, false)
      decreases |buffers| - i
    {
      ghost var before := decoder.State();
      var emitted;
      ok, emitted := decoder.Consume(buffers[i]);
      book.ProcessAll(emitted);
      ReplayConcat(desk, lim, book.symbol, messages, emitted);
      NextRead(start, buffers, before, messages, i);
      messages := messages + emitted;
      i := i + 1;
    }
    if ok { NoReadsLeft(start, buffers, decoder.State(), messages); }
    ChunkingIndependent(start, buffers);
    var _ := decoder.Finish();
    stats := decoder.stats;
    FileCounted(Flatten(buffers));
  }

  /**
   The counters of a file: frames that parse, frames of a known type that do not, with one more for a rest that is
   cut off or has an impossible length, and frames of an unknown type.
   */
  function FileCounts(frames: seq<seq<u8>>, rest: seq<u8>): DecoderStats {
    DecoderStats(Wrap64(FrameCounts.HowMany(frames, FrameCounts.Good)),
                 Wrap64(FrameCounts.HowMany(frames, FrameCounts.Bad) + if rest == [] then 0 else 1),
                 Wrap64(FrameCounts.HowMany(frames, FrameCounts.OfUnknownType)))
  }

  /** Decoding a file counts its frames by kind, and hands on what the good ones carry. */
  lemma {:induction false} FileCounted(input: seq<u8>)
    ensures var frames, whole := FrameCounts.FramesOf(input), Feed(Partial([], NO_COUNTS), input);
            Finished(whole.state) == FileCounts(frames, FrameCounts.RestOf(input)) &&
            FrameCounts.Meanings(frames, whole.messages) &&
            (whole.ok <==> !FrameCounts.Impossible(FrameCounts.RestOf(input)))
  {
    hide FrameCounts.FramesOf, FrameCounts.RestOf, FrameCounts.HowMany, FrameCounts.Meanings, ParseAll, Feed, Wrap64;
    var frames := FrameCounts.FramesOf(input);
    FrameCounts.FeedExactly(Partial([], NO_COUNTS), input);
    FrameCounts.CountsExactly(NO_COUNTS, frames);
    Wrapping.WrapSum(FrameCounts.HowMany(frames, FrameCounts.Bad), 1);
    assert [] == FrameCounts.RestOf(input) ==> !FrameCounts.Impossible(FrameCounts.RestOf(input));
  }

  /** After i buffers have been read, going on from state s completes what decoding all of them gives. */
  ghost predicate ReadsLeft(start: Partial, buffers: seq<seq<u8>>, s: Partial, messages: seq<Message>, i: nat)
    requires Incomplete(start.buf) && Incomplete(s.buf) && i <= |buffers|
  {
    var rest := FeedChunks(s, buffers[i..]);
    FeedChunks(start, buffers) == Fed(rest.state, messages + rest.messages, rest.ok)
  }

  lemma {:induction false} StartReads(start: Partial, buffers: seq<seq<u8>>, desk: Desk, lim: Limits, symbol: seq<u8>)
    requires Incomplete(start.buf)
    ensures ReadsLeft(start, buffers, start, [], 0) && ReplayAll(desk, lim, symbol, []) == desk
  {
    assert buffers[0..] == buffers;
    assert [] + FeedChunks(start, buffers).messages == FeedChunks(start, buffers).messages;
  }

  lemma {:induction false} NextRead(start: Partial, buffers: seq<seq<u8>>, s: Partial, messages: seq<Message>, i: nat)
    requires Incomplete(start.buf) && Incomplete(s.buf) && i < |buffers| && ReadsLeft(start, buffers, s, messages, i)
    ensures var next := Feed(s, buffers[i]);
            if next.ok then ReadsLeft(start, buffers, next.state, messages + next.messages, i + 1)
            else FeedChunks(start, buffers) == Fed(next.state, messages + next.messages, false)
  {
    hide Feed, Incomplete;
    var rest := buffers[i..];
    assert rest[0] == buffers[i] && rest[1..] == buffers[i + 1..];
    var next := Feed(s, buffers[i]);
    if next.ok {
      var more := FeedChunks(next.state, buffers[i + 1..]);
      assert (messages + next.messages) + more.messages == messages + (next.messages + more.messages);
    }
  }

  lemma {:induction false} NoReadsLeft(start: Partial, buffers: seq<seq<u8>>, s: Partial, messages: seq<Message>)
    requires Incomplete(start.buf) && Incomplete(s.buf) && ReadsLeft(start, buffers, s, messages, |buffers|)
    ensures FeedChunks(start, buffers) == Fed(s, messages, true)
  {
    assert buffers[|buffers|..] == [];
    assert messages + [] == messages;
  }

  /** The same for the UDP payloads of a capture. */
  method RunCapture(book: OrderBook, packets: seq<seq<u8>>) returns (stats: PacketStats, parsed: DecoderStats)
    requires book.Valid()
    modifies book
    ensures book.Valid() && book.Limit() == old(book.Limit())
    ensures stats == ReceivedAll(AT_START, packets).packets && parsed == ReceivedAll(AT_START, packets).parsed
    ensures Desk(book.shadow.book, book.Stats()) ==
            ReplayAll(Desk(old(book.shadow.book), old(book.Stats())), old(book.Limit()), book.symbol,
                      ReceivedAll(AT_START, packets).messages)
  {
    hide ReplayAll, ReceivedAll, OrderBook.Valid, Compose.BookOk;
    var messages, gate;
    stats, parsed, messages, gate := DecodeCapture(packets);
    book.ProcessAll(messages);
  }

  /**
   The same messages leave the same book, whether they come framed in a file or as consecutive datagrams of a
   session.
   */
  lemma {:induction false} FileAndCaptureAgree(d: Desk, lim: Limits, symbol: seq<u8>, batches: seq<seq<Message>>,
                                               buffers: seq<seq<u8>>,
                                               session: Session, sequence: u64)
    requires CanSend(batches) && sequence + CountOf(batches) < U64_MODULUS && Flatten(buffers) == AsFile(batches)
    ensures ReplayAll(d, lim, symbol, Feed(Partial([], NO_COUNTS), Flatten(buffers)).messages) ==
            ReplayAll(d, lim, symbol, ReceivedAll(AT_START, Sent(session, sequence, batches)).messages)
  {
    hide ReplayAll, Feed, FeedChunks, Received, Encodable, FileOf, Flatten, Joined, CountOf;
    JoinedEncodable(batches);
    FeedRoundTrip(Joined(batches), buffers);
    ChunkingIndependent(Partial([], NO_COUNTS), buffers);
    SentReceived(AT_START, session, sequence, batches);
    assert AT_START.messages + Joined(batches) == Joined(batches);
  }
}
