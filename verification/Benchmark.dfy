/** The documented benchmark: generate a mixed file, read it back block by block and replay it into a new book. */
module Benchmark {
  import opened Types
  import opened Processing
  import opened Framing
  import opened FileReplay
  import opened Writers
  import opened Feeds
  import opened WorkloadBook
  import opened OrderBooks
  import Compose

  /** The size of the read buffer. */
  const BLOCK: nat := 0x10_0000

  lemma {:induction false} FlattenAppend(chunks: seq<seq<u8>>, last: seq<u8>)
    ensures Flatten(chunks + [last]) == Flatten(chunks) + last
  {
    if chunks == [] {
      assert [last][1..] == [];
      assert last + [] == [] + last;
    } else {
      FlattenAppend(chunks[1..], last);
      assert (chunks + [last])[1..] == chunks[1..] + [last];
      assert chunks[0] + (Flatten(chunks[1..]) + last) == (chunks[0] + Flatten(chunks[1..])) + last;
    }
  }

  /** The reads of a file: full blocks and then what is left, none of them empty. */
  method Reads(file: seq<u8>) returns (buffers: seq<seq<u8>>)
    ensures Flatten(buffers) == file
    ensures |buffers| == (|file| + BLOCK - 1) / BLOCK
    ensures forall i :: 0 <= i < |buffers| ==> |buffers[i]| == if i < |buffers| - 1 then BLOCK else |file| - BLOCK * i
  {
    hide Flatten;
    buffers := [];
    NoChunks();
    var at := 0;
    while at < |file|
      invariant at == if BLOCK * |buffers| < |file| then BLOCK * |buffers| else |file|
      invariant BLOCK * |buffers| < |file| + BLOCK
      invariant Flatten(buffers) == file[..at]
      invariant forall i :: 0 <= i < |buffers| ==>
                  |buffers[i]| == if BLOCK * (i + 1) <= |file| then BLOCK else |file| - BLOCK * i
    {
      var end := if at + BLOCK < |file| then at + BLOCK else |file|;
      FlattenAppend(buffers, file[at..end]);
      assert file[..at] + file[at..end] == file[..end];
      buffers := buffers + [file[at..end]];
      at := end;
    }
    assert file[..|file|] == file;
  }

  lemma {:induction false} NoChunks()
    ensures Flatten([]) == []
  {}

  /**
   A book with room for the workload decodes and accepts every generated message, whatever hash mixer it uses,
   and its own counter of active orders ends at the replaced orders and at most one more.
   */
  method ReplayGenerated(count: u64, maxOrders: int, maxLevels: int, symbol: seq<u8>, mix: u64 -> u64)
    returns (book: OrderBook, stats: DecoderStats)
    requires 1 <= maxOrders <= MAX_INDEX && GRID <= maxLevels <= MAX_INDEX && Takes(symbol)
    requires count / 2 < REPLACED && (count / 2 + 1) / 4 < maxOrders
    ensures fresh(book) && book.Valid() && stats == DecoderStats(count, 0, 0) && book.Stats() == Stats(count, 0, 0)
    ensures book.activeOrders == |book.shadow.book.orders| == (count / 2 + 1) / 4 + count % 2
  {
    hide WorkloadFile, Flatten, Feed, FeedChunks, ReplayAll, OrderBook.Valid;
    var output := Generate(count, Mixed);
    var buffers := Reads(output);
    book := new OrderBook(maxOrders, maxLevels, symbol, mix);
    ghost var lim := book.Limit();
    stats := RunFile(book, buffers);
    ChunkingIndependent(Partial([], NO_COUNTS), buffers);
    GeneratedReplay(count, buffers, lim, symbol);
    CountedOrders(book);
  }

  lemma {:induction false} CountedOrders(book: OrderBook)
    requires book.Valid()
    ensures book.activeOrders == |book.shadow.book.orders|
  {
    Compose.ActiveCounts(book.State(), book.mix);
    hide Compose.BookOk;
  }

  /** The run reported in the documentation, with its capacities: ten million messages leave 1,250,000 active orders. */
  method ReplayDocumented(mix: u64 -> u64) returns (book: OrderBook, stats: DecoderStats)
    ensures fresh(book) && book.Valid() && stats == DecoderStats(10_000_000, 0, 0) &&
            book.Stats() == Stats(10_000_000, 0, 0)
    ensures book.activeOrders == 1_250_000
  {
    hide OrderBook.Valid, Takes;
    TakesApple();
    book, stats := ReplayGenerated(10_000_000, 1_500_000, 1_000, AAPL, mix);
  }

  lemma {:induction false} TakesApple()
    ensures Takes(AAPL)
  {}
}
