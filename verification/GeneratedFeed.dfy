/** The messages of a generated file one by one: message number i, as decoded, in closed form. */
module GeneratedFeed {
  import opened Types
  import opened Messages
  import opened Encoding
  import opened Framing
  import opened Writers
  import opened Feeds

  /** Stock locate 1, tracking number 0, and the low 48 bits of the timestamp. */
  predicate Stamped(h: Header, timestamp: nat) {
    h.stockLocate == 1 && h.trackingNumber == 0 && h.timestamp == timestamp % 0x1_0000_0000_0000
  }

  /** Ids 4 to 7, 12 to 15 and so on buy, the others sell. */
  predicate Buys(id: nat) { id % 8 >= 4 }

  /** Bids go down from 185.00 and asks up from 185.01, in steps of a cent. */
  function Price(id: nat): int { if Buys(id) then 1_850_000 - 100 * (id % 100) else 1_850_100 + 100 * (id % 100) }

  /** The add of an order: its side, 100 to 999 shares of AAPL, and its price. */
  predicate IsAdd(m: Message, id: nat, timestamp: nat) {
    m.AddOrder? && Stamped(m.header, timestamp) && m.orderId == id && (m.side == Buy <==> Buys(id)) &&
    m.quantity == 100 + id % 900 && m.price == Price(id) &&
    m.stock == ['A' as u8, 'A' as u8, 'P' as u8, 'L' as u8, ' ' as u8, ' ' as u8, ' ' as u8, ' ' as u8]
  }

  /** What follows it: by the id modulo 4, its cancel, execution, delete, or replacement one cent further out. */
  predicate IsClosing(m: Message, id: nat, timestamp: nat) {
    !m.Other? && Stamped(m.header, timestamp) &&
    match id % 4
    case 0 => m.OrderCancel? && m.orderId == id && m.canceled == 100 + id % 900
    case 1 =>
      m.OrderExecuted? && m.orderId == id && m.executed == 100 + id % 900 &&
      m.matchNumber == (id + 9_000_000) % U64_MODULUS
    case 2 => m.OrderDelete? && m.orderId == id
    case _ =>
      m.OrderReplace? && m.originalOrderId == id && m.newOrderId == (id + 1_000_000_000) % U64_MODULUS &&
      m.quantity == 50 && m.price == Price(id) + if Buys(id) then -100 else 100
  }

  lemma {:induction false} OpeningIs(id: u64, timestamp: u64)
    ensures IsAdd(Opening(id, timestamp), id, timestamp)
  {
    SidesAgree(id);
    var s := Padded(AAPL, 8);
    assert s[0] == 65 && s[1] == 65 && s[2] == 80 && s[3] == 76 && s[4] == 32 && s[5] == 32 && s[6] == 32 && s[7] == 32;
    hide Padded;
  }

  lemma {:induction false} SidesAgree(id: nat)
    ensures SideOf(id) == Buy <==> Buys(id)
    ensures PriceOf(id) == Price(id) && MovedPrice(id) == Price(id) + if Buys(id) then -100 else 100
  {
    Halves(id, id / 8, id % 8);
    hide Buys;
  }

  /** The third bit of a number, in two ways. */
  lemma {:induction false} Halves(id: nat, q: nat, r: nat)
    requires id == 8 * q + r && r < 8 && r == id % 8
    ensures id / 4 % 2 != 0 <==> Buys(id)
  {
    assert id / 4 == 2 * q + r / 4;
  }

  lemma {:induction false} ClosingIs(id: u64, timestamp: u64)
    ensures IsClosing(Closing(id, timestamp), id, timestamp)
  {
    SidesAgree(id);
    hide SideOf, PriceOf, MovedPrice, Buys, Price;
  }

  /** The rest of a mixed workload: adds and closings take turns, one order id after the other. */
  lemma {:induction false} MixedAt(count: u64, emitted: nat, id: nat, i: nat)
    requires emitted <= count && id >= 1 && emitted == 2 * (id - 1)
    ensures |Workload(count, Mixed, emitted, id)| == count - emitted
    ensures i < count - emitted ==>
      var m := Workload(count, Mixed, emitted, id)[i];
      if i % 2 == 0 then IsAdd(m, id + i / 2, emitted + i + 1) else IsClosing(m, id + i / 2, emitted + i + 1)
    decreases count - emitted
  {
    hide Opening, Closing, IsAdd, IsClosing;
    if emitted < count {
      OpeningIs(id, emitted + 1);
      if emitted + 1 < count {
        ClosingIs(id, emitted + 2);
        MixedAt(count, emitted + 2, id + 1, if i < 2 then 0 else i - 2);
      } else {
        LastOne(count, id);
      }
    }
  }

  lemma {:induction false} LastOne(count: u64, id: nat)
    requires 1 <= id <= count
    ensures Workload(count, Mixed, count - 1, id) == [Opening(id, count)]
  {
    hide Opening;
    assert Workload(count, Mixed, count, id + 1) == [];
  }

  lemma {:induction false} SequentialAt(count: u64, emitted: nat, i: nat)
    requires emitted <= count
    ensures |Workload(count, Sequential, emitted, emitted + 1)| == count - emitted
    ensures i < count - emitted ==>
      IsAdd(Workload(count, Sequential, emitted, emitted + 1)[i], emitted + i + 1, emitted + i + 1)
    decreases count - emitted
  {
    hide Opening, IsAdd;
    if emitted < count {
      OpeningIs(emitted + 1, emitted + 1);
      SequentialAt(count, emitted + 1, if i == 0 then 0 else i - 1);
    }
  }

  /** Message number i that decoding a generated file gives, however the file is cut. */
  lemma {:induction false} GeneratedAt(count: u64, mode: Mode, chunks: seq<seq<u8>>, i: nat)
    requires Flatten(chunks) == WorkloadFile(count, mode) && i < count
    ensures var ms := FeedChunks(Partial([], NO_COUNTS), chunks).messages;
            |ms| == count &&
            if mode == Sequential then IsAdd(ms[i], i + 1, i + 1)
            else if i % 2 == 0 then IsAdd(ms[i], i / 2 + 1, i + 1)
            else IsClosing(ms[i], i / 2 + 1, i + 1)
  {
    hide FeedChunks, Workload, FileOf, Flatten, Encodable, IsAdd, IsClosing;
    WorkloadEncodable(count, mode, 0, 1);
    FeedRoundTrip(Workload(count, mode, 0, 1), chunks);
    if mode == Sequential {
      SequentialAt(count, 0, i);
    } else {
      MixedAt(count, 0, 1, i);
    }
  }
}
