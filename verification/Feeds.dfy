/** The generated workload and the file that holds it. WorkloadBook.dfy says what replaying it leaves. */
module Feeds {
  import opened Types
  import opened Messages
  import opened Encoding
  import opened Framing
  import opened Writers

  datatype Mode = Sequential | Mixed

  const REPLACED: nat := 1_000_000_000

  function SideOf(id: nat): Side { if id / 4 % 2 != 0 then Buy else Sell }

  function QuantityOf(id: nat): u32 { 100 + id % 900 }

  function PriceOf(id: nat): u32 {
    if SideOf(id) == Buy then 1_850_000 - id % 100 * 100 else 1_850_100 + id % 100 * 100
  }

  function MovedPrice(id: nat): u32 { if SideOf(id) == Buy then PriceOf(id) - 100 else PriceOf(id) + 100 }

  function Opening(id: u64, timestamp: u64): Message {
    AddOrder(GeneratedHeader(timestamp), id, SideOf(id), QuantityOf(id), Padded(AAPL, 8), PriceOf(id))
  }

  /** What happens to order id next: it is cancelled, executed, deleted or replaced. */
  function Closing(id: u64, timestamp: u64): Message {
    var h := GeneratedHeader(timestamp);
    if id % 4 == 0 then OrderCancel(h, id, QuantityOf(id))
    else if id % 4 == 1 then OrderExecuted(h, id, QuantityOf(id), Wrap64(id + MATCH_OFFSET))
    else if id % 4 == 2 then OrderDelete(h, id)
    else OrderReplace(h, id, Wrap64(id + REPLACED), 50, MovedPrice(id))
  }

  /** The messages still to come when `emitted` have been written and order id is next. */
  function Workload(count: u64, mode: Mode, emitted: nat, id: nat): seq<Message>
    requires emitted <= count && 1 <= id <= emitted + 1
    decreases count - emitted
  {
    if emitted == count then []
    else if mode == Sequential || emitted + 1 == count then
      [Opening(id, emitted + 1)] + Workload(count, mode, emitted + 1, id + 1)
    else [Opening(id, emitted + 1), Closing(id, emitted + 2)] + Workload(count, mode, emitted + 2, id + 1)
  }

  lemma {:induction false} FileCons(m: Message, ms: seq<Message>)
    requires Encodable(m) && AllEncodable(ms)
    ensures CanFrame(Encode(m)) && FileOf([m] + ms) == Framed(Encode(m)) + FileOf(ms)
  {
    hide Encode, Framed, Encodable;
    EncodedLength(m);
    assert ([m] + ms)[0] == m && ([m] + ms)[1..] == ms;
    EncodedFrames([m] + ms);
    EncodedFrames(ms);
    assert EncodeAll([m] + ms)[1..] == EncodeAll(ms);
  }

  lemma {:induction false} WorkloadEncodable(count: u64, mode: Mode, emitted: nat, id: nat)
    requires emitted <= count && 1 <= id <= emitted + 1
    ensures AllEncodable(Workload(count, mode, emitted, id))
    decreases count - emitted
  {
    hide Padded;
    if emitted < count {
      if mode == Sequential || emitted + 1 == count {
        WorkloadEncodable(count, mode, emitted + 1, id + 1);
      } else {
        WorkloadEncodable(count, mode, emitted + 2, id + 1);
      }
    }
  }

  /** The file that the generator is for. */
  function WorkloadFile(count: u64, mode: Mode): seq<u8> {
    WorkloadEncodable(count, mode, 0, 1);
    FileOf(Workload(count, mode, 0, 1))
  }

  /** What one turn of the generator's loop writes, in front of the rest. */
  lemma {:induction false} Turn(count: u64, mode: Mode, emitted: nat, id: nat)
    requires emitted < count && 1 <= id <= emitted + 1
    requires AllEncodable(Workload(count, mode, emitted, id))
    ensures var alone, open := mode == Sequential || emitted + 1 == count, Opening(id, emitted + 1);
            Encodable(open) && CanFrame(Encode(open)) &&
            if alone then
              AllEncodable(Workload(count, mode, emitted + 1, id + 1)) &&
              FileOf(Workload(count, mode, emitted, id)) ==
                Framed(Encode(open)) + FileOf(Workload(count, mode, emitted + 1, id + 1))
            else
              var close, rest := Closing(id, emitted + 2), Workload(count, mode, emitted + 2, id + 1);
              Encodable(close) && CanFrame(Encode(close)) && AllEncodable(rest) &&
              FileOf(Workload(count, mode, emitted, id)) ==
                Framed(Encode(open)) + (Framed(Encode(close)) + FileOf(rest))
  {
    hide Encode, Framed, Encodable, Opening, Closing, FileOf;
    var all := Workload(count, mode, emitted, id);
    assert Encodable(all[0]);
    if mode == Sequential || emitted + 1 == count {
      WorkloadEncodable(count, mode, emitted + 1, id + 1);
      FileCons(all[0], Workload(count, mode, emitted + 1, id + 1));
    } else {
      var rest := Workload(count, mode, emitted + 2, id + 1);
      assert Encodable(all[1]);
      WorkloadEncodable(count, mode, emitted + 2, id + 1);
      FileCons(all[1], rest);
      FileCons(all[0], [all[1]] + rest);
      assert all == [all[0]] + ([all[1]] + rest);
    }
  }

  /** The switch of the generator's loop. */
  method Close(writer: Writer, id: u64, timestamp: u64, quantity: u32, movedPrice: u32) returns (frame: seq<u8>)
    requires writer.Valid() && writer.Written() == [] && quantity == QuantityOf(id) && movedPrice == MovedPrice(id)
    modifies writer, writer.buffer
    ensures CanFrame(Encode(Closing(id, timestamp))) && frame == Framed(Encode(Closing(id, timestamp)))
    ensures writer.Valid() && writer.Written() == []
  {
    hide Encode, Framed, Wrap64, GeneratedHeader;
    if id % 4 == 0 {
      frame := writer.Cancel(id, timestamp, quantity);
    } else if id % 4 == 1 {
      frame := writer.Execute(id, timestamp, quantity);
    } else if id % 4 == 2 {
      frame := writer.DeleteOrder(id, timestamp);
    } else {
      frame := writer.Replace(id, Wrap64(id + REPLACED), timestamp, 50, movedPrice);
    }
  }

  /** The generator's main loop. */
  method Generate(count: u64, mode: Mode) returns (output: seq<u8>)
    ensures output == WorkloadFile(count, mode)
  {
    hide Encode, Framed, Encodable, AllEncodable, FileOf, Workload, Padded, Closing, GeneratedHeader;
    WorkloadEncodable(count, mode, 0, 1);
    var writer := new Writer();
    var emitted, id, timestamp := 0, 1, 1;
    output := [];
    ghost var whole := FileOf(Workload(count, mode, 0, 1));
    assert [] + whole == whole;
    while emitted < count
      invariant emitted <= count && 1 <= id <= emitted + 1 && timestamp == emitted + 1
      invariant writer.Valid() && writer.Written() == [] && fresh(writer) && fresh(writer.buffer)
      invariant AllEncodable(Workload(count, mode, emitted, id))
      invariant output + FileOf(Workload(count, mode, emitted, id)) == whole
    {
      Turn(count, mode, emitted, id);
      var side := if id / 4 % 2 != 0 then Buy else Sell;
      var offset := id % 100 * 100;
      var quantity := 100 + id % 900;
      var price := if side == Buy then 1_850_000 - offset else 1_850_100 + offset;
      var frame := writer.Add(id, timestamp, side, quantity, price);
      output := output + frame;
      timestamp := timestamp + 1;
      emitted := emitted + 1;
      if mode == Sequential || emitted == count {
        id := id + 1;
        continue;
      }
      frame := Close(writer, id, timestamp, quantity, if side == Buy then price - 100 else price + 100);
      output := output + frame;
      timestamp := timestamp + 1;
      emitted := emitted + 1;
      id := id + 1;
    }
    NothingLeft(count, mode, id);
  }

  lemma {:induction false} NothingLeft(count: u64, mode: Mode, id: nat)
    requires 1 <= id <= count + 1
    ensures Workload(count, mode, count, id) == [] && FileOf([]) == []
  {}
}
