/** Decoded ITCH messages. The message types that the book ignores are one constructor. */
module Messages {
  import opened Types

  datatype Header = Header(stockLocate: u16, trackingNumber: u16, timestamp: u64)

  /** A stock symbol: eight bytes, padded with spaces on the right. */
  type Stock = s: seq<u8> | |s| == 8 witness [0x20, 0x20, 0x20, 0x20, 0x20, 0x20, 0x20, 0x20]

  datatype Message =
    | AddOrder(header: Header, orderId: u64, side: Side, quantity: u32, stock: Stock, price: u32)
    | AddOrderMpid(header: Header, orderId: u64, side: Side, quantity: u32, stock: Stock, price: u32,
                   attribution: seq<u8>)
    | OrderExecuted(header: Header, orderId: u64, executed: u32, matchNumber: u64)
    | OrderExecutedWithPrice(header: Header, orderId: u64, executed: u32, matchNumber: u64, printable: u8,
                             executionPrice: u32)
    | OrderCancel(header: Header, orderId: u64, canceled: u32)
    | OrderDelete(header: Header, orderId: u64)
    | OrderReplace(header: Header, originalOrderId: u64, newOrderId: u64, quantity: u32, price: u32)
    | Other(kind: u8, header: Header)

  const SPACE: u8 := 0x20

  /** The symbol without its trailing spaces. */
  function StockView(s: seq<u8>): seq<u8> {
    if s != [] && s[|s| - 1] == SPACE then StockView(s[..|s| - 1]) else s
  }
}
