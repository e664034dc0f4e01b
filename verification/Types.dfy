/** Integer widths, identifiers and plain records shared by every module. */
module Types {
  type u8 = x: int | 0 <= x < 0x100
  type u16 = x: int | 0 <= x < 0x1_0000
  type u32 = x: int | 0 <= x < 0x1_0000_0000
  type u64 = x: int | 0 <= x < 0x1_0000_0000_0000_0000

  /** Largest pool size that an int32 index can address. */
  const MAX_INDEX: int := 0x7fff_ffff

  /** The null index of every intrusive link (and of `Order*`, modelled as an index). */
  const NONE: int := -1

  const U64_MODULUS: int := 0x1_0000_0000_0000_0000

  /** Unsigned 64-bit arithmetic wraps around. */
  function Wrap64(x: int): u64 { x % U64_MODULUS }

  /** Unsigned 32-bit arithmetic wraps around. */
  function Wrap32(x: int): u32 { x % 0x1_0000_0000 }

  /** The conversion `static_cast<std::int8_t>`: two's complement truncation. */
  function Int8(x: int): int { (x + 128) % 256 - 128 }

  function Max(a: int, b: int): int { if a >= b then a else b }

  function Min(a: int, b: int): int { if a <= b then a else b }

  datatype Option<+T> = None | Some(value: T)

  datatype Side = Buy | Sell

  datatype BookError =
    | Ok
    | DuplicateOrder
    | UnknownOrder
    | InvalidQuantity
    | OrderPoolExhausted
    | LookupFull
    | LevelPoolExhausted
    | WrongSymbol

  /** One price level: queue aggregates, FIFO ends, and the links of the tree and of the free list. */
  datatype PriceLevel = PriceLevel(
    price: u32, totalQuantity: u64, orderCount: u32,
    head: int, tail: int,
    left: int, right: int, parent: int, freeNext: int,
    height: int, active: bool)

  /** A value-initialised level whose only set field is the free-list link. */
  function BlankLevel(freeNext: int): PriceLevel {
    PriceLevel(0, 0, 0, NONE, NONE, NONE, NONE, NONE, freeNext, 1, false)
  }

  datatype Order = Order(
    id: u64, price: u32, quantity: u32, side: Side,
    level: int, prev: int, next: int, freeNext: int, active: bool)

  /** A value-initialised order slot whose only set field is the free-list link. */
  function BlankOrder(freeNext: int): Order {
    Order(0, 0, 0, Buy, NONE, NONE, NONE, freeNext, false)
  }

  /** A best quote, or one entry of a depth query. */
  datatype Quote = Quote(price: u32, quantity: u64, orders: u32)
}
