/** The feed generator's message writer: a fixed buffer, filled field by field, then framed. */
module Writers {
  import opened Types
  import opened Bytes
  import opened Messages
  import opened Wire
  import opened Encoding
  import opened Framing
  import Wrapping

  /** The text of a symbol, padded with spaces to a width. */
  function Padded(text: seq<u8>, width: nat): (s: seq<u8>)
    ensures |s| == width
  {
    seq(width, i requires 0 <= i => if i < |text| then text[i] else SPACE)
  }

  const AAPL: seq<u8> := [Code('A'), Code('A'), Code('P'), Code('L')]

  const MATCH_OFFSET: nat := 9_000_000

  /** Every generated header; only 48 bits of the timestamp are written. */
  function GeneratedHeader(timestamp: u64): Header { Header(1, 0, timestamp % 0x1_0000_0000_0000) }

  lemma {:induction false} LowBytes(v: nat, n: nat)
    ensures ToBytes(v % Pow256(n), n) == ToBytes(v, n)
  {
    FromTo(v, n);
    ToFrom(ToBytes(v, n));
  }

  lemma {:induction false} DivStep(v: nat, p: nat)
    requires p > 0
    ensures v / p / 256 == v / (256 * p)
  {
    var a := v / p;
    DivCombine(v, p, a, v % p, a / 256, a % 256);
  }

  lemma {:induction false} DivCombine(v: nat, p: nat, a: nat, low: nat, q: nat, r: nat)
    requires v == p * a + low && low < p && a == 256 * q + r && r < 256
    ensures v / (256 * p) == q
  {
    assert p * a == (256 * p) * q + p * r;
    assert p * r <= p * 255;
    DivUnique(256 * p, q, p * r + low);
  }

  lemma {:induction false} NextPower(n: nat)
    requires n > 0
    ensures Pow256(n) == 256 * Pow256(n - 1)
  {}

  lemma {:induction false} NoPower(v: nat)
    ensures v / Pow256(0) == v
  {}

  lemma {:induction false} DivUnique(c: int, q: int, r: int)
    requires 0 <= r < c
    ensures (c * q + r) / c == q
  {
    var n := c * q + r;
    assert c * (n / c - q) == r - n % c;
    Wrapping.Scaled(c, n / c - q);
  }

  class Writer {
    const buffer: array<u8>
    var position: nat

    ghost predicate Valid()
      reads this
    {
      buffer.Length == 64 && position <= 64
    }

    ghost function Written(): seq<u8>
      requires Valid()
      reads this, buffer
    {
      buffer[..position]
    }

    constructor ()
      ensures Valid() && Written() == [] && fresh(buffer)
    {
      buffer := new u8[64];
      position := 0;
    }

    method U8(value: u8)
      requires Valid() && position < 64
      modifies this, buffer
      ensures Valid() && Written() == old(Written()) + [value] && position == old(position) + 1
    {
      buffer[position] := value;
      position := position + 1;
    }

    method U16(value: u16)
      requires Valid() && position + 2 <= 64
      modifies this, buffer
      ensures Valid() && Written() == old(Written()) + ToBytes(value, 2) && position == old(position) + 2
    {
      U8(value / 256);
      U8(value % 256);
      assert ToBytes(value / 256, 1) == [] + [value / 256];
    }

    /** The shift loop of u32, u48 and u64: the `width` low-order bytes of the value, most significant first. */
    method BigEndian(value: u64, width: nat)
      requires Valid() && position + width <= 64
      modifies this, buffer
      ensures Valid() && Written() == old(Written()) + ToBytes(value, width) && position == old(position) + width
    {
      hide Pow256;
      assert ToBytes(value / Pow256(width), 0) == [];
      for i := 0 to width
        invariant Valid() && position == old(position) + i
        invariant Written() == old(Written()) + ToBytes(value / Pow256(width - i), i)
      {
        NextPower(width - i);
        Shifted(value, Pow256(width - i - 1), i);
        U8(value / Pow256(width - i - 1) % 256);
      }
      NoPower(value);
    }

    method U32(value: u32)
      requires Valid() && position + 4 <= 64
      modifies this, buffer
      ensures Valid() && Written() == old(Written()) + ToBytes(value, 4) && position == old(position) + 4
    {
      BigEndian(value, 4);
    }

    method U48(value: u64)
      requires Valid() && position + 6 <= 64
      modifies this, buffer
      ensures Valid() && Written() == old(Written()) + ToBytes(value, 6) && position == old(position) + 6
    {
      BigEndian(value, 6);
    }

    method U64(value: u64)
      requires Valid() && position + 8 <= 64
      modifies this, buffer
      ensures Valid() && Written() == old(Written()) + ToBytes(value, 8) && position == old(position) + 8
    {
      BigEndian(value, 8);
    }

    method Chars(value: seq<u8>, width: nat)
      requires Valid() && position + width <= 64
      modifies this, buffer
      ensures Valid() && Written() == old(Written()) + Padded(value, width) && position == old(position) + width
    {
      for i := 0 to width
        invariant Valid() && position == old(position) + i && Written() == old(Written()) + Padded(value, width)[..i]
      {
        assert Padded(value, width)[..i + 1] == Padded(value, width)[..i] + [Padded(value, width)[i]];
        U8(if i < |value| then value[i] else SPACE);
      }
      assert Padded(value, width)[..width] == Padded(value, width);
    }

    method WriteHeader(t: u8, timestamp: u64)
      requires Valid() && Written() == []
      modifies this, buffer
      ensures Valid() && Written() == Head(t, GeneratedHeader(timestamp)) && position == 11
    {
      hide ToBytes;
      U8(t);
      U16(1);
      U16(0);
      U48(timestamp);
      PowValues();
      LowBytes(timestamp, 6);
    }

    /** The frame of what has been written; the buffer is empty afterwards. */
    method Frame() returns (frame: seq<u8>)
      requires Valid() && CanFrame(Written())
      modifies this
      ensures Valid() && frame == Framed(old(Written())) && Written() == []
    {
      assert ToBytes(position / 256, 1) == [] + [position / 256 % 256];
      frame := [position / 256 % 256, position % 256] + buffer[..position];
      position := 0;
    }

    method Add(id: u64, timestamp: u64, side: Side, quantity: u32, price: u32) returns (frame: seq<u8>)
      requires Valid() && Written() == []
      modifies this, buffer
      ensures var m := AddOrder(GeneratedHeader(timestamp), id, side, quantity, Padded(AAPL, 8), price);
              CanFrame(Encode(m)) && frame == Framed(Encode(m))
      ensures Valid() && Written() == []
    {
      hide ToBytes, Head, Padded, Framed;
      WriteHeader(Code('A'), timestamp);
      ghost var head := Written();
      U64(id);
      U8(if side == Buy then Code('B') else Code('S'));
      U32(quantity);
      Chars(AAPL, 8);
      U32(price);
      Append5(head, ToBytes(id, 8), [SideCode(side)], ToBytes(quantity, 4), Padded(AAPL, 8), ToBytes(price, 4));
      frame := Frame();
    }

    method Cancel(id: u64, timestamp: u64, quantity: u32) returns (frame: seq<u8>)
      requires Valid() && Written() == []
      modifies this, buffer
      ensures var m := OrderCancel(GeneratedHeader(timestamp), id, quantity);
              CanFrame(Encode(m)) && frame == Framed(Encode(m))
      ensures Valid() && Written() == []
    {
      hide ToBytes, Head, Framed;
      WriteHeader(Code('X'), timestamp);
      ghost var head := Written();
      U64(id);
      U32(quantity);
      Append2(head, ToBytes(id, 8), ToBytes(quantity, 4));
      frame := Frame();
    }

    method DeleteOrder(id: u64, timestamp: u64) returns (frame: seq<u8>)
      requires Valid() && Written() == []
      modifies this, buffer
      ensures var m := OrderDelete(GeneratedHeader(timestamp), id); CanFrame(Encode(m)) && frame == Framed(Encode(m))
      ensures Valid() && Written() == []
    {
      hide ToBytes, Head, Framed;
      WriteHeader(Code('D'), timestamp);
      U64(id);
      frame := Frame();
    }

    method Execute(id: u64, timestamp: u64, quantity: u32) returns (frame: seq<u8>)
      requires Valid() && Written() == []
      modifies this, buffer
      ensures var m := OrderExecuted(GeneratedHeader(timestamp), id, quantity, Wrap64(id + MATCH_OFFSET));
              CanFrame(Encode(m)) && frame == Framed(Encode(m))
      ensures Valid() && Written() == []
    {
      hide ToBytes, Head, Framed;
      WriteHeader(Code('E'), timestamp);
      ghost var head := Written();
      U64(id);
      U32(quantity);
      U64(Wrap64(id + MATCH_OFFSET));
      Append3(head, ToBytes(id, 8), ToBytes(quantity, 4), ToBytes(Wrap64(id + MATCH_OFFSET), 8));
      frame := Frame();
    }

    method Replace(oldId: u64, newId: u64, timestamp: u64, quantity: u32, price: u32) returns (frame: seq<u8>)
      requires Valid() && Written() == []
      modifies this, buffer
      ensures var m := OrderReplace(GeneratedHeader(timestamp), oldId, newId, quantity, price);
              CanFrame(Encode(m)) && frame == Framed(Encode(m))
      ensures Valid() && Written() == []
    {
      hide ToBytes, Head, Framed;
      WriteHeader(Code('U'), timestamp);
      ghost var head := Written();
      U64(oldId);
      U64(newId);
      U32(quantity);
      U32(price);
      Append4(head, ToBytes(oldId, 8), ToBytes(newId, 8), ToBytes(quantity, 4), ToBytes(price, 4));
      frame := Frame();
    }
  }

  /** Moving on by one byte of a value. */
  lemma {:induction false} Shifted(v: nat, p: nat, i: nat)
    requires p > 0
    ensures ToBytes(v / p, i + 1) == ToBytes(v / (256 * p), i) + [v / p % 256]
  {
    DivStep(v, p);
  }

  lemma {:induction false} Append2(a: seq<u8>, b: seq<u8>, c: seq<u8>)
    ensures a + b + c == a + (b + c)
  {}

  lemma {:induction false} Append3(a: seq<u8>, b: seq<u8>, c: seq<u8>, d: seq<u8>)
    ensures a + b + c + d == a + (b + (c + d))
  {}

  lemma {:induction false} Append4(a: seq<u8>, b: seq<u8>, c: seq<u8>, d: seq<u8>, e: seq<u8>)
    ensures a + b + c + d + e == a + (b + (c + (d + e)))
  {}

  lemma {:induction false} Append5(a: seq<u8>, b: seq<u8>, c: seq<u8>, d: seq<u8>, e: seq<u8>, f: seq<u8>)
    ensures a + b + c + d + e + f == a + (b + (c + (d + (e + f))))
  {}
}
