/** The feed generator's encoder, and why it and the parser are inverse to each other. */
module Encoding {
  import opened Types
  import opened Bytes
  import opened Messages
  import opened Wire

  function Head(t: u8, h: Header): (s: seq<u8>)
    ensures |s| == 11
  {
    [t] + ToBytes(h.stockLocate, 2) + ToBytes(h.trackingNumber, 2) + ToBytes(h.timestamp, 6)
  }

  /** The wire form of the messages that a book acts on. */
  function Encode(m: Message): seq<u8>
    requires !m.Other?
  {
    match m
    case AddOrder(h, id, side, q, stock, p) =>
      Head(Code('A'), h) + (ToBytes(id, 8) + ([SideCode(side)] + (ToBytes(q, 4) + (stock + ToBytes(p, 4)))))
    case AddOrderMpid(h, id, side, q, stock, p, who) =>
      Head(Code('F'), h) + (ToBytes(id, 8) + ([SideCode(side)] + (ToBytes(q, 4) + (stock + (ToBytes(p, 4) + who)))))
    case OrderExecuted(h, id, q, n) => Head(Code('E'), h) + (ToBytes(id, 8) + (ToBytes(q, 4) + ToBytes(n, 8)))
    case OrderExecutedWithPrice(h, id, q, n, printable, p) =>
      Head(Code('C'), h) + (ToBytes(id, 8) + (ToBytes(q, 4) + (ToBytes(n, 8) + ([printable] + ToBytes(p, 4)))))
    case OrderCancel(h, id, q) => Head(Code('X'), h) + (ToBytes(id, 8) + ToBytes(q, 4))
    case OrderDelete(h, id) => Head(Code('D'), h) + ToBytes(id, 8)
    case OrderReplace(h, id, newId, q, p) =>
      Head(Code('U'), h) + (ToBytes(id, 8) + (ToBytes(newId, 8) + (ToBytes(q, 4) + ToBytes(p, 4))))
  }

  /** What the wire can carry: a 48-bit timestamp and a four-byte attribution. */
  predicate Encodable(m: Message) {
    !m.Other? && m.header.timestamp < 0x1_0000_0000_0000 && (m.AddOrderMpid? ==> |m.attribution| == 4)
  }

  // ---------- Fields ----------

  /** The field after the first i bytes, when b goes on with `field` and then `rest`. */
  lemma {:induction false} Field(b: seq<u8>, i: nat, field: seq<u8>, rest: seq<u8>)
    requires i <= |b| && b[i..] == field + rest
    ensures i + |field| <= |b| && b[i..i + |field|] == field && b[i + |field|..] == rest
  {
    var j := i + |field|;
    forall k | i <= k < j ensures b[k] == field[k - i] {
      assert b[i..][k - i] == b[k];
    }
    forall k | j <= k < |b| ensures b[k] == rest[k - j] {
      assert b[i..][k - i] == b[k];
    }
  }

  lemma {:induction false} Field64(b: seq<u8>, i: nat, v: u64, rest: seq<u8>)
    requires i <= |b| && b[i..] == ToBytes(v, 8) + rest
    ensures i + 8 <= |b| && U64At(b, i) == v && b[i + 8..] == rest
  {
    Field(b, i, ToBytes(v, 8), rest);
    FromTo(v, 8);
    PowValues();
  }

  lemma {:induction false} Field32(b: seq<u8>, i: nat, v: u32, rest: seq<u8>)
    requires i <= |b| && b[i..] == ToBytes(v, 4) + rest
    ensures i + 4 <= |b| && U32At(b, i) == v && b[i + 4..] == rest
  {
    Field(b, i, ToBytes(v, 4), rest);
    FromTo(v, 4);
    PowValues();
  }

  lemma {:induction false} Field16(b: seq<u8>, i: nat, v: u16, rest: seq<u8>)
    requires i <= |b| && b[i..] == ToBytes(v, 2) + rest
    ensures i + 2 <= |b| && U16At(b, i) == v && b[i + 2..] == rest
  {
    Field(b, i, ToBytes(v, 2), rest);
    FromTo(v, 2);
    PowValues();
  }

  lemma {:induction false} FieldByte(b: seq<u8>, i: nat, v: u8, rest: seq<u8>)
    requires i <= |b| && b[i..] == [v] + rest
    ensures i + 1 <= |b| && b[i] == v && b[i + 1..] == rest
  {
    Field(b, i, [v], rest);
    assert b[i..i + 1][0] == v;
  }

  lemma {:induction false} FieldHead(b: seq<u8>, t: u8, h: Header, rest: seq<u8>)
    requires b == Head(t, h) + rest
    ensures |b| == 11 + |rest| && b[0] == t && b[11..] == rest
    ensures HeaderAt(b) == h.(timestamp := h.timestamp % 0x1_0000_0000_0000)
  {
    var s := ToBytes(h.timestamp, 6) + rest;
    assert b[0..] == [t] + (ToBytes(h.stockLocate, 2) + (ToBytes(h.trackingNumber, 2) + s));
    FieldByte(b, 0, t, ToBytes(h.stockLocate, 2) + (ToBytes(h.trackingNumber, 2) + s));
    Field16(b, 1, h.stockLocate, ToBytes(h.trackingNumber, 2) + s);
    Field16(b, 3, h.trackingNumber, s);
    Field(b, 5, ToBytes(h.timestamp, 6), rest);
    FromTo(h.timestamp, 6);
    PowValues();
  }

  // ---------- Round trips ----------

  /** A message that starts with an encoded header and goes on with `rest`. */
  lemma {:induction false} Start(t: u8, h: Header, rest: seq<u8>) returns (b: seq<u8>)
    requires h.timestamp < 0x1_0000_0000_0000
    ensures b == Head(t, h) + rest && |b| == 11 + |rest| && b[0] == t && b[11..] == rest && HeaderAt(b) == h
  {
    b := Head(t, h) + rest;
    FieldHead(b, t, h, rest);
  }

  lemma {:induction false} Last32(b: seq<u8>, i: nat, v: u32)
    requires i <= |b| && b[i..] == ToBytes(v, 4)
    ensures i + 4 == |b| && U32At(b, i) == v
  {
    assert ToBytes(v, 4) + [] == ToBytes(v, 4);
    Field32(b, i, v, []);
  }

  lemma {:induction false} Last64(b: seq<u8>, i: nat, v: u64)
    requires i <= |b| && b[i..] == ToBytes(v, 8)
    ensures i + 8 == |b| && U64At(b, i) == v
  {
    assert ToBytes(v, 8) + [] == ToBytes(v, 8);
    Field64(b, i, v, []);
  }

  lemma {:induction false} AddRoundTrip(h: Header, id: u64, side: Side, q: u32, stock: Stock, p: u32)
    requires h.timestamp < 0x1_0000_0000_0000
    ensures Parse(Encode(AddOrder(h, id, side, q, stock, p))) == Parsed(AddOrder(h, id, side, q, stock, p))
  {
    hide Head, ToBytes, FromBytes, U64At, U32At, U16At, U48At, HeaderAt;
    var atStock := stock + ToBytes(p, 4);
    var atQuantity := ToBytes(q, 4) + atStock;
    var atSide := [SideCode(side)] + atQuantity;
    var b := Start(Code('A'), h, ToBytes(id, 8) + atSide);
    Field64(b, 11, id, atSide);
    FieldByte(b, 19, SideCode(side), atQuantity);
    Field32(b, 20, q, atStock);
    Field(b, 24, stock, ToBytes(p, 4));
    Last32(b, 32, p);
  }

  lemma {:induction false} AddMpidRoundTrip(h: Header, id: u64, side: Side, q: u32, stock: Stock, p: u32, who: seq<u8>)
    requires h.timestamp < 0x1_0000_0000_0000 && |who| == 4
    ensures Parse(Encode(AddOrderMpid(h, id, side, q, stock, p, who))) ==
              Parsed(AddOrderMpid(h, id, side, q, stock, p, who))
  {
    hide Head, ToBytes, FromBytes, U64At, U32At, U16At, U48At, HeaderAt;
    var atStock := stock + (ToBytes(p, 4) + who);
    var atQuantity := ToBytes(q, 4) + atStock;
    var atSide := [SideCode(side)] + atQuantity;
    var b := Start(Code('F'), h, ToBytes(id, 8) + atSide);
    Field64(b, 11, id, atSide);
    FieldByte(b, 19, SideCode(side), atQuantity);
    Field32(b, 20, q, atStock);
    Field(b, 24, stock, ToBytes(p, 4) + who);
    Field32(b, 32, p, who);
    assert b[36..40] == who;
  }

  lemma {:induction false} ExecutedRoundTrip(h: Header, id: u64, q: u32, n: u64)
    requires h.timestamp < 0x1_0000_0000_0000
    ensures Parse(Encode(OrderExecuted(h, id, q, n))) == Parsed(OrderExecuted(h, id, q, n))
  {
    hide Head, ToBytes, FromBytes, U64At, U32At, U16At, U48At, HeaderAt;
    var atShares := ToBytes(q, 4) + ToBytes(n, 8);
    var b := Start(Code('E'), h, ToBytes(id, 8) + atShares);
    Field64(b, 11, id, atShares);
    Field32(b, 19, q, ToBytes(n, 8));
    Last64(b, 23, n);
  }

  lemma {:induction false} ExecutedWithPriceRoundTrip(h: Header, id: u64, q: u32, n: u64, printable: u8, p: u32)
    requires h.timestamp < 0x1_0000_0000_0000
    ensures var m := OrderExecutedWithPrice(h, id, q, n, printable, p); Parse(Encode(m)) == Parsed(m)
  {
    hide Head, ToBytes, FromBytes, U64At, U32At, U16At, U48At, HeaderAt;
    var atPrintable := [printable] + ToBytes(p, 4);
    var atMatch := ToBytes(n, 8) + atPrintable;
    var atShares := ToBytes(q, 4) + atMatch;
    var b := Start(Code('C'), h, ToBytes(id, 8) + atShares);
    Field64(b, 11, id, atShares);
    Field32(b, 19, q, atMatch);
    Field64(b, 23, n, atPrintable);
    FieldByte(b, 31, printable, ToBytes(p, 4));
    Last32(b, 32, p);
  }

  lemma {:induction false} CancelRoundTrip(h: Header, id: u64, q: u32)
    requires h.timestamp < 0x1_0000_0000_0000
    ensures Parse(Encode(OrderCancel(h, id, q))) == Parsed(OrderCancel(h, id, q))
  {
    hide Head, ToBytes, FromBytes, U64At, U32At, U16At, U48At, HeaderAt;
    var b := Start(Code('X'), h, ToBytes(id, 8) + ToBytes(q, 4));
    Field64(b, 11, id, ToBytes(q, 4));
    Last32(b, 19, q);
  }

  lemma {:induction false} DeleteRoundTrip(h: Header, id: u64)
    requires h.timestamp < 0x1_0000_0000_0000
    ensures Parse(Encode(OrderDelete(h, id))) == Parsed(OrderDelete(h, id))
  {
    hide Head, ToBytes, FromBytes, U64At, U32At, U16At, U48At, HeaderAt;
    var b := Start(Code('D'), h, ToBytes(id, 8));
    Last64(b, 11, id);
  }

  lemma {:induction false} ReplaceRoundTrip(h: Header, id: u64, newId: u64, q: u32, p: u32)
    requires h.timestamp < 0x1_0000_0000_0000
    ensures Parse(Encode(OrderReplace(h, id, newId, q, p))) == Parsed(OrderReplace(h, id, newId, q, p))
  {
    hide Head, ToBytes, FromBytes, U64At, U32At, U16At, U48At, HeaderAt;
    var atQuantity := ToBytes(q, 4) + ToBytes(p, 4);
    var atNew := ToBytes(newId, 8) + atQuantity;
    var b := Start(Code('U'), h, ToBytes(id, 8) + atNew);
    Field64(b, 11, id, atNew);
    Field64(b, 19, newId, atQuantity);
    Field32(b, 27, q, ToBytes(p, 4));
    Last32(b, 31, p);
  }

  /** Parsing an encoded message gives the message back. */
  lemma {:induction false} RoundTrip(m: Message)
    requires Encodable(m)
    ensures Parse(Encode(m)) == Parsed(m)
  {
    hide Parse, Encode;
    match m
    case AddOrder(h, id, side, q, stock, p) => AddRoundTrip(h, id, side, q, stock, p);
    case AddOrderMpid(h, id, side, q, stock, p, who) => AddMpidRoundTrip(h, id, side, q, stock, p, who);
    case OrderExecuted(h, id, q, n) => ExecutedRoundTrip(h, id, q, n);
    case OrderExecutedWithPrice(h, id, q, n, printable, p) => ExecutedWithPriceRoundTrip(h, id, q, n, printable, p);
    case OrderCancel(h, id, q) => CancelRoundTrip(h, id, q);
    case OrderDelete(h, id) => DeleteRoundTrip(h, id);
    case OrderReplace(h, id, newId, q, p) => ReplaceRoundTrip(h, id, newId, q, p);
  }

  // ---------- The other way round ----------

  lemma {:induction false} Again64(b: seq<u8>, i: nat)
    requires i + 8 <= |b|
    ensures b[i..] == ToBytes(U64At(b, i), 8) + b[i + 8..]
  {
    ToFrom(b[i..i + 8]);
  }

  lemma {:induction false} Again32(b: seq<u8>, i: nat)
    requires i + 4 <= |b|
    ensures b[i..] == ToBytes(U32At(b, i), 4) + b[i + 4..]
  {
    ToFrom(b[i..i + 4]);
  }

  lemma {:induction false} AgainCode(b: seq<u8>, i: nat)
    requires i < |b|
    ensures b[i..] == [b[i]] + b[i + 1..]
    ensures SideFrom(b[i]).Some? ==> SideCode(SideFrom(b[i]).value) == b[i]
  {}

  lemma {:induction false} AgainHead(b: seq<u8>)
    requires 11 <= |b|
    ensures b == Head(b[0], HeaderAt(b)) + b[11..] && HeaderAt(b).timestamp < 0x1_0000_0000_0000
  {
    hide FromBytes, ToBytes, U16At, U48At;
    Again16(b, 1);
    Again16(b, 3);
    Again48(b, 5);
    assert b == [b[0]] + b[1..];
  }

  lemma {:induction false} Again16(b: seq<u8>, i: nat)
    requires i + 2 <= |b|
    ensures b[i..] == ToBytes(U16At(b, i), 2) + b[i + 2..]
  {
    ToFrom(b[i..i + 2]);
  }

  lemma {:induction false} Again48(b: seq<u8>, i: nat)
    requires i + 6 <= |b|
    ensures b[i..] == ToBytes(U48At(b, i), 6) + b[i + 6..] && U48At(b, i) < 0x1_0000_0000_0000
  {
    PowValues();
    ToFrom(b[i..i + 6]);
  }

  lemma {:induction false} NoBytes(b: seq<u8>, i: nat, s: seq<u8>)
    requires i == |b|
    ensures b[i..] == [] && s + b[i..] == s
  {}

  /** Encoding what has been parsed gives the bytes back, so the wire form of a message is unique. */
  lemma {:induction false} ParsedUnique(b: seq<u8>)
    requires Parse(b).Parsed? && !Parse(b).message.Other?
    ensures Encodable(Parse(b).message) && Encode(Parse(b).message) == b
  {
    hide Head, ToBytes, FromBytes, U64At, U32At, U16At, U48At, HeaderAt;
    var t := b[0];
    AgainHead(b);
    Again64(b, 11);
    if t == Code('A') || t == Code('F') {
      AgainAdd(b);
    } else if t == Code('U') {
      Again64(b, 19);
      Again32(b, 27);
      Again32(b, 31);
      NoBytes(b, 35, ToBytes(U32At(b, 31), 4));
    } else if t == Code('D') {
      NoBytes(b, 19, ToBytes(U64At(b, 11), 8));
    } else {
      AgainShares(b);
    }
  }

  lemma {:induction false} AgainAdd(b: seq<u8>)
    requires |b| == 36 || |b| == 40
    ensures b[19..] == [b[19]] + (ToBytes(U32At(b, 20), 4) + (b[24..32] + (ToBytes(U32At(b, 32), 4) + b[36..])))
    ensures SideFrom(b[19]).Some? ==> SideCode(SideFrom(b[19]).value) == b[19]
    ensures |b| == 36 ==> ToBytes(U32At(b, 32), 4) + b[36..] == ToBytes(U32At(b, 32), 4)
    ensures |b| == 40 ==> b[36..] == b[36..40]
  {
    hide ToBytes, FromBytes, U32At;
    AgainCode(b, 19);
    Again32(b, 20);
    assert b[24..] == b[24..32] + b[32..];
    Again32(b, 32);
  }

  lemma {:induction false} AgainShares(b: seq<u8>)
    requires |b| == 23 || |b| == 31 || |b| == 36
    ensures b[19..] == ToBytes(U32At(b, 19), 4) + b[23..]
    ensures |b| == 23 ==> b[19..] == ToBytes(U32At(b, 19), 4)
    ensures |b| > 23 ==> b[23..] == ToBytes(U64At(b, 23), 8) + b[31..]
    ensures |b| == 31 ==> b[23..] == ToBytes(U64At(b, 23), 8)
    ensures |b| == 36 ==> b[31..] == [b[31]] + ToBytes(U32At(b, 32), 4)
  {
    hide ToBytes, FromBytes, U32At, U64At;
    Again32(b, 19);
    if |b| > 23 { Again64(b, 23); }
    if |b| == 36 {
      AgainCode(b, 31);
      Again32(b, 32);
      NoBytes(b, 36, ToBytes(U32At(b, 32), 4));
    }
  }
}
