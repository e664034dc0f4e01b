/** The ITCH 5.0 wire format as the parser reads it. */
module Wire {
  import opened Types
  import opened Bytes
  import opened Messages

  datatype ParseError = Empty | UnsupportedType | WrongLength | InvalidSide

  datatype ParseResult = Parsed(message: Message) | Failed(error: ParseError)

  function Code(c: char): u8
    requires c as int < 128
  {
    c as int
  }

  function ExpectedLength(t: u8): nat {
    if t == Code('S') then 12
    else if t == Code('R') then 39
    else if t == Code('H') then 25
    else if t == Code('Y') then 20
    else if t == Code('L') then 26
    else if t == Code('V') then 35
    else if t == Code('W') then 12
    else if t == Code('K') then 28
    else if t == Code('J') then 35
    else if t == Code('h') then 21
    else if t == Code('A') then 36
    else if t == Code('F') then 40
    else if t == Code('E') then 31
    else if t == Code('C') then 36
    else if t == Code('X') then 23
    else if t == Code('D') then 19
    else if t == Code('U') then 35
    else if t == Code('P') then 44
    else if t == Code('Q') then 40
    else if t == Code('B') then 19
    else if t == Code('I') then 50
    else if t == Code('N') then 20
    else 0
  }

  /** How many bytes the reader takes; it leaves the last byte of an operational halt unread. */
  function BytesRead(t: u8): nat { if t == Code('h') then 20 else ExpectedLength(t) }

  function U16At(b: seq<u8>, i: nat): u16
    requires i + 2 <= |b|
  {
    PowValues();
    FromBytes(b[i..i + 2])
  }

  function U32At(b: seq<u8>, i: nat): u32
    requires i + 4 <= |b|
  {
    PowValues();
    FromBytes(b[i..i + 4])
  }

  function U48At(b: seq<u8>, i: nat): u64
    requires i + 6 <= |b|
  {
    PowValues();
    FromBytes(b[i..i + 6])
  }

  function U64At(b: seq<u8>, i: nat): u64
    requires i + 8 <= |b|
  {
    PowValues();
    FromBytes(b[i..i + 8])
  }

  function HeaderAt(b: seq<u8>): Header
    requires 11 <= |b|
  {
    Header(U16At(b, 1), U16At(b, 3), U48At(b, 5))
  }

  function SideFrom(c: u8): Option<Side> {
    if c == Code('B') then Some(Buy) else if c == Code('S') then Some(Sell) else None
  }

  function SideCode(side: Side): u8 { if side == Buy then Code('B') else Code('S') }

  /** The meaning of a message of the right length, field by field at fixed offsets. */
  function Decoded(b: seq<u8>): ParseResult
    requires b != [] && |b| == ExpectedLength(b[0])
  {
    var t := b[0];
    var h := HeaderAt(b);
    if t == Code('A') then
      if SideFrom(b[19]).None? then Failed(InvalidSide)
      else Parsed(AddOrder(h, U64At(b, 11), SideFrom(b[19]).value, U32At(b, 20), b[24..32], U32At(b, 32)))
    else if t == Code('F') then
      if SideFrom(b[19]).None? then Failed(InvalidSide)
      else Parsed(AddOrderMpid(h, U64At(b, 11), SideFrom(b[19]).value, U32At(b, 20), b[24..32], U32At(b, 32),
                               b[36..40]))
    else if t == Code('E') then Parsed(OrderExecuted(h, U64At(b, 11), U32At(b, 19), U64At(b, 23)))
    else if t == Code('C') then
      Parsed(OrderExecutedWithPrice(h, U64At(b, 11), U32At(b, 19), U64At(b, 23), b[31], U32At(b, 32)))
    else if t == Code('X') then Parsed(OrderCancel(h, U64At(b, 11), U32At(b, 19)))
    else if t == Code('D') then Parsed(OrderDelete(h, U64At(b, 11)))
    else if t == Code('U') then Parsed(OrderReplace(h, U64At(b, 11), U64At(b, 19), U32At(b, 27), U32At(b, 31)))
    else if t == Code('P') && SideFrom(b[19]).None? then Failed(InvalidSide)
    else Parsed(Other(t, h))
  }

  function Parse(b: seq<u8>): ParseResult {
    if b == [] then Failed(Empty)
    else if ExpectedLength(b[0]) == 0 then Failed(UnsupportedType)
    else if |b| != ExpectedLength(b[0]) then Failed(WrongLength)
    else Decoded(b)
  }

  /** A cursor over a message; position 0 holds the type. */
  class Reader {
    const bytes: seq<u8>
    var pos: nat

    constructor (bytes: seq<u8>)
      ensures this.bytes == bytes && pos == 1
    {
      this.bytes := bytes;
      pos := 1;
    }

    method U8() returns (v: u8)
      requires pos < |bytes|
      modifies this
      ensures pos == old(pos) + 1 && v == bytes[old(pos)]
    {
      v := bytes[pos];
      pos := pos + 1;
    }

    method U16() returns (v: u16)
      requires pos + 2 <= |bytes|
      modifies this
      ensures pos == old(pos) + 2 && v == U16At(bytes, old(pos))
    {
      var a: int := U8();
      var b: int := U8();
      var w := bytes[old(pos)..old(pos) + 2];
      assert FromBytes(w[..1]) == FromBytes([]) * 256 + a by {
        assert w[..1][..0] == [];
      }
      assert FromBytes(w) == a * 256 + b;
      v := a * 256 + b;
    }

    /** The loop of the source's u32, u48 and u64: `width` bytes, most significant first. */
    method BigEndian(width: nat) returns (v: nat)
      requires pos + width <= |bytes|
      modifies this
      ensures pos == old(pos) + width && v == FromBytes(bytes[old(pos)..old(pos) + width])
    {
      v := 0;
      for i := 0 to width
        invariant pos == old(pos) + i && v == FromBytes(bytes[old(pos)..old(pos) + i])
      {
        var b := U8();
        var w := bytes[old(pos)..old(pos) + i + 1];
        assert w[..i] == bytes[old(pos)..old(pos) + i];
        v := v * 256 + b;
      }
    }

    method U32() returns (v: u32)
      requires pos + 4 <= |bytes|
      modifies this
      ensures pos == old(pos) + 4 && v == U32At(bytes, old(pos))
    {
      PowValues();
      v := BigEndian(4);
    }

    method U48() returns (v: u64)
      requires pos + 6 <= |bytes|
      modifies this
      ensures pos == old(pos) + 6 && v == U48At(bytes, old(pos))
    {
      PowValues();
      v := BigEndian(6);
    }

    method U64() returns (v: u64)
      requires pos + 8 <= |bytes|
      modifies this
      ensures pos == old(pos) + 8 && v == U64At(bytes, old(pos))
    {
      PowValues();
      v := BigEndian(8);
    }

    method Chars(n: nat) returns (out: seq<u8>)
      requires pos + n <= |bytes|
      modifies this
      ensures pos == old(pos) + n && out == bytes[old(pos)..old(pos) + n]
    {
      out := [];
      for i := 0 to n
        invariant pos == old(pos) + i && out == bytes[old(pos)..old(pos) + i]
      {
        var c := U8();
        out := out + [c];
      }
    }

    method ReadHeader() returns (h: Header)
      requires pos == 1 && 11 <= |bytes|
      modifies this
      ensures pos == 11 && h == HeaderAt(bytes)
    {
      var locate := U16();
      var tracking := U16();
      var timestamp := U48();
      return Header(locate, tracking, timestamp);
    }

    method ReadSide() returns (side: Option<Side>)
      requires pos < |bytes|
      modifies this
      ensures pos == old(pos) + 1 && side == SideFrom(bytes[old(pos)])
    {
      var c := U8();
      return if c == Code('B') then Some(Buy) else if c == Code('S') then Some(Sell) else None;
    }
  }

  /**
   `parse_message`, reading every field in turn. `used` is the reader's final position. The fields of
   messages that the book ignores are read and dropped.
   */
  method ParseMessage(b: seq<u8>) returns (r: ParseResult, used: nat)
    ensures r == Parse(b) && used <= |b|
    ensures r.Parsed? ==> b != [] && used == BytesRead(b[0])
  {
    if |b| == 0 {
      return Failed(Empty), 0;
    }
    var t := b[0];
    var length := ExpectedLength(t);
    if length == 0 {
      return Failed(UnsupportedType), 0;
    }
    if |b| != length {
      return Failed(WrongLength), 0;
    }
    var reader := new Reader(b);
    var h := reader.ReadHeader();
    if t == Code('A') || t == Code('F') {
      r := ParseAdd(reader, t, h);
    } else if t == Code('E') || t == Code('C') || t == Code('X') || t == Code('D') || t == Code('U') {
      r := ParseChange(reader, t, h);
    } else {
      var ok := SkipRest(reader, t);
      r := if ok then Parsed(Other(t, h)) else Failed(InvalidSide);
    }
    used := reader.pos;
  }

  method ParseAdd(reader: Reader, t: u8, h: Header) returns (r: ParseResult)
    requires (t == Code('A') || t == Code('F')) && |reader.bytes| == ExpectedLength(t) && reader.bytes[0] == t
    requires reader.pos == 11 && h == HeaderAt(reader.bytes)
    modifies reader
    ensures r == Decoded(reader.bytes) && reader.pos <= |reader.bytes| && (r.Parsed? ==> reader.pos == BytesRead(t))
  {
    var id := reader.U64();
    var side := reader.ReadSide();
    if side.None? {
      return Failed(InvalidSide);
    }
    var quantity := reader.U32();
    var stock := reader.Chars(8);
    var price := reader.U32();
    if t == Code('A') {
      return Parsed(AddOrder(h, id, side.value, quantity, stock, price));
    }
    var attribution := reader.Chars(4);
    return Parsed(AddOrderMpid(h, id, side.value, quantity, stock, price, attribution));
  }

  method ParseChange(reader: Reader, t: u8, h: Header) returns (r: ParseResult)
    requires t == Code('E') || t == Code('C') || t == Code('X') || t == Code('D') || t == Code('U')
    requires |reader.bytes| == ExpectedLength(t) && reader.bytes[0] == t && reader.pos == 11 &&
             h == HeaderAt(reader.bytes)
    modifies reader
    ensures r == Decoded(reader.bytes) && reader.pos <= |reader.bytes| && (r.Parsed? ==> reader.pos == BytesRead(t))
  {
    var id := reader.U64();
    if t == Code('D') {
      return Parsed(OrderDelete(h, id));
    }
    if t == Code('U') {
      var newId := reader.U64();
      var quantity := reader.U32();
      var price := reader.U32();
      return Parsed(OrderReplace(h, id, newId, quantity, price));
    }
    var shares := reader.U32();
    if t == Code('X') {
      return Parsed(OrderCancel(h, id, shares));
    }
    var matchNumber := reader.U64();
    if t == Code('E') {
      return Parsed(OrderExecuted(h, id, shares, matchNumber));
    }
    var printable := reader.U8();
    var price := reader.U32();
    return Parsed(OrderExecutedWithPrice(h, id, shares, matchNumber, printable, price));
  }

  /** Where the fields after the header of a message that the book ignores end, in reading order. */
  function FieldEnds(t: u8): seq<nat> {
    if t == Code('S') || t == Code('W') then [12]
    else if t == Code('R') then [19, 20, 21, 25, 26, 27, 29, 30, 31, 32, 33, 34, 38, 39]
    else if t == Code('H') then [19, 20, 21, 25]
    else if t == Code('Y') || t == Code('h') || t == Code('N') then [19, 20]
    else if t == Code('L') then [15, 23, 24, 25, 26]
    else if t == Code('V') then [19, 27, 35]
    else if t == Code('K') then [19, 23, 24, 28]
    else if t == Code('J') then [19, 23, 27, 31, 35]
    else if t == Code('P') then [19, 20, 24, 32, 36, 44]
    else if t == Code('Q') then [19, 27, 31, 39, 40]
    else if t == Code('B') then [19]
    else if t == Code('I') then [19, 27, 28, 36, 40, 44, 48, 49, 50]
    else []
  }

  predicate Ignored(t: u8) {
    ExpectedLength(t) != 0 && t != Code('A') && t != Code('F') && t != Code('E') && t != Code('C') && t != Code('X') &&
    t != Code('D') && t != Code('U')
  }

  /** The fields read are consecutive and end where the reader stops: one byte short for an operational halt. */
  lemma {:induction false} FieldsTile(t: u8)
    requires Ignored(t)
    ensures FieldEnds(t) != [] && FieldEnds(t)[0] > 11 &&
            FieldEnds(t)[|FieldEnds(t)| - 1] == BytesRead(t) <= ExpectedLength(t)
    ensures forall i :: 0 < i < |FieldEnds(t)| ==> FieldEnds(t)[i - 1] < FieldEnds(t)[i]
    ensures BytesRead(t) < ExpectedLength(t) <==> t == Code('h')
  {}

  lemma {:induction false} EndsWithin(ends: seq<nat>, i: nat)
    requires i < |ends| && forall j :: 0 < j < |ends| ==> ends[j - 1] < ends[j]
    ensures ends[i] <= ends[|ends| - 1]
    decreases |ends| - i
  {
    if i < |ends| - 1 { EndsWithin(ends, i + 1); }
  }

  /** Reads the rest of a message that the book ignores; a trade must name a side. */
  method SkipRest(reader: Reader, t: u8) returns (ok: bool)
    requires Ignored(t) && |reader.bytes| == ExpectedLength(t) && reader.pos == 11
    modifies reader
    ensures ok <==> !(t == Code('P') && SideFrom(reader.bytes[19]).None?)
    ensures reader.pos <= |reader.bytes| && (ok ==> reader.pos == BytesRead(t))
  {
    var ends := FieldEnds(t);
    FieldsTile(t);
    for i := 0 to |ends|
      invariant reader.pos == if i == 0 then 11 else ends[i - 1]
      invariant i > 1 ==> !(t == Code('P') && SideFrom(reader.bytes[19]).None?)
    {
      EndsWithin(ends, i);
      if t == Code('P') && i == 1 {
        var side := reader.ReadSide();
        if side.None? {
          return false;
        }
      } else {
        var _ := reader.Chars(ends[i] - reader.pos);
      }
    }
    return true;
  }
}
