/**
 The wire format as a table: for each of the 22 message types, the widths of the fields after the header, in the
 order in which the parser reads them. Which strings parse, and to what, is stated from the table alone.
 */
module WireTable {
  import opened Types
  import opened Bytes
  import opened Messages
  import opened Wire

  function Widths(t: u8): seq<nat> {
    match t as char
    case 'S' => [1]
    case 'R' => [8, 1, 1, 4, 1, 1, 2, 1, 1, 1, 1, 1, 4, 1]
    case 'H' => [8, 1, 1, 4]
    case 'Y' => [8, 1]
    case 'L' => [4, 8, 1, 1, 1]
    case 'V' => [8, 8, 8]
    case 'W' => [1]
    case 'K' => [8, 4, 1, 4]
    case 'J' => [8, 4, 4, 4, 4]
    case 'h' => [8, 1]
    case 'A' => [8, 1, 4, 8, 4]
    case 'F' => [8, 1, 4, 8, 4, 4]
    case 'E' => [8, 4, 8]
    case 'C' => [8, 4, 8, 1, 4]
    case 'X' => [8, 4]
    case 'D' => [8]
    case 'U' => [8, 8, 4, 4]
    case 'P' => [8, 1, 4, 8, 4, 8]
    case 'Q' => [8, 8, 4, 8, 1]
    case 'B' => [8]
    case 'I' => [8, 8, 1, 8, 4, 4, 4, 1, 1]
    case 'N' => [8, 1]
    case _ => []
  }

  predicate Known(t: u8) { Widths(t) != [] }

  /** Where the field with index i starts: after the type, the ten bytes of the header and the fields before it. */
  function StartOf(t: u8, i: nat): nat
    requires i <= |Widths(t)|
  {
    if i == 0 then 11
    else StartOf(t, i - 1) + Widths(t)[i - 1]
  }

  /** An operational halt is declared one byte longer than its fields. */
  function LengthOf(t: u8): nat { StartOf(t, |Widths(t)|) + if t as char == 'h' then 1 else 0 }

  /** The second field of adds and trades is a side. */
  predicate Sided(t: u8) { t as char == 'A' || t as char == 'F' || t as char == 'P' }

  predicate SideAt(b: seq<u8>) { |b| > 19 && (b[19] as char == 'B' || b[19] as char == 'S') }

  /** The strings that parse. */
  predicate Parses(b: seq<u8>) {
    b != [] && Known(b[0]) && |b| == LengthOf(b[0]) && (Sided(b[0]) ==> SideAt(b))
  }

  /** The end of the fields, for every number of fields. */
  lemma {:induction false} EndOf(t: u8, w: seq<nat>)
    requires w == Widths(t)
    ensures |w| == 1 ==> StartOf(t, 1) == 11 + w[0]
    ensures |w| == 2 ==> StartOf(t, 2) == 11 + w[0] + w[1]
    ensures |w| == 3 ==> StartOf(t, 3) == 11 + w[0] + w[1] + w[2]
    ensures |w| == 4 ==> StartOf(t, 4) == 11 + w[0] + w[1] + w[2] + w[3]
    ensures |w| == 5 ==> StartOf(t, 5) == 11 + w[0] + w[1] + w[2] + w[3] + w[4]
    ensures |w| == 6 ==> StartOf(t, 6) == 11 + w[0] + w[1] + w[2] + w[3] + w[4] + w[5]
    ensures |w| == 9 ==> StartOf(t, 9) == 11 + w[0] + w[1] + w[2] + w[3] + w[4] + w[5] + w[6] + w[7] + w[8]
    ensures |w| == 14 ==>
      StartOf(t, 14) ==
      11 + w[0] + w[1] + w[2] + w[3] + w[4] + w[5] + w[6] + w[7] + w[8] + w[9] + w[10] + w[11] + w[12] + w[13]
  {
    hide Widths;
    Pairs(t, w, 0);
    Pairs(t, w, 2);
    Pairs(t, w, 4);
    Pairs(t, w, 6);
    Pairs(t, w, 8);
    Pairs(t, w, 10);
    Pairs(t, w, 12);
  }

  lemma {:induction false} Pairs(t: u8, w: seq<nat>, i: nat)
    requires w == Widths(t)
    ensures i == 0 ==> StartOf(t, 0) == 11
    ensures i < |w| ==> StartOf(t, i + 1) == StartOf(t, i) + w[i]
    ensures i + 1 < |w| ==> StartOf(t, i + 2) == StartOf(t, i + 1) + w[i + 1]
  {
    hide Widths;
  }

  /** The declared lengths of all types, and where the reader stops in each, are those of the table. */
  lemma {:induction false} LengthsExactly(t: u8)
    ensures ExpectedLength(t) != 0 <==> Known(t)
    ensures Known(t) ==> ExpectedLength(t) == LengthOf(t) && BytesRead(t) == StartOf(t, |Widths(t)|)
  {
    hide StartOf;
    EndOf(t, Widths(t));
  }

  /** Exactly when a string parses, and exactly which error every other string gives. */
  lemma {:induction false} ParsesExactly(b: seq<u8>)
    ensures Parse(b).Parsed? <==> Parses(b)
    ensures Parse(b) == Failed(Empty) <==> b == []
    ensures Parse(b) == Failed(UnsupportedType) <==> b != [] && !Known(b[0])
    ensures Parse(b) == Failed(WrongLength) <==> b != [] && Known(b[0]) && |b| != LengthOf(b[0])
    ensures Parse(b) == Failed(InvalidSide) <==>
            b != [] && Known(b[0]) && |b| == LengthOf(b[0]) && Sided(b[0]) && !SideAt(b)
  {
    hide ExpectedLength, Widths, LengthOf, StartOf, Known, U64At, U32At, U16At, U48At, HeaderAt, Decoded;
    if b != [] {
      LengthsExactly(b[0]);
      if Known(b[0]) && |b| == LengthOf(b[0]) { DecodesExactly(b); }
    }
  }

  lemma {:induction false} DecodesExactly(b: seq<u8>)
    requires b != [] && |b| == ExpectedLength(b[0])
    ensures Decoded(b).Parsed? <==> (Sided(b[0]) ==> SideAt(b))
    ensures Decoded(b).Failed? ==> Decoded(b).error == InvalidSide
  {
    hide FromBytes, U64At, U32At, U16At, U48At, HeaderAt;
  }

  // ---------- Fields ----------

  /** The value of bytes, the first one being the most significant. */
  function Value(s: seq<u8>): nat { if s == [] then 0 else s[0] * Pow256(|s| - 1) + Value(s[1..]) }

  lemma {:induction false} ValueIs(s: seq<u8>)
    ensures FromBytes(s) == Value(s)
    decreases |s|
  {
    hide Pow256;
    if |s| == 1 {
      NextPowers(0);
      assert s[..0] == [] && s[1..] == [];
    } else if |s| > 1 {
      var n, init, tail := |s|, s[..|s| - 1], s[1..];
      ValueIs(init);
      ValueIs(tail);
      ValueIs(init[1..]);
      assert init[1..] == tail[..n - 2];
      NextPowers(n - 2);
      Shift(s[0], Pow256(n - 2), Value(init[1..]), s[n - 1]);
    }
  }

  lemma {:induction false} NextPowers(n: nat)
    ensures Pow256(0) == 1 && Pow256(n + 1) == 256 * Pow256(n)
  {}

  lemma {:induction false} Shift(first: nat, p: nat, middle: nat, last: nat)
    ensures (first * p + middle) * 256 + last == first * (256 * p) + (middle * 256 + last)
  {}

  function Slice(b: seq<u8>, from: nat, to: nat): seq<u8> { if from <= to <= |b| then b[from..to] else [] }

  /** The field with index i of a string of a known type. */
  function FieldOf(b: seq<u8>, i: nat): seq<u8>
    requires b != []
  {
    if i < |Widths(b[0])| then Slice(b, StartOf(b[0], i), StartOf(b[0], i + 1)) else []
  }

  function LetterOf(side: Side): seq<u8> { [if side == Buy then 'B' as u8 else 'S' as u8] }

  predicate HasHeader(b: seq<u8>, h: Header) {
    h.stockLocate == Value(Slice(b, 1, 3)) && h.trackingNumber == Value(Slice(b, 3, 5)) &&
    h.timestamp == Value(Slice(b, 5, 11))
  }

  /** The string has the type of the message, and its fields have the message's values. */
  predicate Carries(b: seq<u8>, m: Message) {
    b != [] && HasHeader(b, m.header) &&
    match m
    case AddOrder(_, id, side, q, stock, p) =>
      b[0] as char == 'A' && id == Value(FieldOf(b, 0)) && LetterOf(side) == FieldOf(b, 1) &&
      q == Value(FieldOf(b, 2)) && stock == FieldOf(b, 3) && p == Value(FieldOf(b, 4))
    case AddOrderMpid(_, id, side, q, stock, p, who) =>
      b[0] as char == 'F' && id == Value(FieldOf(b, 0)) && LetterOf(side) == FieldOf(b, 1) &&
      q == Value(FieldOf(b, 2)) && stock == FieldOf(b, 3) && p == Value(FieldOf(b, 4)) && who == FieldOf(b, 5)
    case OrderExecuted(_, id, q, n) =>
      b[0] as char == 'E' && id == Value(FieldOf(b, 0)) && q == Value(FieldOf(b, 1)) && n == Value(FieldOf(b, 2))
    case OrderExecutedWithPrice(_, id, q, n, printable, p) =>
      b[0] as char == 'C' && id == Value(FieldOf(b, 0)) && q == Value(FieldOf(b, 1)) && n == Value(FieldOf(b, 2)) &&
      [printable] == FieldOf(b, 3) && p == Value(FieldOf(b, 4))
    case OrderCancel(_, id, q) => b[0] as char == 'X' && id == Value(FieldOf(b, 0)) && q == Value(FieldOf(b, 1))
    case OrderDelete(_, id) => b[0] as char == 'D' && id == Value(FieldOf(b, 0))
    case OrderReplace(_, id, newId, q, p) =>
      b[0] as char == 'U' && id == Value(FieldOf(b, 0)) && newId == Value(FieldOf(b, 1)) &&
      q == Value(FieldOf(b, 2)) && p == Value(FieldOf(b, 3))
    case Other(kind, _) => kind == b[0] && b[0] as char !in "AFECXDU"
  }

  /** Where the fields of the messages about orders start. */
  lemma {:induction false} OrderStarts(t: u8)
    requires t as char in "AFECXDU"
    ensures StartOf(t, 0) == 11 && StartOf(t, 1) == 19
    ensures t as char in "AF" ==>
      StartOf(t, 2) == 20 && StartOf(t, 3) == 24 && StartOf(t, 4) == 32 && StartOf(t, 5) == 36
    ensures t as char == 'F' ==> StartOf(t, 6) == 40
    ensures t as char in "ECX" ==> StartOf(t, 2) == 23
    ensures t as char in "EC" ==> StartOf(t, 3) == 31
    ensures t as char == 'C' ==> StartOf(t, 4) == 32 && StartOf(t, 5) == 36
    ensures t as char == 'U' ==> StartOf(t, 2) == 27 && StartOf(t, 3) == 31 && StartOf(t, 4) == 35
  {
    hide StartOf;
    Pairs(t, Widths(t), 0);
    Pairs(t, Widths(t), 2);
    Pairs(t, Widths(t), 4);
  }

  lemma {:induction false} HeaderIs(b: seq<u8>)
    requires |b| >= 11
    ensures HasHeader(b, HeaderAt(b))
  {
    hide FromBytes, Value;
    ValueIs(b[1..3]);
    ValueIs(b[3..5]);
    ValueIs(b[5..11]);
  }

  /** The wide fields as the parser reads them. */
  lemma {:induction false} WideIs(b: seq<u8>, i: nat)
    ensures i + 8 <= |b| ==> U64At(b, i) == Value(Slice(b, i, i + 8))
    ensures i + 4 <= |b| ==> U32At(b, i) == Value(Slice(b, i, i + 4))
  {
    hide FromBytes, Value;
    if i + 8 <= |b| { ValueIs(b[i..i + 8]); }
    if i + 4 <= |b| { ValueIs(b[i..i + 4]); }
  }

  lemma {:induction false} AddCarries(b: seq<u8>)
    requires Parses(b) && b[0] as char in "AF" && Parse(b).Parsed?
    ensures Carries(b, Parse(b).message)
  {
    hide HeaderAt, HasHeader, U64At, U32At, Value, StartOf, Parses;
    HeaderIs(b);
    OrderStarts(b[0]);
    WideIs(b, 11);
    WideIs(b, 20);
    WideIs(b, 32);
    assert Slice(b, 19, 20) == [b[19]];
  }

  lemma {:induction false} ChangeCarries(b: seq<u8>)
    requires Parses(b) && b[0] as char in "ECXDU" && Parse(b).Parsed?
    ensures Carries(b, Parse(b).message)
  {
    hide HeaderAt, HasHeader, U64At, U32At, Value, StartOf, Parses;
    HeaderIs(b);
    OrderStarts(b[0]);
    WideIs(b, 11);
    WideIs(b, 19);
    WideIs(b, 23);
    WideIs(b, 27);
    WideIs(b, 31);
    WideIs(b, 32);
    assert b[0] as char == 'C' ==> Slice(b, 31, 32) == [b[31]];
  }

  lemma {:induction false} OtherCarries(b: seq<u8>)
    requires Parse(b).Parsed? && b[0] as char !in "AFECXDU"
    ensures Carries(b, Parse(b).message)
  {
    hide HeaderAt, HasHeader, U64At, U32At;
    HeaderIs(b);
  }

  lemma {:induction false} CarriesOne(b: seq<u8>, m: Message, n: Message)
    requires Carries(b, m) && Carries(b, n)
    ensures m == n
  {
    hide Value, FieldOf, Slice;
  }

  /**
   A string parses to a message exactly if it has the length of its type, a proper side where there is one, and
   the message's header and fields at their places.
   */
  lemma {:induction false} MeaningExactly(b: seq<u8>, m: Message)
    ensures Parse(b) == Parsed(m) <==> Parses(b) && Carries(b, m)
  {
    hide Parse, Parses, Carries;
    ParsesExactly(b);
    if Parse(b).Parsed? {
      NotEmpty(b);
      if b[0] as char in "AF" {
        AddCarries(b);
      } else if b[0] as char in "ECXDU" {
        ChangeCarries(b);
      } else {
        OtherCarries(b);
      }
      if Carries(b, m) { CarriesOne(b, m, Parse(b).message); }
    }
  }

  lemma {:induction false} NotEmpty(b: seq<u8>)
    requires Parse(b).Parsed?
    ensures b != []
  {}

  lemma {:induction false} TableAgrees(t: u8, i: nat)
    requires Ignored(t)
    ensures Known(t) && t as char !in "AFECXDU" && |FieldEnds(t)| == |Widths(t)|
    ensures i < |Widths(t)| ==> FieldEnds(t)[i] == (if i == 0 then 11 else FieldEnds(t)[i - 1]) + Widths(t)[i]
  {
    hide FieldEnds;
    if t as char in "RI" {
      LongAgrees(t, i);
    } else {
      ShortAgrees(t, i);
    }
  }

  lemma {:induction false} LongAgrees(t: u8, i: nat)
    requires t as char in "RI"
    ensures |FieldEnds(t)| == |Widths(t)|
    ensures i < |Widths(t)| ==> FieldEnds(t)[i] == (if i == 0 then 11 else FieldEnds(t)[i - 1]) + Widths(t)[i]
  {}

  lemma {:induction false} ShortAgrees(t: u8, i: nat)
    requires Ignored(t) && t as char !in "RI"
    ensures |FieldEnds(t)| == |Widths(t)|
    ensures i < |Widths(t)| ==> FieldEnds(t)[i] == (if i == 0 then 11 else FieldEnds(t)[i - 1]) + Widths(t)[i]
  {}

  /** The fields of the messages that the book ignores are read one after the other, each at its place in the table. */
  lemma {:induction false} ReadInOrder(t: u8, i: nat)
    requires Ignored(t)
    ensures Known(t) && t as char !in "AFECXDU" && |FieldEnds(t)| == |Widths(t)|
    ensures i < |Widths(t)| ==> FieldEnds(t)[i] == StartOf(t, i + 1)
    decreases i
  {
    hide StartOf, Widths, FieldEnds, Ignored;
    TableAgrees(t, i);
    Pairs(t, Widths(t), i);
    if i > 0 { ReadInOrder(t, i - 1); }
  }
}
