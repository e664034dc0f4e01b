/** Big-endian integers in byte strings. */
module Bytes {
  import opened Types
  import opened Wrapping

  function Pow256(n: nat): (p: nat)
    ensures p > 0
  {
    if n == 0 then 1 else 256 * Pow256(n - 1)
  }

  lemma {:induction false} PowValues()
    ensures Pow256(1) == 0x100 && Pow256(2) == 0x1_0000 && Pow256(4) == 0x1_0000_0000
    ensures Pow256(6) == 0x1_0000_0000_0000 && Pow256(8) == U64_MODULUS
  {
    assert Pow256(3) == 0x100_0000 by { assert Pow256(2) == 0x1_0000; }
    assert Pow256(5) == 0x100_0000_0000 by { assert Pow256(4) == 0x1_0000_0000; }
    assert Pow256(7) == 0x100_0000_0000_0000 by { assert Pow256(6) == 0x1_0000_0000_0000; }
  }

  function FromBytes(s: seq<u8>): (v: nat)
    ensures v < Pow256(|s|)
  {
    if s == [] then 0 else FromBytes(s[..|s| - 1]) * 256 + s[|s| - 1]
  }

  /** The n low-order bytes of v. */
  function ToBytes(v: nat, n: nat): (s: seq<u8>)
    ensures |s| == n
  {
    if n == 0 then [] else ToBytes(v / 256, n - 1) + [v % 256]
  }

  /** Reading back what was written gives the value modulo its width. */
  lemma {:induction false} FromTo(v: nat, n: nat)
    ensures FromBytes(ToBytes(v, n)) == v % Pow256(n)
  {
    if n > 0 {
      FromTo(v / 256, n - 1);
      assert ToBytes(v, n)[..n - 1] == ToBytes(v / 256, n - 1);
      ModStep(v, Pow256(n - 1));
    }
  }

  lemma {:induction false} ModStep(v: nat, p: nat)
    requires p > 0
    ensures v / 256 % p * 256 + v % 256 == v % (256 * p)
  {
    var q, r, low := v / 256 / p, v / 256 % p, v % 256;
    assert v == 256 * (p * q + r) + low;
    assert 256 * (p * q + r) + low == (256 * p) * q + (r * 256 + low);
    ModUnique(256 * p, q, r * 256 + low);
  }

  /** Writing back what was read gives the bytes. */
  lemma {:induction false} ToFrom(s: seq<u8>)
    ensures ToBytes(FromBytes(s), |s|) == s
  {
    if s != [] {
      var v := FromBytes(s[..|s| - 1]);
      ToFrom(s[..|s| - 1]);
      assert (v * 256 + s[|s| - 1]) / 256 == v;
    }
  }
}
