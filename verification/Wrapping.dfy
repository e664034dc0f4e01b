/** Arithmetic of wrapping 64-bit counters that index a buffer whose size is a power of two. */
module Wrapping {
  import opened Types

  function Pow2(k: nat): (p: nat)
    ensures p > 0
  {
    if k == 0 then 1 else 2 * Pow2(k - 1)
  }

  lemma {:induction false} Pow2Add(a: nat, b: nat)
    ensures Pow2(a + b) == Pow2(a) * Pow2(b)
  {
    if a > 0 {
      Pow2Add(a - 1, b);
      assert Pow2(a + b) == 2 * Pow2(a + b - 1);
      assert 2 * (Pow2(a - 1) * Pow2(b)) == (2 * Pow2(a - 1)) * Pow2(b);
    }
  }

  lemma {:induction false} Pow2Monotone(a: nat, b: nat)
    requires a <= b
    ensures Pow2(a) <= Pow2(b)
  {
    if a < b { Pow2Monotone(a, b - 1); }
  }

  lemma {:induction false} Pow2Of64()
    ensures Pow2(64) == U64_MODULUS && Pow2(63) == U64_MODULUS / 2
  {
    Pow2Of16();
    assert Pow2(64) == 2 * Pow2(63);
    hide Pow2;
    Pow2Add(16, 16);
    Pow2Add(32, 32);
  }

  lemma {:induction false} Pow2Of16()
    ensures Pow2(16) == 0x1_0000
  {
    assert Pow2(4) == 16 by { assert Pow2(2) == 4; }
    Pow2Add(4, 4);
    Pow2Add(8, 8);
  }

  lemma {:induction false} Scaled(c: int, d: int)
    requires c > 0
    ensures (d >= 1 ==> c * d >= c) && (d <= -1 ==> c * d <= -c)
  {}

  /** Quotient and remainder are determined by what they satisfy. */
  lemma {:induction false} ModUnique(c: int, q: int, r: int)
    requires 0 <= r < c
    ensures (c * q + r) % c == r
  {
    var n := c * q + r;
    assert c * (n / c - q) == r - n % c;
    Scaled(c, n / c - q);
  }

  /** Wrapping a counter does not move it in a buffer whose size divides the modulus. */
  lemma {:induction false} WrapSlot(n: int, k: nat)
    requires k <= 64
    ensures Wrap64(n) % Pow2(k) == n % Pow2(k)
  {
    var c, d := Pow2(k), Pow2(64 - k);
    Pow2Of64();
    Pow2Add(k, 64 - k);
    hide Pow2;
    ModOfMod(n, c, d);
  }

  lemma {:induction false} ModOfMod(n: int, c: int, d: int)
    requires c > 0 && d > 0 && c * d > 0
    ensures n % (c * d) % c == n % c
  {
    var m := c * d;
    var r := n % m;
    ModParts(n, c, d, n / m, r / c, r % c);
  }

  lemma {:induction false} ModParts(n: int, c: int, d: int, q: int, a: int, b: int)
    requires n == (c * d) * q + (c * a + b) && 0 <= b < c
    ensures n % c == b
  {
    Distribute(c, d, q, a);
    ModUnique(c, d * q + a, b);
  }

  lemma {:induction false} Distribute(c: int, d: int, q: int, a: int)
    ensures c * (d * q + a) == (c * d) * q + c * a
  {}

  /** The wrapped difference of two counters is their difference when that fits in 64 bits. */
  lemma {:induction false} WrapDifference(a: int, b: int)
    requires 0 <= a - b < U64_MODULUS
    ensures Wrap64(Wrap64(a) - Wrap64(b)) == a - b
  {}

  lemma {:induction false} WrapSum(x: int, y: int)
    ensures Wrap64(Wrap64(x) + y) == Wrap64(x + y)
  {}

  lemma {:induction false} WrapSmall(x: int)
    requires 0 <= x < U64_MODULUS
    ensures Wrap64(x) == x
  {}

  lemma {:induction false} WrapEqual(a: int, b: int)
    requires 0 <= a - b < U64_MODULUS
    ensures Wrap64(a) == Wrap64(b) <==> a == b
  {}

  /** Two counters less than c apart share a slot only if they are equal. */
  lemma {:induction false} SlotsApart(a: int, b: int, c: int)
    requires c > 0 && a <= b < a + c && a % c == b % c
    ensures a == b
  {
    var d := b / c - a / c;
    assert c * d == b - a;
    Scaled(c, d);
  }
}
