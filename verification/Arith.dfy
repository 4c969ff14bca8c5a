/** Powers of two and the floor-division facts the kernels rely on.
  * C's `x << k` is modelled as `x * Pow2(k)` and the arithmetic `x >> k` as
  * `x / Pow2(k)`: Dafny's `/` with a positive divisor rounds toward minus
  * infinity, which is what an arithmetic right shift does. */
module Arith {

  /** 2^k, the value of C's `1 << k`. */
  function Pow2(k: nat): (p: nat)
    ensures p >= 1
  {
    if k == 0 then 1 else 2 * Pow2(k - 1)
  }

  /** C's `x << k` on a value of any sign, as k doublings. */
  function Shl(x: int, k: nat): int
  {
    if k == 0 then x else 2 * Shl(x, k - 1)
  }

  /** A left shift by k multiplies by 2^k. */
  lemma {:induction false} ShlIsMul(x: int, k: nat)
    ensures Shl(x, k) == x * Pow2(k)
  {
    if k > 0 {
      ShlIsMul(x, k - 1);
      assert x * Pow2(k) == 2 * (x * Pow2(k - 1));
    }
  }

  lemma {:induction false} Pow2Add(a: nat, b: nat)
    ensures Pow2(a + b) == Pow2(a) * Pow2(b)
  {
    if a > 0 {
      Pow2Add(a - 1, b);
      assert Pow2(a + b) == 2 * Pow2(a - 1 + b);
    }
  }

  lemma Pow2Even(k: nat)
    requires k >= 1
    ensures Pow2(k) == 2 * Pow2(k - 1) && Pow2(k) % 2 == 0
  {
    Double(Pow2(k - 1));
  }

  lemma Double(x: int)
    ensures (2 * x) % 2 == 0
  {
  }

  /** Dividing a non-negative value by a positive one does not increase it. */
  lemma DivBelow(a: int, p: int)
    requires a >= 0 && p >= 1
    ensures 0 <= a / p <= a
  {
  }

  lemma Pow2Monotone(a: nat, b: nat)
    requires a <= b
    ensures Pow2(a) <= Pow2(b)
  {
    Pow2Add(a, b - a);
    assert Pow2(b) == Pow2(a) * Pow2(b - a);
  }

  /** The powers of two that delimit bytes and 16-bit words. */
  lemma Pow2Word()
    ensures Pow2(1) == 2 && Pow2(2) == 4 && Pow2(7) == 128 && Pow2(8) == 256
    ensures Pow2(15) == 0x8000 && Pow2(16) == 0x10000
  {
    assert Pow2(1) == 2;
    assert Pow2(2) == 4;
    assert Pow2(3) == 8;
    assert Pow2(4) == 16;
    assert Pow2(5) == 32;
    assert Pow2(6) == 64;
    assert Pow2(7) == 128;
    assert Pow2(8) == 256;
    assert Pow2(9) == 512;
    assert Pow2(10) == 1024;
    assert Pow2(11) == 2048;
    assert Pow2(12) == 4096;
    assert Pow2(13) == 8192;
    assert Pow2(14) == 16384;
    assert Pow2(15) == 32768;
  }

  /** Multiplying by a non-negative factor keeps the order. */
  lemma MulMonotone(a: int, b: int, c: int)
    requires a <= b && c >= 0
    ensures a * c <= b * c
  {
    assert b * c - a * c == (b - a) * c;
  }

  /** A product of non-negative factors is non-negative. */
  lemma MulNonneg(a: int, b: int)
    requires a >= 0 && b >= 0
    ensures a * b >= 0
  {
  }

  /** Truncating to a multiple of p loses less than p. */
  lemma FloorMul(m: int, p: int)
    requires p > 0
    ensures (m / p) * p <= m < (m / p) * p + p
  {
  }

  /** The only multiple of a positive p strictly between -p and p is zero. */
  lemma MulBounds(k: int, p: int)
    requires p > 0 && 0 <= k * p < p
    ensures k == 0
  {
  }

  /** Dividing an exact multiple recovers the factor. */
  lemma MulDivCancel(q: int, p: int)
    requires p > 0
    ensures (q * p) / p == q
  {
    var d := (q * p) / p;
    assert d * p <= q * p < d * p + p;
    assert 0 <= (q - d) * p < p;
    MulBounds(q - d, p);
  }

  /** An exact multiple leaves no remainder. */
  lemma MulMod(q: int, p: int)
    requires p > 0
    ensures (q * p) % p == 0
  {
    MulDivCancel(q, p);
  }

  /** Floor division by a positive p keeps the order. */
  lemma DivMonotone(a: int, b: int, p: int)
    requires a <= b && p > 0
    ensures a / p <= b / p
  {
    FloorMul(a, p);
    FloorMul(b, p);
    if a / p > b / p {
      MulMonotone(b / p + 1, a / p, p);
      assert false;
    }
  }

  /** A value below q * m, divided by m, is below q. */
  lemma DivLess(x: int, q: int, m: int)
    requires 0 <= x < q * m && m >= 1
    ensures 0 <= x / m < q
  {
    FloorMul(x, m);
    DivBelow(x, m);
    if x / m >= q {
      MulMonotone(q, x / m, m);
      assert false;
    }
  }

  /** Adding one more multiple of p moves the quotient by exactly one. */
  lemma DivAddDivisor(m: int, p: int)
    requires p > 0
    ensures (m + p) / p == m / p + 1
  {
    var d, q := (m + p) / p, m / p;
    assert d * p <= m + p < d * p + p;
    assert q * p <= m < q * p + p;
    assert -p < (q + 1 - d) * p < p;
    if q + 1 - d >= 0 { MulBounds(q + 1 - d, p); } else { MulBounds(d - q - 1, p); }
  }
}
