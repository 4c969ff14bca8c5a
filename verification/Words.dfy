/** 16-bit sign-magnitude coefficients as the quantizer and dequantizer
  * store them: bit 15 (`BITSTREAM_MASK_SIGN`, 0x8000) is the sign and bits
  * 0..14 the magnitude. The bitwise operations the kernels apply are
  * defined by their arithmetic meaning. */
module Words {
  import opened Arith

  /** A `uint16_t`. */
  type Word = x: int | 0 <= x < 0x10000

  /** A `uint8_t`. */
  type Byte = x: int | 0 <= x < 0x100

  /** `w & BITSTREAM_MASK_SIGN` is set. */
  predicate Sign(w: Word)
  {
    w >= 0x8000
  }

  /** `w & ~BITSTREAM_MASK_SIGN`. */
  function Magnitude(w: Word): (m: nat)
    ensures m < 0x8000
  {
    if Sign(w) then w - 0x8000 else w
  }

  /** The word with sign s and magnitude m. */
  function Compose(s: bool, m: nat): (w: Word)
    requires m < 0x8000
    ensures Sign(w) == s && Magnitude(w) == m
  {
    if s then m + 0x8000 else m
  }

  /** `v | sign` where sign is `BITSTREAM_MASK_SIGN` when s holds and 0
    * otherwise: the magnitude bits stay, the sign bit is set when s is. */
  function OrSign(v: Word, s: bool): (r: Word)
    ensures Magnitude(r) == Magnitude(v) && (Sign(r) <==> Sign(v) || s)
  {
    if s && !Sign(v) then v + 0x8000 else v
  }

  /** Bit b of x. */
  predicate BitSet(x: nat, b: nat)
  {
    (x / Pow2(b)) % 2 == 1
  }

  /** `(x + j * p) / p == x / p + j`: adding whole multiples of the divisor
    * moves only the quotient. */
  lemma DivAddMultiple(x: int, j: int, p: int)
    requires p > 0
    ensures (x + j * p) / p == x / p + j
  {
    var d, q := (x + j * p) / p, x / p;
    FloorMul(x + j * p, p);
    FloorMul(x, p);
    assert -p < (q + j - d) * p < p;
    if q + j - d >= 0 { MulBounds(q + j - d, p); } else { MulBounds(d - q - j, p); }
  }

  /** Setting a clear bit b < n of a value below 2^n does not carry out of
    * the n bits. */
  lemma SetClearBit(x: nat, b: nat, n: nat)
    requires b < n && x < Pow2(n) && !BitSet(x, b)
    ensures x + Pow2(b) < Pow2(n)
  {
    Pow2Add(b, n - b);
    Pow2Even(n - b);
    ClearBitBelow(x, Pow2(b), Pow2(n - b));
  }

  /** The arithmetic core of SetClearBit, with p = 2^b and k = 2^(n-b). */
  lemma ClearBitBelow(x: int, p: int, k: int)
    requires p > 0 && 0 <= x < p * k && (x / p) % 2 != 1 && k % 2 == 0
    ensures x + p < p * k
  {
    var t := x / p;
    FloorMul(x, p);
    if t >= k {
      MulMonotone(k, t, p);
      assert false;
    }
    EvenGap(t, k);
    MulMonotone(t + 2, k, p);
    MulAddTwo(t, p);
  }

  lemma EvenGap(t: int, k: int)
    requires t % 2 == 0 && k % 2 == 0 && t < k
    ensures t + 2 <= k
  {
  }

  lemma MulAddTwo(t: int, p: int)
    ensures (t + 2) * p == t * p + 2 * p
  {
  }

  /** `w | (1 << b)` stored back into 16 bits: a bit from 16 on is lost. */
  function OrBit(w: Word, b: nat): (r: Word)
    ensures b < 16 ==> BitSet(r, b)
    ensures w <= r
  {
    if b >= 16 || BitSet(w, b) then w
    else
      Pow2Word();
      SetClearBit(w, b, 16);
      DivAddMultiple(w, 1, Pow2(b));
      w + Pow2(b)
  }

  /** Setting a bit below 15, or one from 16 on, leaves the sign alone. */
  lemma OrBitKeepsSign(w: Word, b: nat)
    requires b != 15
    ensures Sign(OrBit(w, b)) == Sign(w)
  {
    if b < 15 && !BitSet(w, b) && !Sign(w) {
      Pow2Word();
      SetClearBit(w, b, 15);
    }
  }

  /** A bit below 15 of a word is the same bit of its magnitude. */
  lemma MagnitudeBit(w: Word, b: nat)
    requires b < 15
    ensures BitSet(w, b) == BitSet(Magnitude(w), b)
  {
    if Sign(w) {
      Pow2Add(b, 15 - b);
      Pow2Word();
      Pow2Even(15 - b);
      HighBitParity(Magnitude(w), Pow2(b), Pow2(15 - b));
    }
  }

  /** Adding k * p with k even keeps bit (x / p) % 2. */
  lemma HighBitParity(m: int, p: int, k: int)
    requires p > 0 && k % 2 == 0
    ensures ((m + k * p) / p) % 2 == (m / p) % 2
  {
    DivAddMultiple(m, k, p);
    EvenShiftParity(m / p, k);
  }

  lemma EvenShiftParity(x: int, k: int)
    requires k % 2 == 0
    ensures (x + k) % 2 == x % 2
  {
  }

  /** Setting a bit below 15 sets that bit of the magnitude. */
  lemma OrBitMagnitude(w: Word, b: nat)
    requires b < 15
    ensures Magnitude(OrBit(w, b)) ==
      if BitSet(Magnitude(w), b) then Magnitude(w) else Magnitude(w) + Pow2(b)
  {
    MagnitudeBit(w, b);
    OrBitKeepsSign(w, b);
    if !BitSet(w, b) {
      Pow2Word();
      SetClearBit(Magnitude(w), b, 15);
    }
  }

  /** `(int8_t)g`: a byte read as a signed 8-bit value. */
  function AsInt8(g: Byte): (v: int)
    ensures -128 <= v < 128
    ensures g < 128 ==> v == g
    ensures g >= 128 ==> v < 0
  {
    if g < 128 then g else g - 256
  }

  /** The shift NEON's `vshlq_u16` takes from a lane holding x: the lowest
    * byte of the lane, read as signed. */
  function ShiftCount(x: int): int
  {
    AsInt8(x % 256)
  }

  /** `vshlq_u16` by a signed count c: a left shift kept to 16 bits when c is
    * non-negative, a right shift by -c otherwise. */
  function VShl(a: Word, c: int): Word
  {
    if c >= 0 then (a * Pow2(c)) % 0x10000
    else
      DivBelow(a, Pow2(-c));
      a / Pow2(-c)
  }

  // ---------------------------------------------------------------------
  // Coefficient groups

  /** `gclis` holds one greatest coded line index per group of groupSize
    * coefficients, enough for the first size coefficients. */
  predicate Covers(gclis: array<Byte>, size: nat, groupSize: nat)
  {
    1 <= groupSize && (size == 0 || (size - 1) / groupSize < gclis.Length)
  }

  /** `gclis[i / group_size]`, the gcli of coefficient i's group. */
  function Gcli(gclis: array<Byte>, size: nat, groupSize: nat, i: nat): Byte
    reads gclis
    requires Covers(gclis, size, groupSize) && i < size
  {
    DivMonotone(i, size - 1, groupSize);
    gclis[i / groupSize]
  }

  /** Where the 16-wide pass of the kernels stops: it runs only for groups of
    * four, over whole blocks of 16 coefficients. */
  function VectorEnd(size: nat, groupSize: nat): (e: nat)
    ensures e <= size && e % 16 == 0
    ensures groupSize == 4 ==> size < e + 16
  {
    if groupSize == 4 then size / 16 * 16 else 0
  }

  /** Lane j of the block at a multiple i of 16 is coefficient i + j, in
    * group i / 4 + j / 4 when groups are four wide. */
  lemma LaneGroup(i: nat, j: nat)
    requires i % 16 == 0
    ensures (i + j) / 4 == i / 4 + j / 4
  {
    var m := i / 16;
    assert i == 4 * (4 * m);
    DivAddMultiple(j, 4 * m, 4);
    MulDivCancel(4 * m, 4);
  }

  /** The four gclis loaded for the block at a multiple i of 16, spread one
    * per lane: lane j gets the gcli of coefficient i + j. */
  lemma SpreadIndex(g: seq<Byte>, gclis: seq<Byte>, i: nat)
    requires i % 16 == 0 && i / 4 + 4 <= |gclis| && g == gclis[i / 4 .. i / 4 + 4]
    ensures forall j :: 0 <= j < 16 ==> g[j / 4] == gclis[(i + j) / 4]
  {
    forall j | 0 <= j < 16
      ensures g[j / 4] == gclis[(i + j) / 4]
    {
      LaneGroup(i, j);
    }
  }
}
