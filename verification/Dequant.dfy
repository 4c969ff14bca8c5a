/** The decoder's group dequantizer `dequant_neon`: every 16-bit
  * sign-magnitude coefficient of a precinct line is reconstructed in place
  * from the gcli of its group and the truncation position gtli. The
  * deadzone policy ORs in the midpoint bit 2^(gtli-1) of the truncated
  * interval; the uniform policy expands the magnitude by the geometric
  * series val + val/2^s + val/2^(2s) + ... with s = gcli - gtli + 1. Words
  * of zero magnitude, and groups whose gcli does not exceed gtli, are left
  * alone; gtli = 0 leaves the whole line alone. */
module Dequant {
  import opened Arith
  import opened Words
  import Neon
  import Quant

  // ---------------------------------------------------------------------
  // Deadzone

  /** Deadzone dequantization of one coefficient: `w | (1 << (gtli - 1))`
    * kept to 16 bits when gcli exceeds gtli and the magnitude is nonzero,
    * w otherwise. At gtli = 16 the bit ORed in is the sign bit; from
    * gtli = 17 on it lies above the 16 bits and is lost in the store. */
  function DequantDeadzoneWord(w: Word, gcli: int, gtli: Byte): (r: Word)
    requires gtli >= 1
    ensures !(gcli > gtli && Magnitude(w) != 0) ==> r == w
    ensures gcli > gtli && Magnitude(w) != 0 && gtli <= 15 ==>
      Sign(r) == Sign(w) &&
      Magnitude(r) == if BitSet(Magnitude(w), gtli - 1) then Magnitude(w) else Magnitude(w) + Pow2(gtli - 1)
    ensures gcli > gtli && Magnitude(w) != 0 && gtli == 16 ==> Sign(r) && Magnitude(r) == Magnitude(w)
    ensures gtli >= 17 ==> r == w
  {
    if !(gcli > gtli && Magnitude(w) != 0) then w
    else if gtli <= 15 then
      OrBitKeepsSign(w, gtli - 1);
      OrBitMagnitude(w, gtli - 1);
      OrBit(w, gtli - 1)
    else if gtli == 16 then
      SignBit(w);
      SignBit(OrBit(w, 15));
      OrBit(w, 15)
    else OrBit(w, gtli - 1)
  }

  /** Setting bit gtli - 1 touches the sign only when that bit is the sign
    * bit itself, at gtli = 16. */
  lemma DequantDeadzoneKeepsSign(w: Word, gcli: int, gtli: Byte)
    requires gtli >= 1 && gtli != 16
    ensures Sign(DequantDeadzoneWord(w, gcli, gtli)) == Sign(w)
  {
    OrBitKeepsSign(w, gtli - 1);
  }

  /** Dequantizing twice ORs the same bit twice. */
  lemma DequantDeadzoneIdempotent(w: Word, gcli: int, gtli: Byte)
    requires gtli >= 1
    ensures DequantDeadzoneWord(DequantDeadzoneWord(w, gcli, gtli), gcli, gtli) == DequantDeadzoneWord(w, gcli, gtli)
  {
    var r := DequantDeadzoneWord(w, gcli, gtli);
    if gcli > gtli && Magnitude(w) != 0 && gtli <= 16 {
      if gtli == 16 {
        SignBit(w);
      }
      assert Magnitude(r) != 0;
      assert BitSet(r, gtli - 1);
    }
  }

  /** Bit 15 of a word is its sign, and setting it keeps the magnitude. */
  lemma SignBit(w: Word)
    ensures BitSet(w, 15) == Sign(w)
    ensures Magnitude(OrBit(w, 15)) == Magnitude(w)
  {
    Pow2Word();
    if Sign(w) {
      assert w / 0x8000 == 1;
    } else {
      assert w / 0x8000 == 0;
    }
  }

  /** With groups of four, the 16-wide pass compares the gclis as unsigned
    * bytes (`vcgtq_u8`), tests the magnitudes for zero (`vtstq_u16`) and
    * ORs `1 << (gtli - 1)`, duplicated as a 16-bit lane, into the lanes
    * where both hold. */
  function DequantBatch(v: seq<Word>, g: seq<Byte>, gtli: Byte): (r: seq<Word>)
    requires |v| == 16 && |g| == 4 && gtli >= 1
    ensures |r| == 16
    ensures forall j :: 0 <= j < 16 ==> r[j] == DequantDeadzoneWord(v[j], g[j / 4], gtli)
  {
    var mask := Neon.GreaterMask(Neon.Spread4(g), gtli);
    var r := seq(16, j requires 0 <= j < 16 =>
      if mask[j] == 0xFFFF && Magnitude(v[j]) != 0 then OrBit(v[j], gtli - 1) else v[j]);
    assert forall j :: 0 <= j < 16 ==> r[j] == DequantDeadzoneWord(v[j], g[j / 4], gtli);
    r
  }

  /** The scalar loop reads gcli as `int8_t` and the 16-wide pass reads it
    * as `uint8_t`: the two agree on every gcli below 128 and part on one
    * above, here gcli = 200 (-56 as `int8_t`) at gtli = 2. */
  lemma DequantGatesDiverge()
    ensures DequantDeadzoneWord(1, 200, 2) == 3
    ensures DequantDeadzoneWord(1, AsInt8(200), 2) == 1
  {
    Pow2Word();
    assert !BitSet(1, 1);
  }

  /** The 16-wide loop of `inv_quant_deadzone_neon` (groups of four). */
  method DequantBlocks(buf: array<Word>, size: nat, gclis: array<Byte>, gtli: Byte) returns (i: nat)
    requires size <= buf.Length && Covers(gclis, size, 4) && gtli >= 1
    modifies buf
    ensures i == VectorEnd(size, 4)
    ensures forall k :: 0 <= k < i ==> buf[k] == DequantDeadzoneWord(old(buf[k]), Gcli(gclis, size, 4, k), gtli)
    ensures forall k :: i <= k < buf.Length ==> buf[k] == old(buf[k])
  {
    i := 0;
    while i + 16 <= size
      invariant i % 16 == 0 && i <= size
      invariant forall k :: 0 <= k < i ==> buf[k] == DequantDeadzoneWord(old(buf[k]), Gcli(gclis, size, 4, k), gtli)
      invariant forall k :: i <= k < buf.Length ==> buf[k] == old(buf[k])
    {
      DequantBlock(buf, i, size, gclis, gtli);
      i := i + 16;
    }
    Quant.BlockEnd(i, size);
  }

  /** One pass of that loop: the block of 16 coefficients at i. */
  method DequantBlock(buf: array<Word>, i: nat, size: nat, gclis: array<Byte>, gtli: Byte)
    requires i % 16 == 0 && i + 16 <= size <= buf.Length && Covers(gclis, size, 4) && gtli >= 1
    modifies buf
    ensures forall k :: i <= k < i + 16 ==> buf[k] == DequantDeadzoneWord(old(buf[k]), Gcli(gclis, size, 4, k), gtli)
    ensures forall k :: 0 <= k < buf.Length && !(i <= k < i + 16) ==> buf[k] == old(buf[k])
  {
    LaneGroup(i, 15);
    DivMonotone(i + 15, size - 1, 4);
    var v, g := buf[i .. i + 16], gclis[i / 4 .. i / 4 + 4];
    var r := DequantBatch(v, g, gtli);
    SpreadIndex(g, gclis[..], i);
    Neon.StoreHalves(buf, i, r);
    forall k | i <= k < i + 16
      ensures buf[k] == DequantDeadzoneWord(old(buf[k]), Gcli(gclis, size, 4, k), gtli)
    {
      assert buf[k] == r[k - i] && v[k - i] == old(buf[k]) && g[(k - i) / 4] == gclis[k / 4];
    }
  }

  /** The scalar loop of `inv_quant_deadzone_neon`, from where the 16-wide
    * pass stopped to the end; gcli is read as `int8_t`. */
  method DequantDeadzoneTail(buf: array<Word>, size: nat, gclis: array<Byte>, groupSize: nat, gtli: Byte, start: nat)
    requires start <= size <= buf.Length && Covers(gclis, size, groupSize) && gtli >= 1
    modifies buf
    ensures forall k :: start <= k < size ==>
      buf[k] == DequantDeadzoneWord(old(buf[k]), AsInt8(Gcli(gclis, size, groupSize, k)), gtli)
    ensures forall k :: 0 <= k < buf.Length && !(start <= k < size) ==> buf[k] == old(buf[k])
  {
    var i := start;
    while i < size
      invariant start <= i <= size
      invariant forall k :: start <= k < i ==>
        buf[k] == DequantDeadzoneWord(old(buf[k]), AsInt8(Gcli(gclis, size, groupSize, k)), gtli)
      invariant forall k :: 0 <= k < buf.Length && !(start <= k < i) ==> buf[k] == old(buf[k])
    {
      DivMonotone(i, size - 1, groupSize);
      var gcli := AsInt8(gclis[i / groupSize]);
      if gcli > gtli && Magnitude(buf[i]) != 0 {
        buf[i] := OrBit(buf[i], gtli - 1);
      }
      i := i + 1;
    }
  }

  /** `inv_quant_deadzone_neon`: nothing for gtli = 0; otherwise whole
    * blocks of 16 through the 16-wide pass when groups are four wide, the
    * rest through the scalar loop. Where the group's gcli is below 128 the
    * two gates agree and every word is the scalar loop's. */
  method InvQuantDeadzone(buf: array<Word>, size: nat, gclis: array<Byte>, groupSize: nat, gtli: Byte)
    requires size <= buf.Length && Covers(gclis, size, groupSize)
    modifies buf
    ensures gtli == 0 ==> buf[..] == old(buf[..])
    ensures gtli != 0 ==> forall i :: 0 <= i < size ==>
      buf[i] == if i < VectorEnd(size, groupSize)
                then DequantDeadzoneWord(old(buf[i]), Gcli(gclis, size, groupSize, i), gtli)
                else DequantDeadzoneWord(old(buf[i]), AsInt8(Gcli(gclis, size, groupSize, i)), gtli)
    ensures gtli != 0 ==> forall i :: 0 <= i < size && Gcli(gclis, size, groupSize, i) < 128 ==>
      buf[i] == DequantDeadzoneWord(old(buf[i]), Gcli(gclis, size, groupSize, i), gtli)
    ensures forall i :: size <= i < buf.Length ==> buf[i] == old(buf[i])
  {
    if gtli == 0 {
      return;
    }
    var i := 0;
    if groupSize == 4 {
      i := DequantBlocks(buf, size, gclis, gtli);
    }
    DequantDeadzoneTail(buf, size, gclis, groupSize, gtli, i);
  }

  // ---------------------------------------------------------------------
  // Deadzone round trip

  /** Deadzone quantization followed by deadzone dequantization with the
    * same gcli and gtli >= 1: a group at or below the truncation comes back
    * as zero; otherwise a magnitude below 2^gtli comes back as zero and any
    * other comes back with its sign, at the midpoint of its truncation
    * interval, within (-2^(gtli-1), 2^(gtli-1)] of the original. */
  lemma DeadzoneRoundTrip(w: Word, gcli: int, gtli: Byte)
    requires gtli >= 1
    ensures var r := DequantDeadzoneWord(Quant.QuantDeadzoneWord(w, gcli, gtli), gcli, gtli);
      (gcli <= gtli ==> r == 0) &&
      (r == 0 <==> gcli <= gtli || Magnitude(w) < Pow2(gtli)) &&
      (r != 0 ==>
        Sign(r) == Sign(w) && Magnitude(w) - Pow2(gtli - 1) < Magnitude(r) <= Magnitude(w) + Pow2(gtli - 1))
  {
    var q := Quant.QuantDeadzoneWord(w, gcli, gtli);
    var r := DequantDeadzoneWord(q, gcli, gtli);
    var m, p := Magnitude(w), Pow2(gtli);
    if gcli > gtli {
      if gtli >= 16 {
        Pow2Word();
        Pow2Monotone(15, gtli);
        MultipleBelow(Magnitude(q), p);
      } else if m < p {
        MultipleBelow(Magnitude(q), p);
      } else {
        Pow2Even(gtli);
        assert Magnitude(q) != 0;
        MultipleBitClear(Magnitude(q), gtli);
      }
    }
  }

  /** The only multiple of p below p is zero. */
  lemma MultipleBelow(x: nat, p: nat)
    requires x < p && x % p == 0
    ensures x == 0
  {
  }

  /** A multiple of 2^n has bit n - 1 clear. */
  lemma MultipleBitClear(x: nat, n: nat)
    requires n >= 1 && x % Pow2(n) == 0
    ensures !BitSet(x, n - 1)
  {
    var h := Pow2(n - 1);
    Pow2Even(n);
    var k := x / Pow2(n);
    assert x == k * Pow2(n);
    assert x == (2 * k) * h;
    MulDivCancel(2 * k, h);
  }

  // ---------------------------------------------------------------------
  // Uniform

  /** val + val / 2^s + val / 2^(2s) + ... down to the first zero term: what
    * the shift-and-accumulate loop adds up before the 16-bit store. */
  function GeomSum(val: nat, s: nat): (g: nat)
    requires s >= 1
    ensures val <= g
    decreases val
  {
    Pow2Monotone(1, s);
    if val == 0 then 0 else val + GeomSum(val / Pow2(s), s)
  }

  /** The series is at most val * 2^s / (2^s - 1), its infinite sum. */
  lemma {:induction false} GeomSumBound(val: nat, s: nat)
    requires s >= 1
    ensures GeomSum(val, s) * (Pow2(s) - 1) <= val * Pow2(s)
    decreases val
  {
    if val > 0 {
      var p := Pow2(s);
      assert p >= 2 by { Pow2Monotone(1, s); }
      var v := val / p;
      assert v * p <= val by { FloorMul(val, p); }
      DivShrinks(val, p);
      GeomSumBound(v, s);
      var g := GeomSum(v, s);
      assert GeomSum(val, s) == val + g;
      GeomStep(val, g, v, p);
    }
  }

  /** The inductive step of GeomSumBound: g = G(v) with v = val / p. */
  lemma GeomStep(val: int, g: int, v: int, p: int)
    requires p >= 2 && g * (p - 1) <= v * p && v * p <= val
    ensures (val + g) * (p - 1) <= val * p
  {
  }

  /** Uniform dequantization of one coefficient: when gcli exceeds gtli and
    * the magnitude is nonzero, the magnitude becomes the series with
    * s = gcli - gtli + 1 kept to 16 bits and the sign is ORed back;
    * otherwise the word stays. */
  function DequantUniformWord(w: Word, gcli: int, gtli: Byte): (r: Word)
    requires gtli >= 1
    ensures !(gcli > gtli && Magnitude(w) != 0) ==> r == w
    ensures gcli > gtli && Magnitude(w) != 0 ==>
      Sign(r) == (Sign(w) || GeomSum(Magnitude(w), gcli - gtli + 1) % 0x10000 >= 0x8000) &&
      Magnitude(r) == Magnitude(GeomSum(Magnitude(w), gcli - gtli + 1) % 0x10000)
  {
    if gcli > gtli && Magnitude(w) != 0 then
      OrSign(GeomSum(Magnitude(w), gcli - gtli + 1) % 0x10000, Sign(w))
    else w
  }

  /** A word as the uniform quantizer leaves it (a nonzero multiple of
    * 2^gtli below 2^gcli, gtli < gcli <= 15) is reconstructed without
    * overflow: the magnitude grows but stays below 2^gcli, and the sign is
    * kept. */
  lemma DequantUniformBounds(w: Word, gcli: int, gtli: Byte)
    requires 1 <= gtli < gcli <= 15
    requires Magnitude(w) < Pow2(gcli) && Magnitude(w) % Pow2(gtli) == 0
    ensures var r := DequantUniformWord(w, gcli, gtli);
      Sign(r) == Sign(w) && Magnitude(w) <= Magnitude(r) < Pow2(gcli)
  {
    var m := Magnitude(w);
    if m != 0 {
      UniformGrowth(m, gcli, gtli);
      assert Pow2(gcli) <= 0x8000 by {
        Pow2Word();
        Pow2Monotone(gcli, 15);
      }
      Quant.SmallWord(GeomSum(m, gcli - gtli + 1));
    }
  }

  /** The series behind DequantUniformBounds: for a nonzero multiple m of
    * 2^gtli below 2^gcli, m <= GeomSum(m, gcli - gtli + 1) < 2^gcli. */
  lemma UniformGrowth(m: nat, gcli: nat, gtli: nat)
    requires 1 <= gtli < gcli <= 15
    requires 0 < m < Pow2(gcli) && m % Pow2(gtli) == 0
    ensures m <= GeomSum(m, gcli - gtli + 1) < Pow2(gcli)
  {
    var s := gcli - gtli + 1;
    var t, h, p := Pow2(gtli), Pow2(gcli - gtli), Pow2(s);
    var g := GeomSum(m, s);
    assert p == 2 * h && t * h == Pow2(gcli) by {
      Pow2Add(gtli, gcli - gtli);
      Pow2Even(s);
    }
    GeomSumBound(m, s);
    MultipleBound(m, t, h);
    SeriesBelow(g, m, t, h, p);
  }

  /** A multiple of t below t * h is at most t * (h - 1). */
  lemma MultipleBound(m: int, t: int, h: int)
    requires t >= 1 && 0 <= m < t * h && m % t == 0
    ensures m <= t * (h - 1)
  {
    var k := m / t;
    assert m == k * t;
    if k >= h {
      MulMonotone(h, k, t);
      assert false;
    }
    MulMonotone(k, h - 1, t);
  }

  /** The arithmetic core of DequantUniformBounds: a series bounded by
    * m * 2h / (2h - 1) with m <= t * (h - 1) stays below t * h. */
  lemma SeriesBelow(g: int, m: int, t: int, h: int, p: int)
    requires t >= 1 && h >= 1 && 0 <= m <= t * (h - 1) && p == 2 * h
    requires g * (p - 1) <= m * p
    ensures g < t * h
  {
    assert g * (2 * h - 1) <= m * (2 * h);
    MulMonotone(m, t * (h - 1), 2 * h);
    assert t * (h - 1) * (2 * h) == t * h * (2 * h - 1) - t * h;
    if g >= t * h {
      MulMonotone(t * h, g, 2 * h - 1);
      assert false;
    }
  }

  /** Reducing the running sum before the next addition does not change
    * the stored 16 bits. */
  lemma ModAdd(a: int, b: int)
    ensures (a % 0x10000 + b) % 0x10000 == (a + b) % 0x10000
  {
    DivAddMultiple(a + b, -(a / 0x10000), 0x10000);
  }

  /** Shifting a positive value right by at least one bit shrinks it. */
  lemma DivShrinks(v: int, p: int)
    requires v > 0 && p >= 2
    ensures 0 <= v / p < v
  {
  }

  /** The inner loop of `inv_quant_uniform_neon`: buf[i] starts at 0 and
    * takes `+= val` (kept to 16 bits) for val, val >> s, val >> 2s, ...
    * until the term is 0. */
  method AccumulateShifts(buf: array<Word>, i: nat, val: Word, s: nat)
    requires i < buf.Length && s >= 1
    modifies buf
    ensures buf[i] == GeomSum(val, s) % 0x10000
    ensures forall k :: 0 <= k < buf.Length && k != i ==> buf[k] == old(buf[k])
  {
    buf[i] := 0;
    var v: nat := val;
    ghost var acc: nat := 0;
    Pow2Monotone(1, s);
    while v > 0
      invariant GeomSum(val, s) == acc + GeomSum(v, s)
      invariant buf[i] == acc % 0x10000
      invariant forall k :: 0 <= k < buf.Length && k != i ==> buf[k] == old(buf[k])
      decreases v
    {
      ModAdd(acc, v);
      buf[i] := (buf[i] + v) % 0x10000;
      acc := acc + v;
      DivShrinks(v, Pow2(s));
      v := v / Pow2(s);
    }
  }

  /** `inv_quant_uniform_neon`: nothing for gtli = 0; otherwise one scalar
    * loop reading gcli as `int8_t`. */
  method InvQuantUniform(buf: array<Word>, size: nat, gclis: array<Byte>, groupSize: nat, gtli: Byte)
    requires size <= buf.Length && Covers(gclis, size, groupSize)
    modifies buf
    ensures gtli == 0 ==> buf[..] == old(buf[..])
    ensures gtli != 0 ==> forall i :: 0 <= i < size ==>
      buf[i] == DequantUniformWord(old(buf[i]), AsInt8(Gcli(gclis, size, groupSize, i)), gtli)
    ensures forall i :: size <= i < buf.Length ==> buf[i] == old(buf[i])
  {
    if gtli != 0 {
      DequantUniformLoop(buf, size, gclis, groupSize, gtli);
    }
  }

  /** The loop of `inv_quant_uniform_neon` over coefficients 0 .. size-1. */
  method DequantUniformLoop(buf: array<Word>, size: nat, gclis: array<Byte>, groupSize: nat, gtli: Byte)
    requires size <= buf.Length && Covers(gclis, size, groupSize) && gtli >= 1
    modifies buf
    ensures forall i :: 0 <= i < size ==>
      buf[i] == DequantUniformWord(old(buf[i]), AsInt8(Gcli(gclis, size, groupSize, i)), gtli)
    ensures forall i :: size <= i < buf.Length ==> buf[i] == old(buf[i])
  {
    var i := 0;
    while i < size
      invariant i <= size
      invariant forall k :: 0 <= k < i ==>
        buf[k] == DequantUniformWord(old(buf[k]), AsInt8(Gcli(gclis, size, groupSize, k)), gtli)
      invariant forall k :: i <= k < buf.Length ==> buf[k] == old(buf[k])
    {
      var g := Gcli(gclis, size, groupSize, i);
      DequantUniformAt(buf, i, AsInt8(g), gtli);
      i := i + 1;
    }
  }

  /** The body of that loop for coefficient i, with its gcli as read. */
  method DequantUniformAt(buf: array<Word>, i: nat, gcli: int, gtli: Byte)
    requires i < buf.Length && gtli >= 1 && gcli < 128
    modifies buf
    ensures buf[i] == DequantUniformWord(old(buf[i]), gcli, gtli)
    ensures forall k :: 0 <= k < buf.Length && k != i ==> buf[k] == old(buf[k])
  {
    if gcli > gtli && Magnitude(buf[i]) != 0 {
      var sign := Sign(buf[i]);
      var val := Magnitude(buf[i]);
      var scale := (gcli - gtli + 1) % 256;
      assert scale == gcli - gtli + 1;
      AccumulateShifts(buf, i, val, scale);
      buf[i] := OrSign(buf[i], sign);
    }
  }

  // ---------------------------------------------------------------------
  // Dispatch

  /** `dequant_neon`: the policy picks the kernel; an unrecognised policy
    * leaves the buffer as it is. */
  method Dequantization(buf: array<Word>, size: nat, gclis: array<Byte>, groupSize: nat, gtli: Byte, dqType: Quant.QuantType)
    requires size <= buf.Length && Covers(gclis, size, groupSize)
    modifies buf
    ensures gtli == 0 || dqType == Quant.Unrecognised ==> buf[..] == old(buf[..])
    ensures gtli != 0 && dqType == Quant.Uniform ==> forall i :: 0 <= i < size ==>
      buf[i] == DequantUniformWord(old(buf[i]), AsInt8(Gcli(gclis, size, groupSize, i)), gtli)
    ensures gtli != 0 && dqType == Quant.Deadzone ==> forall i :: 0 <= i < size ==>
      buf[i] == if i < VectorEnd(size, groupSize)
                then DequantDeadzoneWord(old(buf[i]), Gcli(gclis, size, groupSize, i), gtli)
                else DequantDeadzoneWord(old(buf[i]), AsInt8(Gcli(gclis, size, groupSize, i)), gtli)
    ensures forall i :: size <= i < buf.Length ==> buf[i] == old(buf[i])
  {
    match dqType {
      case Uniform => InvQuantUniform(buf, size, gclis, groupSize, gtli);
      case Deadzone => InvQuantDeadzone(buf, size, gclis, groupSize, gtli);
      case Unrecognised =>
    }
  }
}
