/** The encoder's group quantizer `quantization_neon`: every 16-bit
  * sign-magnitude coefficient of a precinct line is quantized in place
  * against the greatest coded line index (gcli) of its group and the
  * truncation position gtli. A group whose gcli does not exceed gtli is
  * zeroed; otherwise the deadzone policy truncates the magnitude to a
  * multiple of 2^gtli and the uniform policy rounds it to one of
  * 2^(gcli - gtli) levels. A zero magnitude never keeps its sign bit. */
module Quant {
  import opened Arith
  import opened Words
  import Neon

  /** `QUANT_TYPE`: the two policies and any other value. */
  datatype QuantType = Uniform | Deadzone | Unrecognised

  // ---------------------------------------------------------------------
  // Deadzone

  /** Deadzone quantization of one coefficient, as the scalar loop does it:
    * zero when gcli <= gtli, otherwise the magnitude with its low gtli bits
    * cleared and the sign put back only on a nonzero result. The ensures
    * pin the magnitude down: the one multiple of 2^gtli in
    * (m - 2^gtli, m]. */
  function QuantDeadzoneWord(w: Word, gcli: int, gtli: nat): (r: Word)
    ensures gcli <= gtli ==> r == 0
    ensures gcli > gtli ==>
      Magnitude(r) <= Magnitude(w) < Magnitude(r) + Pow2(gtli) && Magnitude(r) % Pow2(gtli) == 0
    ensures Magnitude(r) == 0 ==> r == 0
    ensures r != 0 ==> Sign(r) == Sign(w)
  {
    if gcli > gtli then
      var q := TruncateMagnitude(Magnitude(w), gtli);
      if q != 0 then OrSign(q, Sign(w)) else 0
    else 0
  }

  /** `(m >> gtli) << gtli` for a 15-bit magnitude m: the largest multiple
    * of 2^gtli not above m. */
  function TruncateMagnitude(m: nat, gtli: nat): (q: nat)
    requires m < 0x8000
    ensures q <= m < q + Pow2(gtli) && q % Pow2(gtli) == 0
  {
    var p := Pow2(gtli);
    ClearLowMod(m, p);
    m - m % p
  }

  lemma ClearLowMod(m: int, p: int)
    requires p > 0 && m >= 0
    ensures 0 <= m - m % p <= m < m - m % p + p
    ensures (m - m % p) % p == 0 && m - m % p == (m / p) * p
  {
    MulMod(m / p, p);
    if m < p {
      assert m % p == m;
    }
  }

  /** Quantizing an already quantized coefficient again with the same gcli
    * and gtli changes nothing. */
  lemma DeadzoneIdempotent(w: Word, gcli: int, gtli: nat)
    ensures QuantDeadzoneWord(QuantDeadzoneWord(w, gcli, gtli), gcli, gtli) == QuantDeadzoneWord(w, gcli, gtli)
  {
    var r := QuantDeadzoneWord(w, gcli, gtli);
    if gcli > gtli && r != 0 {
      var m := Magnitude(r);
      assert TruncateMagnitude(m, gtli) == m;
      assert OrSign(m, Sign(r)) == r;
    }
  }

  /** At gtli = 0 a group above the truncation keeps every coefficient whose
    * zero is canonical. */
  lemma DeadzoneLosslessAtZero(w: Word, gcli: int)
    requires gcli > 0 && (Magnitude(w) == 0 ==> w == 0)
    ensures QuantDeadzoneWord(w, gcli, 0) == w
  {
    var r := QuantDeadzoneWord(w, gcli, 0);
    assert Magnitude(r) == Magnitude(w);
    if r != 0 {
      assert w == Compose(Sign(w), Magnitude(w));
      assert r == Compose(Sign(r), Magnitude(r));
    }
  }

  /** One lane of the 16-wide pass: `vshlq_u16` right by the shift count of
    * -gtli and back left by that of gtli, the sign ORed in on a nonzero
    * result, and the lane cleared unless the group's gcli exceeds gtli. */
  function NeonDeadzoneWord(w: Word, gcli: int, gtli: Byte): Word
  {
    var q := VShl(VShl(Magnitude(w), ShiftCount(-(gtli as int))), ShiftCount(gtli));
    if gcli > gtli then OrSign(q, Sign(w) && q != 0) else 0
  }

  /** For gtli up to 128 the shift counts are exactly -gtli and gtli (or
    * shift everything out); from 129 to 240 the count taken from -gtli wraps
    * to the left shift 256 - gtli, at least 16, which also shifts everything
    * out. Either way a lane computes what the scalar loop computes. */
  lemma NeonDeadzoneMatches(w: Word, gcli: int, gtli: Byte)
    requires gtli <= 240
    ensures NeonDeadzoneWord(w, gcli, gtli) == QuantDeadzoneWord(w, gcli, gtli)
  {
    var m, p := Magnitude(w), Pow2(gtli);
    if gtli <= 128 {
      var a := VShl(m, ShiftCount(-(gtli as int)));
      assert a == m / p by {
        ShiftCountNegated(gtli);
        VShlRight(m, gtli);
      }
      if gtli < 128 {
        ShiftBack(m, gtli, a);
        return;
      }
      assert a == 0 by {
        Pow2Word();
        Pow2Monotone(15, gtli);
        SmallQuotient(m, p);
      }
    } else {
      ShiftCountsWrapped(gtli);
      ShiftOut(m, 256 - gtli);
    }
    VShlZero(ShiftCount(gtli));
    assert TruncateMagnitude(m, gtli) == 0 by {
      Pow2Word();
      Pow2Monotone(15, gtli);
      ClearLowMod(m, p);
      SmallQuotient(m, p);
    }
  }

  /** From gtli = 241 to 254 the wrapped counts shift left by 256 - gtli
    * (2 to 15) and back right by as much, so a magnitude of 1 survives in a
    * group with gcli = gtli + 1, where the scalar loop truncates it to 0.
    * (At gtli = 255 no `uint8_t` gcli exceeds gtli, so both give 0.) */
  lemma QuantGatesDiverge(gtli: Byte)
    requires 241 <= gtli <= 254
    ensures NeonDeadzoneWord(1, gtli + 1, gtli) == 1
    ensures QuantDeadzoneWord(1, gtli + 1, gtli) == 0
  {
    var c := 256 - gtli;
    ShiftCountsWrapped(gtli);
    Pow2Word();
    Pow2Monotone(c, 15);
    assert VShl(1, c) == Pow2(c);
    VShlRight(Pow2(c), c);
    MulDivCancel(1, Pow2(c));
    assert VShl(Pow2(c), ShiftCount(gtli)) == 1;
    Pow2Monotone(15, gtli);
  }

  /** From gtli = 129 on, the low byte of -gtli read as signed is the left
    * shift 256 - gtli, and that of gtli the right shift by 256 - gtli. */
  lemma ShiftCountsWrapped(gtli: Byte)
    requires gtli >= 129
    ensures ShiftCount(-(gtli as int)) == 256 - gtli
    ensures ShiftCount(gtli) == gtli - 256
  {
    assert (-(gtli as int)) % 256 == 256 - gtli;
  }

  /** A left shift by 16 or more leaves nothing of a 16-bit lane. */
  lemma ShiftOut(a: Word, c: nat)
    requires c >= 16
    ensures VShl(a, c) == 0
  {
    Pow2Add(16, c - 16);
    Pow2Word();
    assert a * Pow2(c) == (a * Pow2(c - 16)) * 0x10000;
    MulMod(a * Pow2(c - 16), 0x10000);
  }

  /** Shifting the quotient back up by a count below 128 clears exactly the
    * low k bits of a 15-bit magnitude. */
  lemma ShiftBack(m: nat, k: nat, a: Word)
    requires m < 0x8000 && k < 128 && a == m / Pow2(k)
    ensures VShl(a, ShiftCount(k)) == TruncateMagnitude(m, k)
  {
    ClearLowMod(m, Pow2(k));
    VShlLeft(a, k);
  }

  /** Shifting zero either way gives zero. */
  lemma VShlZero(c: int)
    ensures VShl(0, c) == 0
  {
    if c < 0 {
      SmallQuotient(0, Pow2(-c));
    }
  }

  /** For gtli <= 128 the low byte of -gtli, read as signed, is -gtli. */
  lemma ShiftCountNegated(gtli: Byte)
    requires gtli <= 128
    ensures ShiftCount(-(gtli as int)) == -(gtli as int)
  {
    if gtli > 0 {
      assert (-(gtli as int)) % 256 == 256 - gtli;
    }
  }

  /** A negative count shifts right. */
  lemma VShlRight(a: Word, k: nat)
    ensures VShl(a, -(k as int)) == a / Pow2(k)
  {
  }

  /** A count below 128 is its own shift count and shifts left; nothing is
    * lost when the result fits in 16 bits. */
  lemma VShlLeft(a: Word, k: nat)
    requires k < 128 && a * Pow2(k) < 0x10000
    ensures VShl(a, ShiftCount(k)) == a * Pow2(k)
  {
    assert ShiftCount(k) == k;
    MulMonotone(0, a, Pow2(k));
  }

  lemma SmallQuotient(m: nat, p: nat)
    requires m < p
    ensures m / p == 0
  {
  }

  /** The 16-wide pass over coefficients i .. i+15 with the four gclis of
    * their groups: the gclis are spread to one per lane (`vcreate_u8`,
    * `vcombine_u8`), compared with gtli (`vcgtq_u8`) and widened to 16-bit
    * all-ones masks (`vmovl_u8`, times 0x0101), which clear the lanes of
    * groups at or below the truncation. */
  function DeadzoneBatch(v: seq<Word>, g: seq<Byte>, gtli: Byte): (r: seq<Word>)
    requires |v| == 16 && |g| == 4
    ensures |r| == 16
    ensures forall j :: 0 <= j < 16 ==> r[j] == NeonDeadzoneWord(v[j], g[j / 4], gtli)
    ensures gtli <= 240 ==> forall j :: 0 <= j < 16 ==> r[j] == QuantDeadzoneWord(v[j], g[j / 4], gtli)
  {
    var mask := Neon.GreaterMask(Neon.Spread4(g), gtli);
    var r := seq(16, j requires 0 <= j < 16 =>
      var q := VShl(VShl(Magnitude(v[j]), ShiftCount(-(gtli as int))), ShiftCount(gtli));
      var signed := OrSign(q, Sign(v[j]) && q != 0);
      if mask[j] == 0xFFFF then signed else 0);
    assert forall j :: 0 <= j < 16 ==> r[j] == NeonDeadzoneWord(v[j], g[j / 4], gtli);
    if gtli <= 240 then
      assert forall j :: 0 <= j < 16 ==> r[j] == QuantDeadzoneWord(v[j], g[j / 4], gtli) by {
        forall j | 0 <= j < 16 { NeonDeadzoneMatches(v[j], g[j / 4], gtli); }
      }
      r
    else r
  }

  /** The 16-wide loop of `quant_deadzone_neon` (groups of four): every
    * whole block of 16 coefficients, each stored back as two halves of 8. */
  method DeadzoneBlocks(buf: array<Word>, size: nat, gclis: array<Byte>, gtli: Byte) returns (i: nat)
    requires size <= buf.Length && Covers(gclis, size, 4)
    modifies buf
    ensures i == VectorEnd(size, 4)
    ensures forall k :: 0 <= k < i ==> buf[k] == NeonDeadzoneWord(old(buf[k]), Gcli(gclis, size, 4, k), gtli)
    ensures forall k :: i <= k < buf.Length ==> buf[k] == old(buf[k])
  {
    i := 0;
    while i + 16 <= size
      invariant i % 16 == 0 && i <= size
      invariant forall k :: 0 <= k < i ==> buf[k] == NeonDeadzoneWord(old(buf[k]), Gcli(gclis, size, 4, k), gtli)
      invariant forall k :: i <= k < buf.Length ==> buf[k] == old(buf[k])
    {
      DeadzoneBlock(buf, i, size, gclis, gtli);
      i := i + 16;
    }
    BlockEnd(i, size);
  }

  /** One pass of that loop: the block of 16 coefficients at i. */
  method DeadzoneBlock(buf: array<Word>, i: nat, size: nat, gclis: array<Byte>, gtli: Byte)
    requires i % 16 == 0 && i + 16 <= size <= buf.Length && Covers(gclis, size, 4)
    modifies buf
    ensures forall k :: i <= k < i + 16 ==> buf[k] == NeonDeadzoneWord(old(buf[k]), Gcli(gclis, size, 4, k), gtli)
    ensures forall k :: 0 <= k < buf.Length && !(i <= k < i + 16) ==> buf[k] == old(buf[k])
  {
    LaneGroup(i, 15);
    DivMonotone(i + 15, size - 1, 4);
    var v, g := buf[i .. i + 16], gclis[i / 4 .. i / 4 + 4];
    var r := DeadzoneBatch(v, g, gtli);
    SpreadIndex(g, gclis[..], i);
    Neon.StoreHalves(buf, i, r);
    forall k | i <= k < i + 16
      ensures buf[k] == NeonDeadzoneWord(old(buf[k]), Gcli(gclis, size, 4, k), gtli)
    {
      assert buf[k] == r[k - i] && v[k - i] == old(buf[k]) && g[(k - i) / 4] == gclis[k / 4];
    }
  }

  /** A multiple of 16 within 16 of size is the last block boundary. */
  lemma BlockEnd(i: nat, size: nat)
    requires i % 16 == 0 && i <= size < i + 16
    ensures i == size / 16 * 16
  {
    DivAddMultiple(size - i, i / 16, 16);
  }

  /** `quant_deadzone_neon`: with groups of four, whole blocks of 16 go
    * through the 16-wide pass and the rest through the scalar loop; with
    * any other group size everything goes through the scalar loop. For
    * gtli up to 240 the result is the scalar loop's everywhere. */
  method QuantDeadzone(buf: array<Word>, size: nat, gclis: array<Byte>, groupSize: nat, gtli: Byte)
    requires size <= buf.Length && Covers(gclis, size, groupSize)
    modifies buf
    ensures forall i :: 0 <= i < size ==>
      buf[i] == if i < VectorEnd(size, groupSize)
                then NeonDeadzoneWord(old(buf[i]), Gcli(gclis, size, groupSize, i), gtli)
                else QuantDeadzoneWord(old(buf[i]), Gcli(gclis, size, groupSize, i), gtli)
    ensures gtli <= 240 ==> forall i :: 0 <= i < size ==>
      buf[i] == QuantDeadzoneWord(old(buf[i]), Gcli(gclis, size, groupSize, i), gtli)
    ensures forall i :: size <= i < buf.Length ==> buf[i] == old(buf[i])
  {
    var i := 0;
    if groupSize == 4 {
      i := DeadzoneBlocks(buf, size, gclis, gtli);
    }
    DeadzoneTail(buf, size, gclis, groupSize, gtli, i);
    if gtli <= 240 {
      forall k | 0 <= k < VectorEnd(size, groupSize)
        ensures NeonDeadzoneWord(old(buf[k]), Gcli(gclis, size, groupSize, k), gtli)
             == QuantDeadzoneWord(old(buf[k]), Gcli(gclis, size, groupSize, k), gtli)
      {
        NeonDeadzoneMatches(old(buf[k]), Gcli(gclis, size, groupSize, k), gtli);
      }
    }
  }

  /** The scalar loop of `quant_deadzone_neon`, from where the 16-wide pass
    * stopped to the end. */
  method DeadzoneTail(buf: array<Word>, size: nat, gclis: array<Byte>, groupSize: nat, gtli: Byte, start: nat)
    requires start <= size <= buf.Length && Covers(gclis, size, groupSize)
    modifies buf
    ensures forall k :: start <= k < size ==> buf[k] == QuantDeadzoneWord(old(buf[k]), Gcli(gclis, size, groupSize, k), gtli)
    ensures forall k :: 0 <= k < buf.Length && !(start <= k < size) ==> buf[k] == old(buf[k])
  {
    var i := start;
    while i < size
      invariant start <= i <= size
      invariant forall k :: start <= k < i ==> buf[k] == QuantDeadzoneWord(old(buf[k]), Gcli(gclis, size, groupSize, k), gtli)
      invariant forall k :: 0 <= k < buf.Length && !(start <= k < i) ==> buf[k] == old(buf[k])
    {
      DivMonotone(i, size - 1, groupSize);
      var gcli := gclis[i / groupSize];
      if gcli > gtli {
        var sign := Sign(buf[i]);
        buf[i] := TruncateMagnitude(Magnitude(buf[i]), gtli);
        if buf[i] != 0 {
          buf[i] := OrSign(buf[i], sign);
        }
      } else {
        buf[i] := 0;
      }
      i := i + 1;
    }
  }

  // ---------------------------------------------------------------------
  // Uniform

  /** The `uint8_t` scale value gcli - gtli + 1. */
  function Scale(gcli: Byte, gtli: Byte): Byte
  {
    (gcli - gtli + 1) % 256
  }

  /** The reconstruction level of a magnitude d: `((d << s) - d +
    * (1 << gcli)) >> (gcli + 1)` in `int`, stored back into 16 bits. */
  function UniformIndex(d: nat, gcli: Byte, gtli: Byte): Word
  {
    var s := Scale(gcli, gtli);
    ((d * Pow2(s) - d + Pow2(gcli)) / Pow2(gcli + 1)) % 0x10000
  }

  /** Uniform quantization of one coefficient, as `quant_uniform_neon` does
    * it: zero when gcli <= gtli; otherwise the level shifted back up by gtli
    * (kept to 16 bits), with the sign put back only on a nonzero result. */
  function QuantUniformWord(w: Word, gcli: Byte, gtli: Byte): (r: Word)
    ensures gcli <= gtli ==> r == 0
    ensures gcli > gtli ==>
      var v := (UniformIndex(Magnitude(w), gcli, gtli) * Pow2(gtli)) % 0x10000;
      (r == 0 <==> v == 0) && Magnitude(r) == Magnitude(v) && (Sign(r) <==> Sign(v) || (v != 0 && Sign(w)))
  {
    if gcli > gtli then
      var v: Word := (UniformIndex(Magnitude(w), gcli, gtli) * Pow2(gtli)) % 0x10000;
      if v != 0 then OrSign(v, Sign(w)) else 0
    else 0
  }

  /** The level is d scaled by (2^s - 1) / 2^(gcli+1) and rounded to the
    * nearest integer, halves rounding up (before the 16-bit store). */
  lemma UniformIndexRounds(d: nat, gcli: Byte, gtli: Byte)
    ensures var s, n := Scale(gcli, gtli), (d * Pow2(Scale(gcli, gtli)) - d + Pow2(gcli)) / Pow2(gcli + 1);
      d * (Pow2(s) - 1) - Pow2(gcli) < n * (2 * Pow2(gcli)) <= d * (Pow2(s) - 1) + Pow2(gcli)
  {
    var s := Scale(gcli, gtli);
    var x := d * Pow2(s) - d + Pow2(gcli);
    assert Pow2(gcli + 1) == 2 * Pow2(gcli);
    FloorMul(x, 2 * Pow2(gcli));
    assert d * (Pow2(s) - 1) == d * Pow2(s) - d;
  }

  /** For a magnitude that fits in gcli bits, gtli < gcli <= 15, there are
    * 2^(gcli - gtli) levels, so the quantized magnitude is a multiple of
    * 2^gtli below 2^gcli and nothing is lost to the 16-bit store. */
  lemma UniformIndexBound(d: nat, gcli: Byte, gtli: Byte)
    requires gtli < gcli <= 15 && d < Pow2(gcli)
    ensures UniformIndex(d, gcli, gtli) < Pow2(gcli - gtli)
    ensures UniformIndex(d, gcli, gtli) * Pow2(gtli) < Pow2(gcli)
  {
    var s := Scale(gcli, gtli);
    var h, t := Pow2(gcli - gtli), Pow2(gtli);
    LevelBelow(d, gcli, gtli);
    assert h * t == Pow2(gcli) && h <= 0x8000 by {
      Pow2Add(gcli - gtli, gtli);
      Pow2Monotone(gcli - gtli, 15);
      Pow2Word();
    }
    IndexFits(d * Pow2(s) - d + Pow2(gcli), Pow2(gcli + 1), h, t);
  }

  /** A level below h <= 2^15 survives the 16-bit store, and shifted back up
    * by t stays below h * t. */
  lemma IndexFits(x: int, q: int, h: int, t: int)
    requires q >= 1 && 0 <= x / q < h <= 0x8000 && t >= 1
    ensures (x / q) % 0x10000 < h && ((x / q) % 0x10000) * t < h * t
  {
    StrictMul(x / q, h, t);
  }

  /** Before the 16-bit store, the level of a magnitude below 2^gcli is
    * below 2^(gcli - gtli). */
  lemma LevelBelow(d: nat, gcli: Byte, gtli: Byte)
    requires gtli < gcli <= 15 && d < Pow2(gcli)
    ensures 0 <= (d * Pow2(Scale(gcli, gtli)) - d + Pow2(gcli)) / Pow2(gcli + 1) < Pow2(gcli - gtli)
  {
    var s := Scale(gcli, gtli);
    assert s - 1 == gcli - gtli;
    Pow2Even(s);
    Pow2Even(gcli + 1);
    LevelBound(d, Pow2(gcli), Pow2(gcli - gtli), Pow2(s), Pow2(gcli + 1));
  }

  lemma StrictMul(n: int, h: int, t: int)
    requires 0 <= n < h && t >= 1
    ensures n * t < h * t
  {
    MulMonotone(n + 1, h, t);
  }

  /** The arithmetic core of UniformIndexBound, with a = 2^gcli,
    * h = 2^(s-1), p = 2^s and q = 2^(gcli+1). */
  lemma LevelBound(d: int, a: int, h: int, p: int, q: int)
    requires 0 <= d < a && h >= 1 && p == 2 * h && q == 2 * a
    ensures 0 <= (d * p - d + a) / q < h
  {
    assert d * p == d * (2 * h);
    var b := 2 * h - 1;
    var x := d * (2 * h) - d + a;
    MulLessOne(d, 2 * h);
    MulNonneg(d, b);
    MulMonotone(d, a - 1, b);
    LevelIdentity(a, h);
    DivLess(x, h, 2 * a);
  }

  lemma MulLessOne(d: int, c: int)
    ensures d * c - d == d * (c - 1)
  {
  }

  lemma LevelIdentity(a: int, h: int)
    ensures (a - 1) * (2 * h - 1) + a == h * (2 * a) - 2 * h + 1
  {
  }

  /** For valid gclis (gtli < gcli <= 15) and a magnitude that fits in gcli
    * bits, the uniform quantizer keeps what the deadzone one keeps: a
    * magnitude below 2^gcli with its low gtli bits clear, zero without a
    * sign, and the sign of the input otherwise. */
  lemma QuantUniformBounds(w: Word, gcli: Byte, gtli: Byte)
    requires gtli < gcli <= 15 && Magnitude(w) < Pow2(gcli)
    ensures var r := QuantUniformWord(w, gcli, gtli);
      Magnitude(r) < Pow2(gcli) && Magnitude(r) % Pow2(gtli) == 0 &&
      (Magnitude(r) == 0 ==> r == 0) && (r != 0 ==> Sign(r) == Sign(w))
  {
    var n, t := UniformIndex(Magnitude(w), gcli, gtli), Pow2(gtli);
    UniformIndexBound(Magnitude(w), gcli, gtli);
    Pow2Word();
    Pow2Monotone(gcli, 15);
    MulMod(n, t);
    MulNonneg(n, t);
    SmallWord(n * t);
  }

  /** A value below 2^15 stored into 16 bits is itself, without a sign. */
  lemma SmallWord(v: int)
    requires 0 <= v < 0x8000
    ensures v % 0x10000 == v && !Sign(v) && Magnitude(v) == v
  {
  }

  /** `quant_uniform_neon`: one scalar loop over every coefficient. */
  method QuantUniform(buf: array<Word>, size: nat, gclis: array<Byte>, groupSize: nat, gtli: Byte)
    requires size <= buf.Length && Covers(gclis, size, groupSize)
    modifies buf
    ensures forall i :: 0 <= i < size ==> buf[i] == QuantUniformWord(old(buf[i]), Gcli(gclis, size, groupSize, i), gtli)
    ensures forall i :: size <= i < buf.Length ==> buf[i] == old(buf[i])
  {
    var i := 0;
    while i < size
      invariant i <= size
      invariant forall k :: 0 <= k < i ==> buf[k] == QuantUniformWord(old(buf[k]), Gcli(gclis, size, groupSize, k), gtli)
      invariant forall k :: i <= k < buf.Length ==> buf[k] == old(buf[k])
    {
      DivMonotone(i, size - 1, groupSize);
      var gcli := gclis[i / groupSize];
      if gcli > gtli {
        var sign := Sign(buf[i]);
        var scale := Scale(gcli, gtli);
        var d := Magnitude(buf[i]);
        d := ((d * Pow2(scale) - d + Pow2(gcli)) / Pow2(gcli + 1)) % 0x10000;
        buf[i] := (d * Pow2(gtli)) % 0x10000;
        if buf[i] != 0 {
          buf[i] := OrSign(buf[i], sign);
        }
      } else {
        buf[i] := 0;
      }
      i := i + 1;
    }
  }

  // ---------------------------------------------------------------------
  // Dispatch

  /** `quantization_neon`: the policy picks the kernel; an unrecognised
    * policy leaves the buffer as it is. */
  method Quantization(buf: array<Word>, size: nat, gclis: array<Byte>, groupSize: nat, gtli: Byte, quantType: QuantType)
    requires size <= buf.Length && Covers(gclis, size, groupSize)
    modifies buf
    ensures quantType == Uniform ==> forall i :: 0 <= i < size ==>
      buf[i] == QuantUniformWord(old(buf[i]), Gcli(gclis, size, groupSize, i), gtli)
    ensures quantType == Deadzone ==> forall i :: 0 <= i < size ==>
      buf[i] == if i < VectorEnd(size, groupSize)
                then NeonDeadzoneWord(old(buf[i]), Gcli(gclis, size, groupSize, i), gtli)
                else QuantDeadzoneWord(old(buf[i]), Gcli(gclis, size, groupSize, i), gtli)
    ensures quantType == Deadzone && gtli <= 240 ==> forall i :: 0 <= i < size ==>
      buf[i] == QuantDeadzoneWord(old(buf[i]), Gcli(gclis, size, groupSize, i), gtli)
    ensures quantType == Unrecognised ==> buf[..] == old(buf[..])
    ensures forall i :: size <= i < buf.Length ==> buf[i] == old(buf[i])
  {
    match quantType {
      case Uniform => QuantUniform(buf, size, gclis, groupSize, gtli);
      case Deadzone => QuantDeadzone(buf, size, gclis, groupSize, gtli);
      case Unrecognised =>
    }
  }
}
