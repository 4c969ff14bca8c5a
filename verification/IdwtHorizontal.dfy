/** Inverse 5/3 wavelet transform of one line (ISO/IEC 21122-1, Annex E), the
  * decoder kernels `idwt_horizontal_line_lf16_hf16_neon` and
  * `idwt_horizontal_line_lf32_hf16_neon` with their scalar fallbacks. The
  * ceil(len/2) low-pass (LF) and floor(len/2) high-pass (HF) coefficients are
  * interleaved back into len samples: even sample k from LF k and its HF
  * neighbours, odd sample k from HF k and its even neighbours. */
module IdwtHorizontal {
  import opened Arith
  import opened Lifting
  import Neon
  import Dwt

  /** A signed 16-bit coefficient as stored in the `int16_t` input lines. */
  type Int16 = x: int | -0x8000 <= x < 0x8000

  /** Band lengths of a line of |L| + |H| >= 2 samples. */
  predicate Shape(L: seq<int>, H: seq<int>)
  {
    1 <= |H| && (|L| == |H| || |L| == |H| + 1)
  }

  /** A line of coefficients after `(int32_t)c << shift`. */
  function Scaled(s: seq<int>, shift: nat): (r: seq<int>)
    ensures |r| == |s|
  {
    seq(|s|, k requires 0 <= k < |s| => Shl(s[k], shift))
  }

  /** Even sample k: LF k minus the rounded mean of its HF neighbours; the
    * first even sample, and the last one of an odd-length line, have only
    * one HF neighbour. */
  function EvenAt(L: seq<int>, H: seq<int>, k: nat): int
    requires Shape(L, H) && k < |L|
  {
    if k == 0 then InverseUpdateOne(L[0], H[0])
    else if k < |H| then InverseUpdateTwo(L[k], H[k - 1], H[k])
    else InverseUpdateOne(L[k], H[k - 1])
  }

  /** Odd sample k: HF k plus the floor mean of its even neighbours; the last
    * odd sample of an even-length line has only its left neighbour. */
  function OddAt(L: seq<int>, H: seq<int>, k: nat): int
    requires Shape(L, H) && k < |H|
  {
    if k + 1 < |L| then InversePredictTwo(H[k], EvenAt(L, H, k), EvenAt(L, H, k + 1))
    else InversePredictOne(H[k], EvenAt(L, H, k))
  }

  /** Output sample j of the reconstructed line. */
  function SampleAt(L: seq<int>, H: seq<int>, j: nat): int
    requires Shape(L, H) && j < |L| + |H|
  {
    if j % 2 == 0 then EvenAt(L, H, j / 2) else OddAt(L, H, j / 2)
  }

  /** The reconstructed line. */
  function Reconstruct(L: seq<int>, H: seq<int>): seq<int>
    requires Shape(L, H)
  {
    seq(|L| + |H|, j requires 0 <= j < |L| + |H| => SampleAt(L, H, j))
  }

  /** A reconstructed even sample is the sample at its position. */
  lemma SampleAtEven(L: seq<int>, H: seq<int>, k: nat)
    requires Shape(L, H) && k < |L|
    ensures 2 * k < |L| + |H| && Reconstruct(L, H)[2 * k] == EvenAt(L, H, k)
  {
    assert (2 * k) % 2 == 0 && (2 * k) / 2 == k;
  }

  /** A reconstructed odd sample is the sample at its position. */
  lemma SampleAtOdd(L: seq<int>, H: seq<int>, k: nat)
    requires Shape(L, H) && k < |H|
    ensures 2 * k + 1 < |L| + |H| && Reconstruct(L, H)[2 * k + 1] == OddAt(L, H, k)
  {
    assert (2 * k + 1) % 2 == 1 && (2 * k + 1) / 2 == k;
  }

  /** The forward bands of a line have the shape the inverse transform takes. */
  lemma ForwardShape(x: seq<int>)
    requires 2 <= |x|
    ensures Shape(Dwt.ForwardLf(x), Dwt.ForwardHf(x))
    ensures |Dwt.ForwardLf(x)| + |Dwt.ForwardHf(x)| == |x|
  {
  }

  /** Inverse update recovers even sample 2k of a forward-transformed line. */
  lemma RoundTripEven(x: seq<int>, k: nat)
    requires 2 <= |x| && 2 * k < |x|
    ensures Shape(Dwt.ForwardLf(x), Dwt.ForwardHf(x))
    ensures EvenAt(Dwt.ForwardLf(x), Dwt.ForwardHf(x), k) == x[2 * k]
  {
    var L, H := Dwt.ForwardLf(x), Dwt.ForwardHf(x);
    ForwardShape(x);
    assert L[k] == Dwt.LowPass(x, k);
    if k > 0 {
      assert H[k - 1] == Dwt.HighPass(x, k - 1);
    }
    if k < |H| {
      assert H[k] == Dwt.HighPass(x, k);
    }
  }

  /** Inverse predict recovers odd sample 2k+1 of a forward-transformed line. */
  lemma RoundTripOdd(x: seq<int>, k: nat)
    requires 2 <= |x| && 2 * k + 1 < |x|
    ensures Shape(Dwt.ForwardLf(x), Dwt.ForwardHf(x))
    ensures OddAt(Dwt.ForwardLf(x), Dwt.ForwardHf(x), k) == x[2 * k + 1]
  {
    var L, H := Dwt.ForwardLf(x), Dwt.ForwardHf(x);
    RoundTripEven(x, k);
    assert H[k] == Dwt.HighPass(x, k);
    if k + 1 < |L| {
      RoundTripEven(x, k + 1);
    }
  }

  /** The inverse transform undoes the forward one: every line of at least
    * two samples is reconstructed exactly from its two bands. */
  lemma RoundTrip(x: seq<int>)
    requires 2 <= |x|
    ensures Shape(Dwt.ForwardLf(x), Dwt.ForwardHf(x))
    ensures Reconstruct(Dwt.ForwardLf(x), Dwt.ForwardHf(x)) == x
  {
    ForwardShape(x);
    forall j | 0 <= j < |x|
      ensures Reconstruct(Dwt.ForwardLf(x), Dwt.ForwardHf(x))[j] == x[j]
    {
      RoundTripAt(x, j);
    }
  }

  /** The two bands the encoder writes, handed to the 32-bit-LF decoder
    * kernel with shift 0 (LF as it is, HF unshifted), reconstruct the line. */
  lemma ForwardThenLf32(x: seq<int>)
    requires 2 <= |x|
    ensures Shape(Dwt.ForwardLf(x), Scaled(Dwt.ForwardHf(x), 0))
    ensures Reconstruct(Dwt.ForwardLf(x), Scaled(Dwt.ForwardHf(x), 0)) == x
  {
    var H := Dwt.ForwardHf(x);
    assert Scaled(H, 0) == H;
    RoundTrip(x);
  }

  /** Sample j of the reconstruction of a forward-transformed line is x[j]. */
  lemma RoundTripAt(x: seq<int>, j: nat)
    requires 2 <= |x| && j < |x|
    ensures Shape(Dwt.ForwardLf(x), Dwt.ForwardHf(x))
    ensures |Reconstruct(Dwt.ForwardLf(x), Dwt.ForwardHf(x))| == |x|
    ensures Reconstruct(Dwt.ForwardLf(x), Dwt.ForwardHf(x))[j] == x[j]
  {
    var L, H := Dwt.ForwardLf(x), Dwt.ForwardHf(x);
    ForwardShape(x);
    var k := j / 2;
    if j % 2 == 0 {
      assert j == 2 * k;
      RoundTripEven(x, k);
      SampleAtEven(L, H, k);
    } else {
      assert j == 2 * k + 1;
      RoundTripOdd(x, k);
      SampleAtOdd(L, H, k);
    }
  }

  /** Forward predict of a reconstruction gives back HF coefficient k. */
  lemma InverseRoundTripHf(L: seq<int>, H: seq<int>, k: nat)
    requires Shape(L, H) && k < |H|
    ensures 2 <= |Reconstruct(L, H)| && 2 * k + 1 < |Reconstruct(L, H)|
    ensures Dwt.HighPass(Reconstruct(L, H), k) == H[k]
  {
    var r := Reconstruct(L, H);
    SampleAtOdd(L, H, k);
    SampleAtEven(L, H, k);
    if k + 1 < |L| {
      SampleAtEven(L, H, k + 1);
    }
  }

  /** Forward update of a reconstruction gives back LF coefficient k. */
  lemma InverseRoundTripLf(L: seq<int>, H: seq<int>, k: nat)
    requires Shape(L, H) && k < |L|
    ensures 2 <= |Reconstruct(L, H)| && 2 * k < |Reconstruct(L, H)|
    ensures Dwt.LowPass(Reconstruct(L, H), k) == L[k]
  {
    var r := Reconstruct(L, H);
    SampleAtEven(L, H, k);
    InverseRoundTripHf(L, H, 0);
    if k > 0 {
      InverseRoundTripHf(L, H, k - 1);
    }
    if k < |H| {
      InverseRoundTripHf(L, H, k);
    }
  }

  /** And the forward transform undoes the inverse one: any pair of bands of
    * matching lengths is what the forward transform makes of its
    * reconstruction, so the two transforms are a bijection. */
  lemma InverseRoundTrip(L: seq<int>, H: seq<int>)
    requires Shape(L, H)
    ensures Dwt.ForwardHf(Reconstruct(L, H)) == H
    ensures Dwt.ForwardLf(Reconstruct(L, H)) == L
  {
    var r := Reconstruct(L, H);
    forall k | 0 <= k < |H|
      ensures Dwt.ForwardHf(r)[k] == H[k]
    {
      InverseRoundTripHf(L, H, k);
    }
    forall k | 0 <= k < |L|
      ensures Dwt.ForwardLf(r)[k] == L[k]
    {
      InverseRoundTripLf(L, H, k);
    }
  }

  /** The first e even samples and the first o odd samples of the
    * reconstruction are in place in `out`. */
  ghost predicate Done(out: array<int>, L: seq<int>, H: seq<int>, e: nat, o: nat)
    reads out
  {
    Shape(L, H) && e <= |L| && o <= |H| && |L| + |H| <= out.Length &&
    (forall k :: 0 <= k < e ==> out[2 * k] == EvenAt(L, H, k)) &&
    (forall k :: 0 <= k < o ==> out[2 * k + 1] == OddAt(L, H, k))
  }

  lemma DoneAll(out: array<int>, L: seq<int>, H: seq<int>)
    requires Done(out, L, H, |L|, |H|)
    ensures out[.. |L| + |H|] == Reconstruct(L, H)
  {
    forall j | 0 <= j < |L| + |H|
      ensures out[j] == SampleAt(L, H, j)
    {
      if j % 2 == 0 {
        assert out[2 * (j / 2)] == EvenAt(L, H, j / 2);
      } else {
        assert out[2 * (j / 2) + 1] == OddAt(L, H, j / 2);
      }
    }
  }

  /** A store `out[2k] = v` of even sample k (a new one, k == e, or one already
    * in place being written again, k < e). */
  method PutEven(out: array<int>, ghost L: seq<int>, ghost H: seq<int>, k: nat, ghost e: nat, ghost o: nat, v: int)
    requires Done(out, L, H, e, o) && k <= e && k < |L| && v == EvenAt(L, H, k)
    modifies out
    ensures Done(out, L, H, if k == e then e + 1 else e, o)
    ensures forall j :: 0 <= j < out.Length && j != 2 * k ==> out[j] == old(out[j])
  {
    out[2 * k] := v;
  }

  /** A store `out[2k+1] = v` of the next odd sample k. */
  method PutOdd(out: array<int>, ghost L: seq<int>, ghost H: seq<int>, k: nat, ghost e: nat, v: int)
    requires Done(out, L, H, e, k) && k < |H| && v == OddAt(L, H, k)
    modifies out
    ensures Done(out, L, H, e, k + 1)
    ensures forall j :: 0 <= j < out.Length && j != 2 * k + 1 ==> out[j] == old(out[j])
  {
    out[2 * k + 1] := v;
  }

  /** Four even samples at once: `vsubq_s32(lf, vshrq_n_s32(curr + next + 2, 2))`. */
  function EvenLanes(vLf: seq<int>, vCurr: seq<int>, vNext: seq<int>): (e: seq<int>)
    requires |vLf| == 4 && |vCurr| == 4 && |vNext| == 4
    ensures |e| == 4
  {
    Neon.Sub(vLf, Neon.ShrN(Neon.Add(Neon.Add(vCurr, vNext), Neon.Dup(2, 4)), 2))
  }

  /** Four odd samples at once: `vaddq_s32(hf, vshrq_n_s32(prev + e, 1))`. */
  function OddLanes(vCurr: seq<int>, vPrev: seq<int>, vE: seq<int>): (o: seq<int>)
    requires |vCurr| == 4 && |vPrev| == 4 && |vE| == 4
    ensures |o| == 4
  {
    Neon.Add(vCurr, Neon.ShrN(Neon.Add(vPrev, vE), 1))
  }

  /** Even lanes over interior positions c .. c+3, fed LF c+j and HF c-1+j
    * and c+j, are even samples c .. c+3. */
  lemma EvenLanesMatch(L: seq<int>, H: seq<int>, c: nat, vLf: seq<int>, vCurr: seq<int>, vNext: seq<int>)
    requires Shape(L, H) && 1 <= c && c + 4 <= |H|
    requires |vLf| == 4 && |vCurr| == 4 && |vNext| == 4
    requires forall j :: 0 <= j < 4 ==> vLf[j] == L[c + j]
    requires forall j :: 0 <= j < 4 ==> vCurr[j] == H[c - 1 + j]
    requires forall j :: 0 <= j < 4 ==> vNext[j] == H[c + j]
    ensures forall j :: 0 <= j < 4 ==> EvenLanes(vLf, vCurr, vNext)[j] == EvenAt(L, H, c + j)
  {
    assert Pow2(2) == 4 by { Pow2Word(); }
  }

  /** Odd lanes over positions c .. c+3 with two even neighbours, fed HF c+j
    * and even samples c+j and c+1+j, are odd samples c .. c+3. */
  lemma OddLanesMatch(L: seq<int>, H: seq<int>, c: nat, vCurr: seq<int>, vPrev: seq<int>, vE: seq<int>)
    requires Shape(L, H) && c + 4 <= |H| && c + 4 < |L|
    requires |vCurr| == 4 && |vPrev| == 4 && |vE| == 4
    requires forall j :: 0 <= j < 4 ==> vCurr[j] == H[c + j]
    requires forall j :: 0 <= j < 4 ==> vPrev[j] == EvenAt(L, H, c + j)
    requires forall j :: 0 <= j < 4 ==> vE[j] == EvenAt(L, H, c + 1 + j)
    ensures forall j :: 0 <= j < 4 ==> OddLanes(vCurr, vPrev, vE)[j] == OddAt(L, H, c + j)
  {
    assert Pow2(1) == 2 by { Pow2Word(); }
  }

  /** The HF registers of a batch: the current HF coefficients b .. b+7 and,
    * built by `vextq_s16`/`vsetq_lane_s16` before widening, their right
    * neighbours b+1 .. b+8, all shifted. */
  lemma BatchHfLanes(rawH: seq<int>, shift: nat, b: nat)
    requires b + 9 <= |rawH|
    ensures var hf := rawH[b .. b + 8];
      var next := Neon.SetLane(Neon.Ext(hf, hf, 1), rawH[b + 8], 7);
      var H := Scaled(rawH, shift);
      |Neon.Shl(Neon.Low(hf), shift)| == 4 && |Neon.Shl(Neon.High(hf), shift)| == 4 &&
      |Neon.Shl(Neon.Low(next), shift)| == 4 && |Neon.Shl(Neon.High(next), shift)| == 4 &&
      (forall j :: 0 <= j < 4 ==> Neon.Shl(Neon.Low(hf), shift)[j] == H[b + j]) &&
      (forall j :: 0 <= j < 4 ==> Neon.Shl(Neon.High(hf), shift)[j] == H[b + 4 + j]) &&
      (forall j :: 0 <= j < 4 ==> Neon.Shl(Neon.Low(next), shift)[j] == H[b + 1 + j]) &&
      (forall j :: 0 <= j < 4 ==> Neon.Shl(Neon.High(next), shift)[j] == H[b + 5 + j])
  {
    var hf := rawH[b .. b + 8];
    var next := Neon.SetLane(Neon.Ext(hf, hf, 1), rawH[b + 8], 7);
    var rot := Neon.Ext(hf, hf, 1);
    assert forall m :: 0 <= m < 7 ==> rot[m] == (hf + hf)[1 + m] == rawH[b + 1 + m];
    assert next == rot[7 := rawH[b + 8]];
    assert next == rawH[b + 1 .. b + 9];
    assert Neon.Low(hf) == rawH[b .. b + 4] && Neon.High(hf) == rawH[b + 4 .. b + 8];
    assert Neon.Low(next) == rawH[b + 1 .. b + 5] && Neon.High(next) == rawH[b + 5 .. b + 9];
  }

  /** The LF registers of a 16-bit batch: coefficients c .. c+7, widened
    * and shifted, in two halves of four. */
  lemma LfLanes(raw: seq<int>, shift: nat, c: nat)
    requires c + 8 <= |raw|
    ensures var v := raw[c .. c + 8];
      var S := Scaled(raw, shift);
      |Neon.Shl(Neon.Low(v), shift)| == 4 && |Neon.Shl(Neon.High(v), shift)| == 4 &&
      (forall j :: 0 <= j < 4 ==> Neon.Shl(Neon.Low(v), shift)[j] == S[c + j]) &&
      (forall j :: 0 <= j < 4 ==> Neon.Shl(Neon.High(v), shift)[j] == S[c + 4 + j])
  {
    var v := raw[c .. c + 8];
    forall j | 0 <= j < 4
      ensures Neon.Shl(Neon.Low(v), shift)[j] == Scaled(raw, shift)[c + j]
      ensures Neon.Shl(Neon.High(v), shift)[j] == Scaled(raw, shift)[c + 4 + j]
    {
      assert Neon.Low(v)[j] == raw[c + j] && Neon.High(v)[j] == raw[c + 4 + j];
    }
  }

  /** One pass of the 8-lane batch loop at pair b: `vLfLo`/`vLfHi` hold the
    * (already scaled) LF coefficients b+1 .. b+8, `hf` the raw HF
    * coefficients b .. b+7 and `hNext` HF b+8, `ePrev` the carried even
    * sample b. The 16 lanes, as the four `vst1q_s32` stores of the zipped
    * odd/even registers lay them out, are exactly the samples 2b+1 .. 2b+16
    * of the reconstruction: odd sample b+j in lane 2j, even sample b+1+j in
    * lane 2j+1 (so the last lane, the next `E_prev`, is even sample b+8),
    * whenever the batch loop's guard `i + 16 <= len - 2` (i = 2b+1) holds. */
  method BatchInverse(vLfLo: seq<int>, vLfHi: seq<int>, hf: seq<int>, hNext: int, ePrev: int, shift: nat,
                      ghost L: seq<int>, ghost rawH: seq<int>, ghost b: nat)
    returns (r: seq<int>)
    requires Shape(L, Scaled(rawH, shift)) && 2 * b + 19 <= |L| + |rawH|
    requires |vLfLo| == 4 && |vLfHi| == 4
    requires forall j :: 0 <= j < 4 ==> vLfLo[j] == L[b + 1 + j]
    requires forall j :: 0 <= j < 4 ==> vLfHi[j] == L[b + 5 + j]
    requires hf == rawH[b .. b + 8] && hNext == rawH[b + 8] && ePrev == EvenAt(L, Scaled(rawH, shift), b)
    ensures |r| == 16
    ensures forall j :: 0 <= j < 8 ==> r[2 * j] == OddAt(L, Scaled(rawH, shift), b + j)
    ensures forall j :: 0 <= j < 8 ==> r[2 * j + 1] == EvenAt(L, Scaled(rawH, shift), b + 1 + j)
  {
    ghost var H := Scaled(rawH, shift);
    var vELo, vEHi := BatchEvens(vLfLo, vLfHi, hf, hNext, shift, L, rawH, b);
    var vOLo, vOHi := BatchOdds(hf, ePrev, vELo, vEHi, shift, L, rawH, b);
    r := Neon.Zip(vOLo, vELo) + Neon.Zip(vOHi, vEHi);
    ZipAssemble(r, vOLo, vELo, vOHi, vEHi);
    forall j | 0 <= j < 8
      ensures r[2 * j] == OddAt(L, H, b + j) && r[2 * j + 1] == EvenAt(L, H, b + 1 + j)
    {
      if j < 4 {
        assert r[2 * j] == vOLo[j] && r[2 * j + 1] == vELo[j];
      } else {
        assert r[8 + 2 * (j - 4)] == vOHi[j - 4] && r[8 + 2 * (j - 4) + 1] == vEHi[j - 4];
      }
    }
  }

  /** The even half of a batch: `vE_lo`/`vE_hi`, even samples b+1 .. b+8,
    * from the LF registers and the current and next HF registers. */
  method BatchEvens(vLfLo: seq<int>, vLfHi: seq<int>, hf: seq<int>, hNext: int, shift: nat,
                    ghost L: seq<int>, ghost rawH: seq<int>, ghost b: nat)
    returns (vELo: seq<int>, vEHi: seq<int>)
    requires Shape(L, Scaled(rawH, shift)) && 2 * b + 19 <= |L| + |rawH|
    requires |vLfLo| == 4 && |vLfHi| == 4
    requires forall j :: 0 <= j < 4 ==> vLfLo[j] == L[b + 1 + j]
    requires forall j :: 0 <= j < 4 ==> vLfHi[j] == L[b + 5 + j]
    requires hf == rawH[b .. b + 8] && hNext == rawH[b + 8]
    ensures |vELo| == 4 && |vEHi| == 4
    ensures forall j :: 0 <= j < 4 ==> vELo[j] == EvenAt(L, Scaled(rawH, shift), b + 1 + j)
    ensures forall j :: 0 <= j < 4 ==> vEHi[j] == EvenAt(L, Scaled(rawH, shift), b + 5 + j)
  {
    ghost var H := Scaled(rawH, shift);
    var vHfCurrLo := Neon.Shl(Neon.Low(hf), shift);
    var vHfCurrHi := Neon.Shl(Neon.High(hf), shift);
    var vHfNext16 := Neon.SetLane(Neon.Ext(hf, hf, 1), hNext, 7);
    var vHfNextLo := Neon.Shl(Neon.Low(vHfNext16), shift);
    var vHfNextHi := Neon.Shl(Neon.High(vHfNext16), shift);
    BatchHfLanes(rawH, shift, b);
    EvenLanesMatch(L, H, b + 1, vLfLo, vHfCurrLo, vHfNextLo);
    EvenLanesMatch(L, H, b + 5, vLfHi, vHfCurrHi, vHfNextHi);
    vELo := EvenLanes(vLfLo, vHfCurrLo, vHfNextLo);
    vEHi := EvenLanes(vLfHi, vHfCurrHi, vHfNextHi);
  }

  /** The odd half of a batch: `vO_lo`/`vO_hi`, odd samples b .. b+7, from
    * the current HF registers and the even samples b .. b+8, the first of
    * them the carried `E_prev`. */
  method BatchOdds(hf: seq<int>, ePrev: int, vELo: seq<int>, vEHi: seq<int>, shift: nat,
                   ghost L: seq<int>, ghost rawH: seq<int>, ghost b: nat)
    returns (vOLo: seq<int>, vOHi: seq<int>)
    requires Shape(L, Scaled(rawH, shift)) && 2 * b + 19 <= |L| + |rawH|
    requires |vELo| == 4 && |vEHi| == 4
    requires forall j :: 0 <= j < 4 ==> vELo[j] == EvenAt(L, Scaled(rawH, shift), b + 1 + j)
    requires forall j :: 0 <= j < 4 ==> vEHi[j] == EvenAt(L, Scaled(rawH, shift), b + 5 + j)
    requires hf == rawH[b .. b + 8] && ePrev == EvenAt(L, Scaled(rawH, shift), b)
    ensures |vOLo| == 4 && |vOHi| == 4
    ensures forall j :: 0 <= j < 4 ==> vOLo[j] == OddAt(L, Scaled(rawH, shift), b + j)
    ensures forall j :: 0 <= j < 4 ==> vOHi[j] == OddAt(L, Scaled(rawH, shift), b + 4 + j)
  {
    ghost var H := Scaled(rawH, shift);
    var vHfCurrLo := Neon.Shl(Neon.Low(hf), shift);
    var vHfCurrHi := Neon.Shl(Neon.High(hf), shift);
    var vEPrevLo := Neon.Ext(Neon.Dup(ePrev, 4), vELo, 3);
    var vEPrevHi := Neon.Ext(vELo, vEHi, 3);
    assert forall j :: 0 <= j < 4 ==> vEPrevLo[j] == EvenAt(L, H, b + j);
    assert forall j :: 0 <= j < 4 ==> vEPrevHi[j] == EvenAt(L, H, b + 4 + j);
    BatchHfLanes(rawH, shift, b);
    OddLanesMatch(L, H, b, vHfCurrLo, vEPrevLo, vELo);
    OddLanesMatch(L, H, b + 4, vHfCurrHi, vEPrevHi, vEHi);
    vOLo := OddLanes(vHfCurrLo, vEPrevLo, vELo);
    vOHi := OddLanes(vHfCurrHi, vEPrevHi, vEHi);
  }

  /** Lanes 2j and 2j+1 of two zipped halves laid end to end. */
  lemma ZipAssemble(r: seq<int>, oLo: seq<int>, eLo: seq<int>, oHi: seq<int>, eHi: seq<int>)
    requires |oLo| == 4 && |eLo| == 4 && |oHi| == 4 && |eHi| == 4
    requires r == Neon.Zip(oLo, eLo) + Neon.Zip(oHi, eHi)
    ensures |r| == 16
    ensures forall j :: 0 <= j < 4 ==> r[2 * j] == oLo[j] && r[2 * j + 1] == eLo[j]
    ensures forall j :: 0 <= j < 4 ==> r[8 + 2 * j] == oHi[j] && r[8 + 2 * j + 1] == eHi[j]
  {
    assert forall j :: 0 <= j < 4 ==> r[8 + 2 * j] == Neon.Zip(oHi, eHi)[2 * j];
    assert forall j :: 0 <= j < 4 ==> r[8 + 2 * j + 1] == Neon.Zip(oHi, eHi)[2 * j + 1];
  }

  /** The four `vst1q_s32` stores of one batch: samples 2b+1 .. 2b+16. */
  method PutBatch(out: array<int>, ghost L: seq<int>, ghost H: seq<int>, b: nat, r: seq<int>)
    requires Done(out, L, H, b + 1, b) && b + 9 <= |L| && b + 8 <= |H| && |r| == 16
    requires forall j :: 0 <= j < 8 ==> r[2 * j] == OddAt(L, H, b + j)
    requires forall j :: 0 <= j < 8 ==> r[2 * j + 1] == EvenAt(L, H, b + 1 + j)
    modifies out
    ensures Done(out, L, H, b + 9, b + 8)
    ensures forall j :: 0 <= j < out.Length && !(2 * b + 1 <= j < 2 * b + 17) ==> out[j] == old(out[j])
  {
    Neon.Store(out, 2 * b + 1, r);
    assert forall k :: b + 1 <= k < b + 9 ==> out[2 * k] == r[2 * (k - b - 1) + 1];
    assert forall k :: b <= k < b + 8 ==> out[2 * k + 1] == r[2 * (k - b)];
  }

  // ---------------------------------------------------------------------
  // 16-bit LF variant: L = LF << shift, H = HF << shift.

  /** `idwt_horizontal_line_lf16_hf16_c_fallback`: the scalar reference. */
  method IdwtHorizontalLf16Fallback(inLf: array<Int16>, inHf: array<Int16>, out: array<int>, len: nat, shift: nat)
    requires 2 <= len && inLf.Length == (len + 1) / 2 && inHf.Length == len / 2 && len <= out.Length
    modifies out
    ensures out[.. len] == Reconstruct(Scaled(inLf[..], shift), Scaled(inHf[..], shift))
    ensures forall j :: len <= j < out.Length ==> out[j] == old(out[j])
  {
    ghost var L, H := Scaled(inLf[..], shift), Scaled(inHf[..], shift);
    PutEven(out, L, H, 0, 0, 0, Shl(inLf[0], shift) - (Shl(inHf[0], shift) + 1) / 2);
    var k := Lf16FallbackPairs(inLf, inHf, out, len, shift);
    Lf16FallbackClose(inLf, inHf, out, len, shift, k, L, H);
    DoneAll(out, L, H);
  }

  /** The tail of that fallback after its pair loop: the last even sample
    * from one HF neighbour when len is odd, then the last odd sample. */
  method Lf16FallbackClose(inLf: array<Int16>, inHf: array<Int16>, out: array<int>, len: nat, shift: nat, k: nat, ghost L: seq<int>, ghost H: seq<int>)
    requires inLf.Length == (len + 1) / 2 && inHf.Length == len / 2 && len <= out.Length
    requires len - 2 <= 2 * k + 1 <= len - 1
    requires L == Scaled(inLf[..], shift) && H == Scaled(inHf[..], shift)
    requires Done(out, L, H, k + 1, k)
    modifies out
    ensures Done(out, L, H, |L|, |H|)
    ensures forall j :: 0 <= j < out.Length && !(2 * k + 1 <= j < len) ==> out[j] == old(out[j])
  {
    var hCurr := Shl(inHf[k], shift);
    assert hCurr == H[k];
    if len % 2 == 1 {
      assert |L| == k + 2 && |H| == k + 1;
      var lNext := Shl(inLf[k + 1], shift);
      assert lNext == L[k + 1];
      PutEven(out, L, H, k + 1, k + 1, k, lNext - (hCurr + 1) / 2);
      assert out[2 * k] == EvenAt(L, H, k) && out[2 * k + 2] == EvenAt(L, H, k + 1);
      PutOdd(out, L, H, k, k + 2, hCurr + (out[2 * k] + out[2 * k + 2]) / 2);
    } else {
      assert |L| == k + 1 && |H| == k + 1;
      assert out[2 * k] == EvenAt(L, H, k);
      PutOdd(out, L, H, k, k + 1, hCurr + out[2 * k]);
    }
  }

  /** The pair loop of that fallback, while `i < len - 2`. */
  method Lf16FallbackPairs(inLf: array<Int16>, inHf: array<Int16>, out: array<int>, len: nat, shift: nat) returns (k: nat)
    requires 2 <= len && inLf.Length == (len + 1) / 2 && inHf.Length == len / 2 && len <= out.Length
    requires Done(out, Scaled(inLf[..], shift), Scaled(inHf[..], shift), 1, 0)
    modifies out
    ensures len - 2 <= 2 * k + 1 <= len - 1
    ensures Done(out, Scaled(inLf[..], shift), Scaled(inHf[..], shift), k + 1, k)
    ensures forall j :: 2 * k + 1 <= j < out.Length ==> out[j] == old(out[j])
  {
    ghost var L, H := Scaled(inLf[..], shift), Scaled(inHf[..], shift);
    var i := 1;
    k := 0;
    while i < len - 2
      invariant i == 2 * k + 1 && i <= len - 1
      invariant Done(out, L, H, k + 1, k)
      invariant forall j :: i <= j < out.Length ==> out[j] == old(out[j])
    {
      Lf16Pair(inLf, inHf, out, len, shift, k, L, H);
      k, i := k + 1, i + 2;
    }
  }

  /** One pass of that loop: even sample k + 1, then odd sample k. */
  method Lf16Pair(inLf: array<Int16>, inHf: array<Int16>, out: array<int>, len: nat, shift: nat, k: nat, ghost L: seq<int>, ghost H: seq<int>)
    requires inLf.Length == (len + 1) / 2 && inHf.Length == len / 2 && len <= out.Length
    requires 2 * k + 1 < len - 2
    requires L == Scaled(inLf[..], shift) && H == Scaled(inHf[..], shift)
    requires Done(out, L, H, k + 1, k)
    modifies out
    ensures Done(out, L, H, k + 2, k + 1)
    ensures forall j :: 0 <= j < out.Length && j != 2 * k + 1 && j != 2 * k + 2 ==> out[j] == old(out[j])
  {
    PutEven(out, L, H, k + 1, k + 1, k, Shl(inLf[k + 1], shift) - (Shl(inHf[k], shift) + Shl(inHf[k + 1], shift) + 2) / 4);
    PutOdd(out, L, H, k, k + 2, Shl(inHf[k], shift) + (out[2 * k] + out[2 * k + 2]) / 2);
  }

  /** `idwt_horizontal_line_lf16_hf16_neon`: below 16 samples the fallback,
    * otherwise the 8-lane batch loop carrying `E_prev`, the scalar remaining
    * loop and the closing case. It produces exactly the fallback's output. */
  method IdwtHorizontalLf16(inLf: array<Int16>, inHf: array<Int16>, out: array<int>, len: nat, shift: nat)
    requires 2 <= len && inLf.Length == (len + 1) / 2 && inHf.Length == len / 2 && len <= out.Length
    modifies out
    ensures out[.. len] == Reconstruct(Scaled(inLf[..], shift), Scaled(inHf[..], shift))
    ensures forall j :: len <= j < out.Length ==> out[j] == old(out[j])
  {
    if len < 16 {
      IdwtHorizontalLf16Fallback(inLf, inHf, out, len, shift);
      return;
    }
    ghost var L, H := Scaled(inLf[..], shift), Scaled(inHf[..], shift);
    var ePrev := Shl(inLf[0], shift) - (Shl(inHf[0], shift) + 1) / 2;
    PutEven(out, L, H, 0, 0, 0, ePrev);
    var b;
    b, ePrev := Lf16BatchLoop(inLf, inHf, out, len, shift, ePrev);
    b, ePrev := Lf16Remaining(inLf, inHf, out, len, shift, b, ePrev);
    Lf16Close(inLf, inHf, out, len, shift, b, ePrev, L, H);
    DoneAll(out, L, H);
  }

  /** The batch loop of the 16-bit variant, from pair 0 while
    * `i + 16 <= len - 2` with i = 2b+1. */
  method Lf16BatchLoop(inLf: array<Int16>, inHf: array<Int16>, out: array<int>, len: nat, shift: nat, ePrev0: int)
    returns (b: nat, ePrev: int)
    requires 16 <= len && inLf.Length == (len + 1) / 2 && inHf.Length == len / 2 && len <= out.Length
    requires Done(out, Scaled(inLf[..], shift), Scaled(inHf[..], shift), 1, 0)
    requires ePrev0 == EvenAt(Scaled(inLf[..], shift), Scaled(inHf[..], shift), 0)
    modifies out
    ensures 2 * b + 1 <= len - 1 && len < 2 * b + 19
    ensures Done(out, Scaled(inLf[..], shift), Scaled(inHf[..], shift), b + 1, b)
    ensures ePrev == EvenAt(Scaled(inLf[..], shift), Scaled(inHf[..], shift), b)
    ensures forall j :: 2 * b + 1 <= j < out.Length ==> out[j] == old(out[j])
  {
    ghost var L, H := Scaled(inLf[..], shift), Scaled(inHf[..], shift);
    b, ePrev := 0, ePrev0;
    var i := 1;
    while i + 16 <= len - 2
      invariant i == 2 * b + 1 && i <= len - 1
      invariant Done(out, L, H, b + 1, b) && ePrev == EvenAt(L, H, b)
      invariant forall j :: i <= j < out.Length ==> out[j] == old(out[j])
    {
      ePrev := Lf16BatchStep(inLf, inHf, out, len, shift, b, ePrev, L, H);
      b, i := b + 8, i + 16;
    }
  }

  /** One pass of that loop: the eight pairs from b on, loaded from
    * `in_lf + b + 1` and `in_hf + b`, stored at `out + 2b + 1`. */
  method Lf16BatchStep(inLf: array<Int16>, inHf: array<Int16>, out: array<int>, len: nat, shift: nat, b: nat, ePrev: int, ghost L: seq<int>, ghost H: seq<int>)
    returns (eNext: int)
    requires inLf.Length == (len + 1) / 2 && inHf.Length == len / 2 && len <= out.Length
    requires 2 * b + 17 <= len - 2
    requires L == Scaled(inLf[..], shift) && H == Scaled(inHf[..], shift)
    requires Done(out, L, H, b + 1, b) && ePrev == EvenAt(L, H, b)
    modifies out
    ensures Done(out, L, H, b + 9, b + 8) && eNext == EvenAt(L, H, b + 8)
    ensures forall j :: 0 <= j < out.Length && !(2 * b + 1 <= j < 2 * b + 17) ==> out[j] == old(out[j])
  {
    var vLf16 := inLf[b + 1 .. b + 9];
    var vLfLo := Neon.Shl(Neon.Low(vLf16), shift);
    var vLfHi := Neon.Shl(Neon.High(vLf16), shift);
    assert vLf16 == inLf[..][b + 1 .. b + 9];
    LfLanes(inLf[..], shift, b + 1);
    var hf, hNext := inHf[b .. b + 8], inHf[b + 8];
    assert hf == inHf[..][b .. b + 8];
    var r := BatchInverse(vLfLo, vLfHi, hf, hNext, ePrev, shift, L, inHf[..], b);
    assert r[2 * 7 + 1] == EvenAt(L, H, b + 8);
    PutBatch(out, L, H, b, r);
    eNext := r[15];
  }

  /** The remaining loop of the 16-bit variant, while `i < len - 2`: each
    * step writes `out[2b]` again from the carried `E_prev` and then the next
    * even and odd samples. */
  method Lf16Remaining(inLf: array<Int16>, inHf: array<Int16>, out: array<int>, len: nat, shift: nat, b0: nat, ePrev0: int)
    returns (b: nat, ePrev: int)
    requires 2 <= len && inLf.Length == (len + 1) / 2 && inHf.Length == len / 2 && len <= out.Length
    requires 2 * b0 + 1 <= len - 1
    requires Done(out, Scaled(inLf[..], shift), Scaled(inHf[..], shift), b0 + 1, b0)
    requires ePrev0 == EvenAt(Scaled(inLf[..], shift), Scaled(inHf[..], shift), b0)
    modifies out
    ensures len - 2 <= 2 * b + 1 <= len - 1
    ensures Done(out, Scaled(inLf[..], shift), Scaled(inHf[..], shift), b + 1, b)
    ensures ePrev == EvenAt(Scaled(inLf[..], shift), Scaled(inHf[..], shift), b)
    ensures forall j :: 2 * b + 1 <= j < out.Length ==> out[j] == old(out[j])
  {
    ghost var L, H := Scaled(inLf[..], shift), Scaled(inHf[..], shift);
    var i;
    b, ePrev, i := b0, ePrev0, 2 * b0 + 1;
    while i < len - 2
      invariant i == 2 * b + 1 && i <= len - 1
      invariant Done(out, L, H, b + 1, b) && ePrev == EvenAt(L, H, b)
      invariant forall j :: i <= j < out.Length ==> out[j] == old(out[j])
    {
      PutEven(out, L, H, b, b + 1, b, ePrev);
      var lNext := Shl(inLf[b + 1], shift);
      var hCurr := Shl(inHf[b], shift);
      var hNext := Shl(inHf[b + 1], shift);
      var eNext := lNext - (hCurr + hNext + 2) / 4;
      var oCurr := hCurr + (ePrev + eNext) / 2;
      PutEven(out, L, H, b + 1, b + 1, b, eNext);
      PutOdd(out, L, H, b, b + 2, oCurr);
      b, i, ePrev := b + 1, i + 2, eNext;
    }
  }

  /** The closing case of the 16-bit variant: `out[2b]` from `E_prev`, then
    * for an odd length the last even sample (one HF neighbour) and the odd
    * sample before it, for an even length the last odd sample (one even
    * neighbour). */
  method Lf16Close(inLf: array<Int16>, inHf: array<Int16>, out: array<int>, len: nat, shift: nat, b: nat, ePrev: int, ghost L: seq<int>, ghost H: seq<int>)
    requires inLf.Length == (len + 1) / 2 && inHf.Length == len / 2 && len <= out.Length
    requires len - 2 <= 2 * b + 1 <= len - 1
    requires L == Scaled(inLf[..], shift) && H == Scaled(inHf[..], shift)
    requires Done(out, L, H, b + 1, b) && ePrev == EvenAt(L, H, b)
    modifies out
    ensures Done(out, L, H, |L|, |H|)
    ensures forall j :: 0 <= j < out.Length && !(2 * b <= j < len) ==> out[j] == old(out[j])
  {
    PutEven(out, L, H, b, b + 1, b, ePrev);
    var hCurr := Shl(inHf[b], shift);
    assert hCurr == H[b];
    if len % 2 == 1 {
      assert |L| == b + 2 && |H| == b + 1;
      var lNext := Shl(inLf[b + 1], shift);
      assert lNext == L[b + 1];
      var eNext := lNext - (hCurr + 1) / 2;
      assert eNext == EvenAt(L, H, b + 1);
      var oCurr := hCurr + (ePrev + eNext) / 2;
      PutEven(out, L, H, b + 1, b + 1, b, eNext);
      PutOdd(out, L, H, b, b + 2, oCurr);
    } else {
      assert |L| == b + 1 && |H| == b + 1;
      PutOdd(out, L, H, b, b + 1, hCurr + ePrev);
    }
  }

  // ---------------------------------------------------------------------
  // 32-bit LF variant: L = LF unshifted, H = HF << shift.

  /** `idwt_horizontal_line_lf32_hf16_c_fallback`: the scalar reference. */
  method IdwtHorizontalLf32Fallback(inLf: array<int>, inHf: array<Int16>, out: array<int>, len: nat, shift: nat)
    requires 2 <= len && inLf.Length == (len + 1) / 2 && inHf.Length == len / 2 && len <= out.Length
    requires inLf != out
    modifies out
    ensures out[.. len] == Reconstruct(inLf[..], Scaled(inHf[..], shift))
    ensures forall j :: len <= j < out.Length ==> out[j] == old(out[j])
  {
    ghost var L, H := inLf[..], Scaled(inHf[..], shift);
    PutEven(out, L, H, 0, 0, 0, inLf[0] - (Shl(inHf[0], shift) + 1) / 2);
    var k := Lf32FallbackPairs(inLf, inHf, out, len, shift);
    Lf32Tail(inLf, inHf, out, len, shift, k, L, H);
    DoneAll(out, L, H);
  }

  /** The tail of the 32-bit variant after its pair loop, the same in the
    * fallback and in the vector kernel: the last even sample from one HF
    * neighbour when len is odd, then the last odd sample, both read back
    * from `out`. */
  method Lf32Tail(inLf: array<int>, inHf: array<Int16>, out: array<int>, len: nat, shift: nat, k: nat, ghost L: seq<int>, ghost H: seq<int>)
    requires inLf.Length == (len + 1) / 2 && inHf.Length == len / 2 && len <= out.Length
    requires inLf != out
    requires len - 2 <= 2 * k + 1 <= len - 1
    requires L == inLf[..] && H == Scaled(inHf[..], shift)
    requires Done(out, L, H, k + 1, k)
    modifies out
    ensures Done(out, L, H, |L|, |H|)
    ensures forall j :: 0 <= j < out.Length && !(2 * k + 1 <= j < len) ==> out[j] == old(out[j])
  {
    var hCurr := Shl(inHf[k], shift);
    assert hCurr == H[k];
    if len % 2 == 1 {
      assert |L| == k + 2 && |H| == k + 1;
      PutEven(out, L, H, k + 1, k + 1, k, inLf[k + 1] - (hCurr + 1) / 2);
      assert out[2 * k] == EvenAt(L, H, k) && out[2 * k + 2] == EvenAt(L, H, k + 1);
      PutOdd(out, L, H, k, k + 2, hCurr + (out[2 * k] + out[2 * k + 2]) / 2);
    } else {
      assert |L| == k + 1 && |H| == k + 1;
      assert out[2 * k] == EvenAt(L, H, k);
      PutOdd(out, L, H, k, k + 1, hCurr + out[2 * k]);
    }
  }

  /** The pair loop of that fallback, while `i < len - 2`. */
  method Lf32FallbackPairs(inLf: array<int>, inHf: array<Int16>, out: array<int>, len: nat, shift: nat) returns (k: nat)
    requires 2 <= len && inLf.Length == (len + 1) / 2 && inHf.Length == len / 2 && len <= out.Length
    requires inLf != out
    requires Done(out, inLf[..], Scaled(inHf[..], shift), 1, 0)
    modifies out
    ensures len - 2 <= 2 * k + 1 <= len - 1
    ensures Done(out, inLf[..], Scaled(inHf[..], shift), k + 1, k)
    ensures forall j :: 2 * k + 1 <= j < out.Length ==> out[j] == old(out[j])
  {
    ghost var L, H := inLf[..], Scaled(inHf[..], shift);
    var i := 1;
    k := 0;
    while i < len - 2
      invariant i == 2 * k + 1 && i <= len - 1
      invariant L == inLf[..] && Done(out, L, H, k + 1, k)
      invariant forall j :: i <= j < out.Length ==> out[j] == old(out[j])
    {
      Lf32Pair(inLf, inHf, out, len, shift, k, L, H);
      k, i := k + 1, i + 2;
    }
  }

  /** One pass of that loop: even sample k + 1, then odd sample k. */
  method Lf32Pair(inLf: array<int>, inHf: array<Int16>, out: array<int>, len: nat, shift: nat, k: nat, ghost L: seq<int>, ghost H: seq<int>)
    requires inLf.Length == (len + 1) / 2 && inHf.Length == len / 2 && len <= out.Length
    requires 2 * k + 1 < len - 2
    requires inLf != out
    requires L == inLf[..] && H == Scaled(inHf[..], shift)
    requires Done(out, L, H, k + 1, k)
    modifies out
    ensures Done(out, L, H, k + 2, k + 1)
    ensures forall j :: 0 <= j < out.Length && j != 2 * k + 1 && j != 2 * k + 2 ==> out[j] == old(out[j])
  {
    PutEven(out, L, H, k + 1, k + 1, k, inLf[k + 1] - (Shl(inHf[k], shift) + Shl(inHf[k + 1], shift) + 2) / 4);
    PutOdd(out, L, H, k, k + 2, Shl(inHf[k], shift) + (out[2 * k] + out[2 * k + 2]) / 2);
  }

  /** `idwt_horizontal_line_lf32_hf16_neon`: below 16 samples the fallback,
    * otherwise the same 8-lane batch loop on unshifted LF, then a remaining
    * loop that re-reads the previous even sample from `out`. It produces
    * exactly the fallback's output. */
  method IdwtHorizontalLf32(inLf: array<int>, inHf: array<Int16>, out: array<int>, len: nat, shift: nat)
    requires 2 <= len && inLf.Length == (len + 1) / 2 && inHf.Length == len / 2 && len <= out.Length
    requires inLf != out
    modifies out
    ensures out[.. len] == Reconstruct(inLf[..], Scaled(inHf[..], shift))
    ensures forall j :: len <= j < out.Length ==> out[j] == old(out[j])
  {
    if len < 16 {
      IdwtHorizontalLf32Fallback(inLf, inHf, out, len, shift);
      return;
    }
    ghost var L, H := inLf[..], Scaled(inHf[..], shift);
    var ePrev := inLf[0] - (Shl(inHf[0], shift) + 1) / 2;
    PutEven(out, L, H, 0, 0, 0, ePrev);
    var b;
    b, ePrev := Lf32BatchLoop(inLf, inHf, out, len, shift, ePrev);
    b := Lf32Remaining(inLf, inHf, out, len, shift, b);
    Lf32Tail(inLf, inHf, out, len, shift, b, L, H);
    DoneAll(out, L, H);
  }

  /** The batch loop of the 32-bit variant, from pair 0 while
    * `i + 16 <= len - 2` with i = 2b+1. */
  method Lf32BatchLoop(inLf: array<int>, inHf: array<Int16>, out: array<int>, len: nat, shift: nat, ePrev0: int)
    returns (b: nat, ePrev: int)
    requires 16 <= len && inLf.Length == (len + 1) / 2 && inHf.Length == len / 2 && len <= out.Length
    requires inLf != out
    requires Done(out, inLf[..], Scaled(inHf[..], shift), 1, 0)
    requires ePrev0 == EvenAt(inLf[..], Scaled(inHf[..], shift), 0)
    modifies out
    ensures 2 * b + 1 <= len - 1 && len < 2 * b + 19
    ensures Done(out, inLf[..], Scaled(inHf[..], shift), b + 1, b)
    ensures ePrev == EvenAt(inLf[..], Scaled(inHf[..], shift), b)
    ensures forall j :: 2 * b + 1 <= j < out.Length ==> out[j] == old(out[j])
  {
    ghost var L, H := inLf[..], Scaled(inHf[..], shift);
    b, ePrev := 0, ePrev0;
    var i := 1;
    while i + 16 <= len - 2
      invariant i == 2 * b + 1 && i <= len - 1
      invariant L == inLf[..] && Done(out, L, H, b + 1, b) && ePrev == EvenAt(L, H, b)
      invariant forall j :: i <= j < out.Length ==> out[j] == old(out[j])
    {
      ePrev := Lf32BatchStep(inLf, inHf, out, len, shift, b, ePrev, L, H);
      b, i := b + 8, i + 16;
    }
  }

  /** One pass of the 32-bit batch loop at pair b: LF coefficients b+1 ..
    * b+8 are loaded as they are, HF b .. b+8 widened and shifted. */
  method Lf32BatchStep(inLf: array<int>, inHf: array<Int16>, out: array<int>, len: nat, shift: nat, b: nat, ePrev: int, ghost L: seq<int>, ghost H: seq<int>)
    returns (eNext: int)
    requires inLf.Length == (len + 1) / 2 && inHf.Length == len / 2 && len <= out.Length
    requires 2 * b + 17 <= len - 2
    requires L == inLf[..] && H == Scaled(inHf[..], shift)
    requires Done(out, L, H, b + 1, b) && ePrev == EvenAt(L, H, b)
    modifies out
    ensures Done(out, L, H, b + 9, b + 8) && eNext == EvenAt(L, H, b + 8)
    ensures forall j :: 0 <= j < out.Length && !(2 * b + 1 <= j < 2 * b + 17) ==> out[j] == old(out[j])
  {
    var vLfLo, vLfHi := inLf[b + 1 .. b + 5], inLf[b + 5 .. b + 9];
    var hf, hNext := inHf[b .. b + 8], inHf[b + 8];
    assert hf == inHf[..][b .. b + 8];
    var r := BatchInverse(vLfLo, vLfHi, hf, hNext, ePrev, shift, L, inHf[..], b);
    assert r[2 * 7 + 1] == EvenAt(L, H, b + 8);
    PutBatch(out, L, H, b, r);
    eNext := r[15];
  }

  /** The remaining loop of the 32-bit variant, which takes the previous
    * even sample from `out[2b]` rather than a register. */
  method Lf32Remaining(inLf: array<int>, inHf: array<Int16>, out: array<int>, len: nat, shift: nat, b0: nat)
    returns (b: nat)
    requires 2 <= len && inLf.Length == (len + 1) / 2 && inHf.Length == len / 2 && len <= out.Length
    requires inLf != out
    requires 2 * b0 + 1 <= len - 1
    requires Done(out, inLf[..], Scaled(inHf[..], shift), b0 + 1, b0)
    modifies out
    ensures len - 2 <= 2 * b + 1 <= len - 1
    ensures Done(out, inLf[..], Scaled(inHf[..], shift), b + 1, b)
    ensures forall j :: 2 * b + 1 <= j < out.Length ==> out[j] == old(out[j])
  {
    ghost var L, H := inLf[..], Scaled(inHf[..], shift);
    var i;
    b, i := b0, 2 * b0 + 1;
    while i < len - 2
      invariant i == 2 * b + 1 && i <= len - 1
      invariant L == inLf[..] && Done(out, L, H, b + 1, b)
      invariant forall j :: i <= j < out.Length ==> out[j] == old(out[j])
    {
      var valLf := inLf[b + 1];
      var valHf0 := Shl(inHf[b], shift);
      var valHf1 := Shl(inHf[b + 1], shift);
      PutEven(out, L, H, b + 1, b + 1, b, valLf - (valHf0 + valHf1 + 2) / 4);
      PutOdd(out, L, H, b, b + 2, valHf0 + (out[2 * b] + out[2 * b + 2]) / 2);
      b, i := b + 1, i + 2;
    }
  }

}
