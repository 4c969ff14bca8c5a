/** Vertical inverse 5/3 wavelet transform (ISO/IEC 21122-1, Annex E), the
  * decoder kernels `idwt_vertical_line_neon` and
  * `idwt_vertical_line_recalc_neon` with their scalar fallbacks. A call works
  * on len columns at once: `inLf` holds one low-pass row, `inHf0`/`inHf1` the
  * high-pass rows above and below it, and the four rows `out[0..3]` of the
  * output window are the previous even row (read only), the odd row above,
  * the new even row and the odd row below. Which rows are computed depends
  * on where the precinct lies in the component. */
module IdwtVertical {
  import opened Arith
  import opened Lifting
  import Neon
  import IdwtHorizontal

  /** The five cases of the vertical fallback. */
  datatype Case = TwoRows | FirstPrecinct | LastOddHeight | LastEvenHeight | Interior

  /** The case taken, tested in the order the kernel tests them: height 2,
    * then first precinct, then last precinct with odd and with even height. */
  function SelectCase(first: bool, last: bool, height: int): Case
  {
    if height == 2 then TwoRows
    else if first then FirstPrecinct
    else if last && height % 2 == 1 then LastOddHeight
    else if last then LastEvenHeight
    else Interior
  }

  /** The cases that read `inHf0` and the previous even row `out[0]` and
    * write the odd row `out[1]` above the new even row. */
  predicate UsesRowAbove(c: Case)
  {
    c.LastOddHeight? || c.LastEvenHeight? || c.Interior?
  }

  /** The cases that read `inHf1`. */
  predicate UsesHfBelow(c: Case)
  {
    !c.LastOddHeight?
  }

  /** The cases that write the odd row `out[3]` below the new even row. */
  predicate WritesRowBelow(c: Case)
  {
    c.TwoRows? || c.LastEvenHeight?
  }

  /** What the caller provides for case c: every row the case touches holds
    * len columns, the rows it writes are distinct from every row it reads,
    * and the rows `out[1]` and `out[3]` are distinct from the rows written
    * beside them, since the case either writes them or leaves them as they
    * are. Rows the case neither reads nor writes are unconstrained. */
  predicate Fits(c: Case, inLf: array<int>, inHf0: array<int>, inHf1: array<int>,
                 out0: array<int>, out1: array<int>, out2: array<int>, out3: array<int>, len: nat)
  {
    len <= inLf.Length && len <= out2.Length &&
    (UsesRowAbove(c) ==> len <= inHf0.Length && len <= out0.Length && len <= out1.Length) &&
    (UsesHfBelow(c) ==> len <= inHf1.Length) &&
    (WritesRowBelow(c) ==> len <= out3.Length) &&
    out1 != out2 && out2 != out3 && (UsesRowAbove(c) || WritesRowBelow(c) ==> out1 != out3) &&
    inLf != out2 && (UsesHfBelow(c) ==> inHf1 != out2) &&
    (UsesRowAbove(c) ==>
      inHf0 != out2 && out0 != out2 &&
      inLf != out1 && inHf0 != out1 && out0 != out1 && (UsesHfBelow(c) ==> inHf1 != out1)) &&
    (WritesRowBelow(c) ==>
      inLf != out3 && inHf1 != out3 && (UsesRowAbove(c) ==> inHf0 != out3 && out0 != out3))
  }

  /** The rows case c computes, column by column: the new even row from LF
    * and its HF neighbours (one neighbour at the top and at the bottom of an
    * odd-height component), the odd rows from HF and their even
    * neighbours. */
  ghost predicate Columns(c: Case, inLf: array<int>, inHf0: array<int>, inHf1: array<int>,
                          out0: array<int>, out1: array<int>, out2: array<int>, out3: array<int>, len: nat)
    reads inLf, inHf0, inHf1, out0, out1, out2, out3
    requires Fits(c, inLf, inHf0, inHf1, out0, out1, out2, out3, len)
  {
    match c
    case TwoRows =>
      forall i :: 0 <= i < len ==>
        out2[i] == InverseUpdateOne(inLf[i], inHf1[i]) && out3[i] == InversePredictOne(inHf1[i], out2[i])
    case FirstPrecinct =>
      forall i :: 0 <= i < len ==> out2[i] == InverseUpdateOne(inLf[i], inHf1[i])
    case LastOddHeight =>
      forall i :: 0 <= i < len ==>
        out2[i] == InverseUpdateOne(inLf[i], inHf0[i]) && out1[i] == InversePredictTwo(inHf0[i], out0[i], out2[i])
    case LastEvenHeight =>
      forall i :: 0 <= i < len ==>
        out2[i] == InverseUpdateTwo(inLf[i], inHf0[i], inHf1[i]) &&
        out1[i] == InversePredictTwo(inHf0[i], out0[i], out2[i]) && out3[i] == InversePredictOne(inHf1[i], out2[i])
    case Interior =>
      forall i :: 0 <= i < len ==>
        out2[i] == InverseUpdateTwo(inLf[i], inHf0[i], inHf1[i]) && out1[i] == InversePredictTwo(inHf0[i], out0[i], out2[i])
  }

  /** Along one column, with L its low-pass and H its high-pass coefficients,
    * the values each case computes at low-pass position k are the samples of
    * the one-dimensional inverse transform of that column: the new even row
    * is even sample k, the row above odd sample k-1 and the row below odd
    * sample k. The top (k = 0) is the height-2 and first-precinct case, the
    * bottom of an odd-height column (k = |H|) the last-precinct odd case,
    * the bottom of an even-height column (k = |H| - 1 = |L| - 1) the
    * last-precinct even case, and every other k the interior case. */
  lemma ColumnIsLineInverse(L: seq<int>, H: seq<int>, k: nat)
    requires IdwtHorizontal.Shape(L, H) && k < |L|
    ensures k == 0 ==> InverseUpdateOne(L[0], H[0]) == IdwtHorizontal.EvenAt(L, H, 0)
    ensures |L| == 1 ==> InversePredictOne(H[0], IdwtHorizontal.EvenAt(L, H, 0)) == IdwtHorizontal.OddAt(L, H, 0)
    ensures 1 <= k < |H| ==>
      InverseUpdateTwo(L[k], H[k - 1], H[k]) == IdwtHorizontal.EvenAt(L, H, k) &&
      InversePredictTwo(H[k - 1], IdwtHorizontal.EvenAt(L, H, k - 1), IdwtHorizontal.EvenAt(L, H, k)) == IdwtHorizontal.OddAt(L, H, k - 1)
    ensures k == |H| ==>
      InverseUpdateOne(L[k], H[k - 1]) == IdwtHorizontal.EvenAt(L, H, k) &&
      InversePredictTwo(H[k - 1], IdwtHorizontal.EvenAt(L, H, k - 1), IdwtHorizontal.EvenAt(L, H, k)) == IdwtHorizontal.OddAt(L, H, k - 1)
    ensures k + 1 == |H| == |L| ==>
      InversePredictOne(H[k], IdwtHorizontal.EvenAt(L, H, k)) == IdwtHorizontal.OddAt(L, H, k)
  {
  }

  // ---------------------------------------------------------------------
  // The scalar fallback, one loop per case

  /** Height 2: the even row from LF and the HF row below, then the odd row
    * below it. */
  method VerticalTwoRows(inLf: array<int>, inHf1: array<int>, out2: array<int>, out3: array<int>, len: nat)
    requires len <= inLf.Length && len <= inHf1.Length && len <= out2.Length && len <= out3.Length
    requires out2 != out3 && inLf != out2 && inLf != out3 && inHf1 != out2 && inHf1 != out3
    modifies out2, out3
    ensures forall i :: 0 <= i < len ==>
      out2[i] == InverseUpdateOne(inLf[i], inHf1[i]) && out3[i] == InversePredictOne(inHf1[i], out2[i])
    ensures forall i :: len <= i < out2.Length ==> out2[i] == old(out2[i])
    ensures forall i :: len <= i < out3.Length ==> out3[i] == old(out3[i])
  {
    for i := 0 to len
      invariant forall k :: 0 <= k < i ==>
        out2[k] == InverseUpdateOne(inLf[k], inHf1[k]) && out3[k] == InversePredictOne(inHf1[k], out2[k])
      invariant forall k :: i <= k < out2.Length ==> out2[k] == old(out2[k])
      invariant forall k :: i <= k < out3.Length ==> out3[k] == old(out3[k])
    {
      out2[i] := inLf[i] - (inHf1[i] + 1) / 2;
      out3[i] := inHf1[i] + out2[i];
    }
  }

  /** First precinct: only the even row, from LF and the HF row below. */
  method VerticalFirst(inLf: array<int>, inHf1: array<int>, out2: array<int>, len: nat)
    requires len <= inLf.Length && len <= inHf1.Length && len <= out2.Length
    requires inLf != out2 && inHf1 != out2
    modifies out2
    ensures forall i :: 0 <= i < len ==> out2[i] == InverseUpdateOne(inLf[i], inHf1[i])
    ensures forall i :: len <= i < out2.Length ==> out2[i] == old(out2[i])
  {
    for i := 0 to len
      invariant forall k :: 0 <= k < i ==> out2[k] == InverseUpdateOne(inLf[k], inHf1[k])
      invariant forall k :: i <= k < out2.Length ==> out2[k] == old(out2[k])
    {
      out2[i] := inLf[i] - (inHf1[i] + 1) / 2;
    }
  }

  /** Last precinct of an odd-height component: the even row from LF and the
    * HF row above only, then the odd row above it. */
  method VerticalLastOdd(inLf: array<int>, inHf0: array<int>, out0: array<int>, out1: array<int>, out2: array<int>, len: nat)
    requires len <= inLf.Length && len <= inHf0.Length && len <= out0.Length && len <= out1.Length && len <= out2.Length
    requires out1 != out2 && out0 != out1 && out0 != out2 && inLf != out1 && inLf != out2 && inHf0 != out1 && inHf0 != out2
    modifies out1, out2
    ensures forall i :: 0 <= i < len ==>
      out2[i] == InverseUpdateOne(inLf[i], inHf0[i]) && out1[i] == InversePredictTwo(inHf0[i], out0[i], out2[i])
    ensures forall i :: len <= i < out1.Length ==> out1[i] == old(out1[i])
    ensures forall i :: len <= i < out2.Length ==> out2[i] == old(out2[i])
  {
    for i := 0 to len
      invariant forall k :: 0 <= k < i ==>
        out2[k] == InverseUpdateOne(inLf[k], inHf0[k]) && out1[k] == InversePredictTwo(inHf0[k], out0[k], out2[k])
      invariant forall k :: i <= k < out1.Length ==> out1[k] == old(out1[k])
      invariant forall k :: i <= k < out2.Length ==> out2[k] == old(out2[k])
    {
      out2[i] := inLf[i] - (inHf0[i] + 1) / 2;
      out1[i] := inHf0[i] + (out0[i] + out2[i]) / 2;
    }
  }

  /** Last precinct of an even-height component: the even row from both HF
    * neighbours, the odd row above it, and the last odd row below it. */
  method VerticalLastEven(inLf: array<int>, inHf0: array<int>, inHf1: array<int>,
                          out0: array<int>, out1: array<int>, out2: array<int>, out3: array<int>, len: nat)
    requires Fits(LastEvenHeight, inLf, inHf0, inHf1, out0, out1, out2, out3, len)
    modifies out1, out2, out3
    ensures forall i :: 0 <= i < len ==>
      out2[i] == InverseUpdateTwo(inLf[i], inHf0[i], inHf1[i]) &&
      out1[i] == InversePredictTwo(inHf0[i], out0[i], out2[i]) && out3[i] == InversePredictOne(inHf1[i], out2[i])
    ensures forall i :: len <= i < out1.Length ==> out1[i] == old(out1[i])
    ensures forall i :: len <= i < out2.Length ==> out2[i] == old(out2[i])
    ensures forall i :: len <= i < out3.Length ==> out3[i] == old(out3[i])
  {
    for i := 0 to len
      invariant forall k :: 0 <= k < i ==>
        out2[k] == InverseUpdateTwo(inLf[k], inHf0[k], inHf1[k]) &&
        out1[k] == InversePredictTwo(inHf0[k], out0[k], out2[k]) && out3[k] == InversePredictOne(inHf1[k], out2[k])
      invariant forall k :: i <= k < out1.Length ==> out1[k] == old(out1[k])
      invariant forall k :: i <= k < out2.Length ==> out2[k] == old(out2[k])
      invariant forall k :: i <= k < out3.Length ==> out3[k] == old(out3[k])
    {
      out2[i] := inLf[i] - (inHf0[i] + inHf1[i] + 2) / 4;
      out1[i] := inHf0[i] + (out0[i] + out2[i]) / 2;
      out3[i] := inHf1[i] + out2[i];
    }
  }

  /** Interior precinct: the even row from both HF neighbours and the odd row
    * above it. */
  method VerticalInterior(inLf: array<int>, inHf0: array<int>, inHf1: array<int>,
                          out0: array<int>, out1: array<int>, out2: array<int>, len: nat)
    requires len <= inLf.Length && len <= inHf0.Length && len <= inHf1.Length
    requires len <= out0.Length && len <= out1.Length && len <= out2.Length
    requires out1 != out2 && out0 != out1 && out0 != out2
    requires inLf != out1 && inLf != out2 && inHf0 != out1 && inHf0 != out2 && inHf1 != out1 && inHf1 != out2
    modifies out1, out2
    ensures forall i :: 0 <= i < len ==>
      out2[i] == InverseUpdateTwo(inLf[i], inHf0[i], inHf1[i]) && out1[i] == InversePredictTwo(inHf0[i], out0[i], out2[i])
    ensures forall i :: len <= i < out1.Length ==> out1[i] == old(out1[i])
    ensures forall i :: len <= i < out2.Length ==> out2[i] == old(out2[i])
  {
    for i := 0 to len
      invariant forall k :: 0 <= k < i ==>
        out2[k] == InverseUpdateTwo(inLf[k], inHf0[k], inHf1[k]) && out1[k] == InversePredictTwo(inHf0[k], out0[k], out2[k])
      invariant forall k :: i <= k < out1.Length ==> out1[k] == old(out1[k])
      invariant forall k :: i <= k < out2.Length ==> out2[k] == old(out2[k])
    {
      out2[i] := inLf[i] - (inHf0[i] + inHf1[i] + 2) / 4;
      out1[i] := inHf0[i] + (out0[i] + out2[i]) / 2;
    }
  }

  /** `idwt_vertical_line_c_fallback`: the case's rows hold the case's
    * column formulas over [0, len); every other row, and every column from
    * len on, is unchanged. */
  method IdwtVerticalLineFallback(inLf: array<int>, inHf0: array<int>, inHf1: array<int>,
                                  out0: array<int>, out1: array<int>, out2: array<int>, out3: array<int>,
                                  len: nat, first: bool, last: bool, height: int)
    requires 2 <= len
    requires Fits(SelectCase(first, last, height), inLf, inHf0, inHf1, out0, out1, out2, out3, len)
    modifies out1, out2, out3
    ensures Columns(SelectCase(first, last, height), inLf, inHf0, inHf1, out0, out1, out2, out3, len)
    ensures forall i :: len <= i < out2.Length ==> out2[i] == old(out2[i])
    ensures UsesRowAbove(SelectCase(first, last, height)) ==> forall i :: len <= i < out1.Length ==> out1[i] == old(out1[i])
    ensures !UsesRowAbove(SelectCase(first, last, height)) ==> unchanged(out1)
    ensures WritesRowBelow(SelectCase(first, last, height)) ==> forall i :: len <= i < out3.Length ==> out3[i] == old(out3[i])
    ensures !WritesRowBelow(SelectCase(first, last, height)) ==> unchanged(out3)
  {
    if height == 2 {
      VerticalTwoRows(inLf, inHf1, out2, out3, len);
    } else if first {
      VerticalFirst(inLf, inHf1, out2, len);
    } else if last && height % 2 == 1 {
      VerticalLastOdd(inLf, inHf0, out0, out1, out2, len);
    } else if last {
      VerticalLastEven(inLf, inHf0, inHf1, out0, out1, out2, out3, len);
    } else {
      VerticalInterior(inLf, inHf0, inHf1, out0, out1, out2, len);
    }
  }

  // ---------------------------------------------------------------------
  // The NEON interior loop

  /** Four columns of the new even row, as the kernel computes them:
    * `vsubq(lf, vshrq_n(vaddq(vaddq(hf0, hf1), 2), 2))`. Lane j is the
    * two-neighbour inverse update of column j. */
  function BatchEvenRow(vLf: seq<int>, vHf0: seq<int>, vHf1: seq<int>): (r: seq<int>)
    requires |vLf| == 4 && |vHf0| == 4 && |vHf1| == 4
    ensures |r| == 4 && forall j :: 0 <= j < 4 ==> r[j] == InverseUpdateTwo(vLf[j], vHf0[j], vHf1[j])
  {
    var sum := Neon.Add(Neon.Add(vHf0, vHf1), Neon.Dup(2, 4));
    assert forall j :: 0 <= j < 4 ==> sum[j] == vHf0[j] + vHf1[j] + 2;
    assert Pow2(2) == 4;
    Neon.Sub(vLf, Neon.ShrN(sum, 2))
  }

  /** Four columns of the odd row above, `vaddq(hf0, vshrq_n(vaddq(out0,
    * out2), 1))`. Lane j is the two-neighbour inverse predict of column j. */
  function BatchOddRow(vHf0: seq<int>, vOut0: seq<int>, vOut2: seq<int>): (r: seq<int>)
    requires |vHf0| == 4 && |vOut0| == 4 && |vOut2| == 4
    ensures |r| == 4 && forall j :: 0 <= j < 4 ==> r[j] == InversePredictTwo(vHf0[j], vOut0[j], vOut2[j])
  {
    var sum := Neon.Add(vOut0, vOut2);
    assert forall j :: 0 <= j < 4 ==> sum[j] == vOut0[j] + vOut2[j];
    assert Pow2(1) == 2;
    Neon.Add(vHf0, Neon.ShrN(sum, 1))
  }

  /** The interior case by four columns at a time while four remain, then
    * column by column. */
  method VerticalInteriorNeon(inLf: array<int>, inHf0: array<int>, inHf1: array<int>,
                              out0: array<int>, out1: array<int>, out2: array<int>, len: nat)
    requires len <= inLf.Length && len <= inHf0.Length && len <= inHf1.Length
    requires len <= out0.Length && len <= out1.Length && len <= out2.Length
    requires out1 != out2 && out0 != out1 && out0 != out2
    requires inLf != out1 && inLf != out2 && inHf0 != out1 && inHf0 != out2 && inHf1 != out1 && inHf1 != out2
    modifies out1, out2
    ensures forall i :: 0 <= i < len ==>
      out2[i] == InverseUpdateTwo(inLf[i], inHf0[i], inHf1[i]) && out1[i] == InversePredictTwo(inHf0[i], out0[i], out2[i])
    ensures forall i :: len <= i < out1.Length ==> out1[i] == old(out1[i])
    ensures forall i :: len <= i < out2.Length ==> out2[i] == old(out2[i])
  {
    var i := 0;
    while i + 4 <= len
      invariant i <= len
      invariant forall k :: 0 <= k < i ==>
        out2[k] == InverseUpdateTwo(inLf[k], inHf0[k], inHf1[k]) && out1[k] == InversePredictTwo(inHf0[k], out0[k], out2[k])
      invariant forall k :: i <= k < out1.Length ==> out1[k] == old(out1[k])
      invariant forall k :: i <= k < out2.Length ==> out2[k] == old(out2[k])
    {
      var vOut2 := BatchEvenRow(inLf[i .. i + 4], inHf0[i .. i + 4], inHf1[i .. i + 4]);
      var vOut1 := BatchOddRow(inHf0[i .. i + 4], out0[i .. i + 4], vOut2);
      Neon.Store(out2, i, vOut2);
      Neon.Store(out1, i, vOut1);
      i := i + 4;
    }
    while i < len
      invariant i <= len
      invariant forall k :: 0 <= k < i ==>
        out2[k] == InverseUpdateTwo(inLf[k], inHf0[k], inHf1[k]) && out1[k] == InversePredictTwo(inHf0[k], out0[k], out2[k])
      invariant forall k :: i <= k < out1.Length ==> out1[k] == old(out1[k])
      invariant forall k :: i <= k < out2.Length ==> out2[k] == old(out2[k])
    {
      out2[i] := inLf[i] - (inHf0[i] + inHf1[i] + 2) / 4;
      out1[i] := inHf0[i] + (out0[i] + out2[i]) / 2;
      i := i + 1;
    }
  }

  /** `idwt_vertical_line_neon`: the fallback for the first and last
    * precincts, for height 2 and for lines shorter than 16; the batched
    * interior loop otherwise. Its contract is the fallback's, so the two
    * kernels compute the same rows for every input. */
  method IdwtVerticalLine(inLf: array<int>, inHf0: array<int>, inHf1: array<int>,
                          out0: array<int>, out1: array<int>, out2: array<int>, out3: array<int>,
                          len: nat, first: bool, last: bool, height: int)
    requires 2 <= len
    requires Fits(SelectCase(first, last, height), inLf, inHf0, inHf1, out0, out1, out2, out3, len)
    modifies out1, out2, out3
    ensures Columns(SelectCase(first, last, height), inLf, inHf0, inHf1, out0, out1, out2, out3, len)
    ensures forall i :: len <= i < out2.Length ==> out2[i] == old(out2[i])
    ensures UsesRowAbove(SelectCase(first, last, height)) ==> forall i :: len <= i < out1.Length ==> out1[i] == old(out1[i])
    ensures !UsesRowAbove(SelectCase(first, last, height)) ==> unchanged(out1)
    ensures WritesRowBelow(SelectCase(first, last, height)) ==> forall i :: len <= i < out3.Length ==> out3[i] == old(out3[i])
    ensures !WritesRowBelow(SelectCase(first, last, height)) ==> unchanged(out3)
  {
    if first || last || height == 2 || len < 16 {
      IdwtVerticalLineFallback(inLf, inHf0, inHf1, out0, out1, out2, out3, len, first, last, height);
      return;
    }
    VerticalInteriorNeon(inLf, inHf0, inHf1, out0, out1, out2, len);
  }

  // ---------------------------------------------------------------------
  // Recalculation of the even row

  /** The even row `idwt_vertical_line_recalc` writes into `out[0]`: both HF
    * neighbours past the first two lines of the precinct, the HF row below
    * only otherwise. */
  ghost predicate Recalculated(inLf: array<int>, inHf0: array<int>, inHf1: array<int>, out0: array<int>, len: nat, lineIdx: nat)
    reads inLf, inHf0, inHf1, out0
    requires len <= inLf.Length && len <= inHf1.Length && len <= out0.Length && (lineIdx > 1 ==> len <= inHf0.Length)
  {
    forall i :: 0 <= i < len ==>
      out0[i] == if lineIdx > 1 then InverseUpdateTwo(inLf[i], inHf0[i], inHf1[i]) else InverseUpdateOne(inLf[i], inHf1[i])
  }

  /** `idwt_vertical_line_recalc_c_fallback`. */
  method IdwtVerticalRecalcFallback(inLf: array<int>, inHf0: array<int>, inHf1: array<int>, out0: array<int>, len: nat, lineIdx: nat)
    requires 2 <= len
    requires len <= inLf.Length && len <= inHf1.Length && len <= out0.Length && (lineIdx > 1 ==> len <= inHf0.Length)
    requires inLf != out0 && inHf1 != out0 && (lineIdx > 1 ==> inHf0 != out0)
    modifies out0
    ensures Recalculated(inLf, inHf0, inHf1, out0, len, lineIdx)
    ensures forall i :: len <= i < out0.Length ==> out0[i] == old(out0[i])
  {
    if lineIdx > 1 {
      for i := 0 to len
        invariant forall k :: 0 <= k < i ==> out0[k] == InverseUpdateTwo(inLf[k], inHf0[k], inHf1[k])
        invariant forall k :: i <= k < out0.Length ==> out0[k] == old(out0[k])
      {
        out0[i] := inLf[i] - (inHf0[i] + inHf1[i] + 2) / 4;
      }
    } else {
      for i := 0 to len
        invariant forall k :: 0 <= k < i ==> out0[k] == InverseUpdateOne(inLf[k], inHf1[k])
        invariant forall k :: i <= k < out0.Length ==> out0[k] == old(out0[k])
      {
        out0[i] := inLf[i] - (inHf1[i] + 1) / 2;
      }
    }
  }

  /** Four columns of the one-neighbour update, `vsubq(lf, vshrq_n(vaddq(hf1,
    * 1), 1))`. */
  function BatchEvenRowOne(vLf: seq<int>, vHf1: seq<int>): (r: seq<int>)
    requires |vLf| == 4 && |vHf1| == 4
    ensures |r| == 4 && forall j :: 0 <= j < 4 ==> r[j] == InverseUpdateOne(vLf[j], vHf1[j])
  {
    var sum := Neon.Add(vHf1, Neon.Dup(1, 4));
    assert forall j :: 0 <= j < 4 ==> sum[j] == vHf1[j] + 1;
    assert Pow2(1) == 2;
    Neon.Sub(vLf, Neon.ShrN(sum, 1))
  }

  /** `idwt_vertical_line_recalc_neon`: the fallback below 16 columns,
    * otherwise four columns at a time and then column by column, in either
    * branch. Its contract is the fallback's. */
  method IdwtVerticalRecalc(inLf: array<int>, inHf0: array<int>, inHf1: array<int>, out0: array<int>, len: nat, lineIdx: nat)
    requires 2 <= len
    requires len <= inLf.Length && len <= inHf1.Length && len <= out0.Length && (lineIdx > 1 ==> len <= inHf0.Length)
    requires inLf != out0 && inHf1 != out0 && (lineIdx > 1 ==> inHf0 != out0)
    modifies out0
    ensures Recalculated(inLf, inHf0, inHf1, out0, len, lineIdx)
    ensures forall i :: len <= i < out0.Length ==> out0[i] == old(out0[i])
  {
    if len < 16 {
      IdwtVerticalRecalcFallback(inLf, inHf0, inHf1, out0, len, lineIdx);
      return;
    }
    var i := 0;
    if lineIdx > 1 {
      while i + 4 <= len
        invariant i <= len
        invariant forall k :: 0 <= k < i ==> out0[k] == InverseUpdateTwo(inLf[k], inHf0[k], inHf1[k])
        invariant forall k :: i <= k < out0.Length ==> out0[k] == old(out0[k])
      {
        Neon.Store(out0, i, BatchEvenRow(inLf[i .. i + 4], inHf0[i .. i + 4], inHf1[i .. i + 4]));
        i := i + 4;
      }
      while i < len
        invariant i <= len
        invariant forall k :: 0 <= k < i ==> out0[k] == InverseUpdateTwo(inLf[k], inHf0[k], inHf1[k])
        invariant forall k :: i <= k < out0.Length ==> out0[k] == old(out0[k])
      {
        out0[i] := inLf[i] - (inHf0[i] + inHf1[i] + 2) / 4;
        i := i + 1;
      }
    } else {
      while i + 4 <= len
        invariant i <= len
        invariant forall k :: 0 <= k < i ==> out0[k] == InverseUpdateOne(inLf[k], inHf1[k])
        invariant forall k :: i <= k < out0.Length ==> out0[k] == old(out0[k])
      {
        Neon.Store(out0, i, BatchEvenRowOne(inLf[i .. i + 4], inHf1[i .. i + 4]));
        i := i + 4;
      }
      while i < len
        invariant i <= len
        invariant forall k :: 0 <= k < i ==> out0[k] == InverseUpdateOne(inLf[k], inHf1[k])
        invariant forall k :: i <= k < out0.Length ==> out0[k] == old(out0[k])
      {
        out0[i] := inLf[i] - (inHf1[i] + 1) / 2;
        i := i + 1;
      }
    }
  }
}
