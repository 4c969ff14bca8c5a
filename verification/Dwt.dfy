/** Forward 5/3 wavelet transform of one line, the encoder kernel
  * `dwt_horizontal_line_neon`: a line of `len >= 2` samples is split into
  * ceil(len/2) low-pass (LF) and floor(len/2) high-pass (HF) coefficients. */
module Dwt {
  import opened Arith
  import opened Lifting
  import Neon

  /** HF coefficient k: odd sample 2k+1 predicted from its even neighbours; at
    * the right edge of an even-length line only the left neighbour exists
    * (this is also the whole transform when len == 2). */
  function HighPass(x: seq<int>, k: nat): int
    requires 2 * k + 1 < |x|
  {
    if 2 * k + 2 < |x| then PredictTwo(x[2 * k + 1], x[2 * k], x[2 * k + 2])
    else PredictOne(x[2 * k + 1], x[2 * k])
  }

  /** LF coefficient k: even sample 2k updated from the HF coefficients on
    * either side; the first one, and the last one of an odd-length line, have
    * a single HF neighbour. */
  function LowPass(x: seq<int>, k: nat): int
    requires 2 <= |x| && 2 * k < |x|
  {
    if k == 0 then UpdateOne(x[0], HighPass(x, 0))
    else if 2 * k + 1 < |x| then UpdateTwo(x[2 * k], HighPass(x, k - 1), HighPass(x, k))
    else UpdateOne(x[2 * k], HighPass(x, k - 1))
  }

  /** The HF band of line x: floor(|x|/2) coefficients. */
  function ForwardHf(x: seq<int>): seq<int>
    requires 2 <= |x|
  {
    seq(|x| / 2, k requires 0 <= k < |x| / 2 => HighPass(x, k))
  }

  /** The LF band of line x: ceil(|x|/2) coefficients. */
  function ForwardLf(x: seq<int>): seq<int>
    requires 2 <= |x|
  {
    seq((|x| + 1) / 2, k requires 0 <= k < (|x| + 1) / 2 => LowPass(x, k))
  }

  /** One pass of the 4-lane batch loop at `id`, HF half: `window` is
    * in[2id .. 2id+8) as `vld2q_s32` loads it and `nextEven` the lookahead
    * sample in[2id+8]. */
  function BatchHighPass(window: seq<int>, nextEven: int): seq<int>
    requires |window| == 8
  {
    var vEven := Neon.EvenLanes(window);
    var vOdd := Neon.OddLanes(window);
    var vEvenNext := Neon.SetLane(Neon.Ext(vEven, vEven, 1), nextEven, 3);
    Neon.Sub(vOdd, Neon.ShrN(Neon.Add(vEven, vEvenNext), 1))
  }

  /** One pass of the 4-lane batch loop, LF half: lane 0 takes its left HF
    * neighbour `prevHf` from the output buffer, the other lanes from the HF
    * register `vHf` just computed. */
  function BatchLowPass(window: seq<int>, vHf: seq<int>, prevHf: int): seq<int>
    requires |window| == 8 && |vHf| == 4
  {
    var vEven := Neon.EvenLanes(window);
    var vPrevVec := Neon.SetLane(Neon.Dup(prevHf, 4), prevHf, 3);
    var vHfPrev := Neon.Ext(vPrevVec, vHf, 3);
    Neon.Add(vEven, Neon.ShrN(Neon.Add(Neon.Add(vHfPrev, vHf), Neon.Dup(2, 4)), 2))
  }

  /** The batch loop computes, lane for lane, the coefficients the scalar
    * cleanup loop computes for id .. id+3, whenever the lookahead sample
    * in[2id+8] lies inside the line. */
  lemma BatchMatchesScalar(x: seq<int>, id: nat)
    requires 1 <= id && 2 * id + 8 < |x|
    ensures var hf := BatchHighPass(x[2 * id .. 2 * id + 8], x[2 * id + 8]);
      |hf| == 4 && (forall j :: 0 <= j < 4 ==> hf[j] == HighPass(x, id + j)) &&
      var lf := BatchLowPass(x[2 * id .. 2 * id + 8], hf, HighPass(x, id - 1));
      |lf| == 4 && forall j :: 0 <= j < 4 ==> lf[j] == LowPass(x, id + j)
  {
    var w := x[2 * id .. 2 * id + 8];
    var vEven, vOdd := Neon.EvenLanes(w), Neon.OddLanes(w);
    var vEvenNext := Neon.SetLane(Neon.Ext(vEven, vEven, 1), x[2 * id + 8], 3);
    assert Pow2(1) == 2 && Pow2(2) == 4;
    forall j | 0 <= j < 4
      ensures vEven[j] == x[2 * (id + j)] && vOdd[j] == x[2 * (id + j) + 1]
      ensures vEvenNext[j] == x[2 * (id + j) + 2]
    {
    }
    var hf := BatchHighPass(w, x[2 * id + 8]);
    assert hf == Neon.Sub(vOdd, Neon.ShrN(Neon.Add(vEven, vEvenNext), 1));
    forall j | 0 <= j < 4
      ensures hf[j] == HighPass(x, id + j)
    {
    }
    var prev := HighPass(x, id - 1);
    var vHfPrev := Neon.Ext(Neon.SetLane(Neon.Dup(prev, 4), prev, 3), hf, 3);
    forall j | 0 <= j < 4
      ensures vHfPrev[j] == HighPass(x, id + j - 1)
    {
    }
    var lf := BatchLowPass(w, hf, prev);
    assert lf == Neon.Add(vEven, Neon.ShrN(Neon.Add(Neon.Add(vHfPrev, hf), Neon.Dup(2, 4)), 2));
    forall j | 0 <= j < 4
      ensures lf[j] == LowPass(x, id + j)
    {
    }
  }

  /** Coefficients 0 .. n-1 of both bands already hold their transform values. */
  ghost predicate Written(outLf: array<int>, outHf: array<int>, x: seq<int>, n: nat)
    reads outLf, outHf
  {
    2 <= |x| && 2 * n <= |x| && n <= outLf.Length && n <= outHf.Length &&
    (forall k :: 0 <= k < n ==> outHf[k] == HighPass(x, k)) &&
    (forall k :: 0 <= k < n ==> outLf[k] == LowPass(x, k))
  }

  /** `dwt_horizontal_line_neon`: writes exactly out_lf[0 .. ceil(len/2)) and
    * out_hf[0 .. floor(len/2)), with the values of the 5/3 transform, whether
    * a coefficient comes from the len == 2 case, the first-sample case, the
    * 4-lane batch loop, the scalar cleanup loop or the closing case. The
    * input array holds exactly the len samples the call may read. */
  method DwtHorizontalLine(outLf: array<int>, outHf: array<int>, input: array<int>, len: nat)
    requires 2 <= len && input.Length == len
    requires (len + 1) / 2 <= outLf.Length && len / 2 <= outHf.Length
    requires outLf != outHf && input != outLf && input != outHf
    modifies outLf, outHf
    ensures outLf[.. (len + 1) / 2] == ForwardLf(input[..])
    ensures outHf[.. len / 2] == ForwardHf(input[..])
    ensures forall k :: (len + 1) / 2 <= k < outLf.Length ==> outLf[k] == old(outLf[k])
    ensures forall k :: len / 2 <= k < outHf.Length ==> outHf[k] == old(outHf[k])
  {
    ghost var x := input[..];
    if len == 2 {
      outHf[0] := input[1] - input[0];
      outLf[0] := input[0] + (outHf[0] + 1) / 2;
      assert outLf[.. 1] == ForwardLf(x);
      assert outHf[.. 1] == ForwardHf(x);
      return;
    }

    // first element
    outHf[0] := input[1] - (input[0] + input[2]) / 2;
    outLf[0] := input[0] + (outHf[0] + 1) / 2;
    assert Written(outLf, outHf, x, 1);

    var count := (len - 1) / 2;
    var id := 1;
    if count >= 5 {
      id := BatchLoop(outLf, outHf, input, count);
    }
    CleanupLoop(outLf, outHf, input, id, count);

    CloseLine(outLf, outHf, input);
  }

  /** The closing case of `dwt_horizontal_line_neon`, entered with the first
    * (len-1)/2 coefficients of both bands written: an even-length line adds
    * the last HF coefficient (one neighbour) and the LF coefficient beside it,
    * an odd-length line adds the last LF coefficient (one HF neighbour). */
  method CloseLine(outLf: array<int>, outHf: array<int>, input: array<int>)
    requires 3 <= input.Length
    requires (input.Length + 1) / 2 <= outLf.Length && input.Length / 2 <= outHf.Length
    requires outLf != outHf && input != outLf && input != outHf
    requires Written(outLf, outHf, input[..], (input.Length - 1) / 2)
    modifies outLf, outHf
    ensures outLf[.. (input.Length + 1) / 2] == ForwardLf(input[..])
    ensures outHf[.. input.Length / 2] == ForwardHf(input[..])
    ensures forall k :: (input.Length + 1) / 2 <= k < outLf.Length ==> outLf[k] == old(outLf[k])
    ensures forall k :: input.Length / 2 <= k < outHf.Length ==> outHf[k] == old(outHf[k])
  {
    ghost var x := input[..];
    var len := input.Length;
    var half := len / 2;
    if len % 2 == 0 {
      assert half - 1 == (len - 1) / 2 && 2 * (half - 1) + 2 == len;
      outHf[half - 1] := input[len - 1] - input[len - 2];
      assert outHf[half - 1] == HighPass(x, half - 1);
      assert outHf[half - 2] == HighPass(x, half - 2);
      outLf[half - 1] := input[len - 2] + (outHf[half - 2] + outHf[half - 1] + 2) / 4;
      assert outLf[half - 1] == LowPass(x, half - 1);
    } else {
      assert half == (len - 1) / 2 && 2 * half + 1 == len;
      assert outHf[half - 1] == HighPass(x, half - 1);
      outLf[half] := input[len - 1] + (outHf[half - 1] + 1) / 2;
      assert outLf[half] == LowPass(x, half);
    }
    assert Written(outLf, outHf, x, half);
    WrittenBands(outLf, outHf, x);
  }

  /** Once every HF coefficient is written, and for an odd-length line the last
    * LF coefficient as well, the output prefixes are exactly the two bands. */
  lemma WrittenBands(outLf: array<int>, outHf: array<int>, x: seq<int>)
    requires Written(outLf, outHf, x, |x| / 2) && (|x| + 1) / 2 <= outLf.Length
    requires |x| % 2 == 1 ==> outLf[|x| / 2] == LowPass(x, |x| / 2)
    ensures outLf[.. (|x| + 1) / 2] == ForwardLf(x)
    ensures outHf[.. |x| / 2] == ForwardHf(x)
  {
    assert forall k :: 0 <= k < (|x| + 1) / 2 ==> outLf[k] == LowPass(x, k);
  }

  /** The 4-lane batch loop of `dwt_horizontal_line_neon`, entered with
    * coefficient 0 written and count = (len-1)/2 >= 5; it stops at the first
    * id with id + 4 > count. */
  method BatchLoop(outLf: array<int>, outHf: array<int>, input: array<int>, count: nat) returns (id: nat)
    requires 5 <= count && count == (input.Length - 1) / 2
    requires outLf != outHf && input != outLf && input != outHf
    requires Written(outLf, outHf, input[..], 1) && count <= outLf.Length && count <= outHf.Length
    modifies outLf, outHf
    ensures 1 <= id <= count < id + 4
    ensures Written(outLf, outHf, input[..], id)
    ensures forall k :: id <= k < outHf.Length ==> outHf[k] == old(outHf[k])
    ensures forall k :: id <= k < outLf.Length ==> outLf[k] == old(outLf[k])
  {
    ghost var x := input[..];
    id := 1;
    while id + 4 <= count
      invariant 1 <= id <= count
      invariant Written(outLf, outHf, x, id)
      invariant forall k :: id <= k < outHf.Length ==> outHf[k] == old(outHf[k])
      invariant forall k :: id <= k < outLf.Length ==> outLf[k] == old(outLf[k])
    {
      var window := input[2 * id .. 2 * id + 8];
      var nextEven := input[(id + 4) * 2];
      BatchMatchesScalar(x, id);
      assert window == x[2 * id .. 2 * id + 8] && nextEven == x[2 * id + 8];
      var vHf := BatchHighPass(window, nextEven);
      Neon.Store(outHf, id, vHf);
      var prevHf := outHf[id - 1];
      var vLf := BatchLowPass(window, vHf, prevHf);
      Neon.Store(outLf, id, vLf);
      id := id + 4;
    }
  }

  /** The scalar cleanup loop of `dwt_horizontal_line_neon`: coefficients id ..
    * count-1, each HF from its two even neighbours and each LF from the HF
    * just written and the one before it, re-read from the output buffer. */
  method CleanupLoop(outLf: array<int>, outHf: array<int>, input: array<int>, id0: nat, count: nat)
    requires 1 <= id0 <= count && count == (input.Length - 1) / 2
    requires outLf != outHf && input != outLf && input != outHf
    requires Written(outLf, outHf, input[..], id0) && count <= outLf.Length && count <= outHf.Length
    modifies outLf, outHf
    ensures Written(outLf, outHf, input[..], count)
    ensures forall k :: count <= k < outHf.Length ==> outHf[k] == old(outHf[k])
    ensures forall k :: count <= k < outLf.Length ==> outLf[k] == old(outLf[k])
  {
    ghost var x := input[..];
    var id := id0;
    while id < count
      invariant id0 <= id <= count
      invariant Written(outLf, outHf, x, id)
      invariant forall k :: id <= k < outHf.Length ==> outHf[k] == old(outHf[k])
      invariant forall k :: id <= k < outLf.Length ==> outLf[k] == old(outLf[k])
    {
      outHf[id] := input[id * 2 + 1] - (input[id * 2] + input[id * 2 + 2]) / 2;
      outLf[id] := input[id * 2] + (outHf[id - 1] + outHf[id] + 2) / 4;
      id := id + 1;
    }
  }
}
