/** NEON registers as sequences of lanes, lane 0 first, and the intrinsics the
  * kernels use, each by its lane-wise integer meaning. Widening (`vmovl`) and
  * the choice of element width do not change a lane's value and are not
  * modelled separately. */
module Neon {
  import opened Arith

  /** `vdupq_n`: every one of the n lanes holds x. */
  function Dup(x: int, n: nat): seq<int>
  {
    seq(n, _ => x)
  }

  /** `vaddq`: lane-wise sum. */
  function Add(a: seq<int>, b: seq<int>): seq<int>
    requires |a| == |b|
  {
    seq(|a|, j requires 0 <= j < |a| => a[j] + b[j])
  }

  /** `vsubq`: lane-wise difference. */
  function Sub(a: seq<int>, b: seq<int>): seq<int>
    requires |a| == |b|
  {
    seq(|a|, j requires 0 <= j < |a| => a[j] - b[j])
  }

  /** `vshrq_n_s32`: arithmetic right shift of every lane by k. */
  function ShrN(a: seq<int>, k: nat): seq<int>
  {
    seq(|a|, j requires 0 <= j < |a| => a[j] / Pow2(k))
  }

  /** `vshlq_s32` by a non-negative shift vector: left shift of every lane by k. */
  function Shl(a: seq<int>, k: nat): seq<int>
  {
    seq(|a|, j requires 0 <= j < |a| => Arith.Shl(a[j], k))
  }

  /** `vextq(a, b, n)`: lanes n.. of a followed by the first n lanes of b. */
  function Ext(a: seq<int>, b: seq<int>, n: nat): (r: seq<int>)
    requires |a| == |b| && n <= |a|
    ensures |r| == |a|
    ensures forall j :: 0 <= j < |a| ==> r[j] == if n + j < |a| then a[n + j] else b[n + j - |a|]
  {
    (a + b)[n .. n + |a|]
  }

  /** `vsetq_lane`: v with lane j replaced by x. */
  function SetLane(v: seq<int>, x: int, j: nat): seq<int>
    requires j < |v|
  {
    v[j := x]
  }

  /** `vget_low`: the lower half of the lanes. */
  function Low(v: seq<int>): seq<int>
  {
    v[.. |v| / 2]
  }

  /** `vget_high`: the upper half of the lanes. */
  function High(v: seq<int>): seq<int>
  {
    v[|v| / 2 ..]
  }

  /** `vzipq_s32(a, b)`, its two result registers one after the other:
    * a[0], b[0], a[1], b[1], ..., a[3], b[3]. */
  function Zip(a: seq<int>, b: seq<int>): (z: seq<int>)
    requires |a| == 4 && |b| == 4
    ensures |z| == 8
    ensures forall j :: 0 <= j < 4 ==> z[2 * j] == a[j] && z[2 * j + 1] == b[j]
  {
    [a[0], b[0], a[1], b[1], a[2], b[2], a[3], b[3]]
  }

  /** `vld2q(p).val[0]`: the even-indexed elements of an interleaved window. */
  function EvenLanes(w: seq<int>): seq<int>
  {
    seq(|w| / 2, j requires 0 <= j < |w| / 2 => w[2 * j])
  }

  /** `vld2q(p).val[1]`: the odd-indexed elements of an interleaved window. */
  function OddLanes(w: seq<int>): seq<int>
  {
    seq(|w| / 2, j requires 0 <= j < |w| / 2 => w[2 * j + 1])
  }

  /** `vst1q(a + off, v)`: the lanes of v are written to a[off .. off + |v|]
    * and nothing else changes. */
  method Store<T>(a: array<T>, off: nat, v: seq<T>)
    requires off + |v| <= a.Length
    modifies a
    ensures forall k :: 0 <= k < a.Length ==>
      a[k] == (if off <= k < off + |v| then v[k - off] else old(a[k]))
  {
    for j := 0 to |v|
      invariant forall k :: 0 <= k < a.Length ==>
        a[k] == (if off <= k < off + j then v[k - off] else old(a[k]))
    {
      a[off + j] := v[j];
    }
  }

  /** The two `vst1q_u16` stores of a 16-lane block: lanes 0..7 at off,
    * lanes 8..15 at off + 8. */
  method StoreHalves<T>(a: array<T>, off: nat, r: seq<T>)
    requires |r| == 16 && off + 16 <= a.Length
    modifies a
    ensures forall k :: 0 <= k < a.Length ==> a[k] == if off <= k < off + 16 then r[k - off] else old(a[k])
  {
    Store(a, off, r[.. 8]);
    Store(a, off + 8, r[8 ..]);
  }

  /** `vcreate_u8` of each of four bytes repeated four times, then
    * `vcombine_u8`: lane j holds g[j / 4]. */
  function Spread4(g: seq<int>): (r: seq<int>)
    requires |g| == 4
    ensures |r| == 16
  {
    seq(16, j requires 0 <= j < 16 => g[j / 4])
  }

  /** `vcgtq_u8` against a duplicated x, widened (`vmovl_u8`) and multiplied
    * by 0x0101: all ones where a lane exceeds x, zero elsewhere. */
  function GreaterMask(a: seq<int>, x: int): (r: seq<int>)
    ensures |r| == |a|
  {
    seq(|a|, j requires 0 <= j < |a| => if a[j] > x then 0xFFFF else 0)
  }
}
