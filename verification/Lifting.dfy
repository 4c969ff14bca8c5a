/** The four steps of the reversible 5/3 lifting scheme (ISO/IEC 21122-1,
  * Annex E), forward and inverse. Every horizontal and vertical kernel is
  * built from these. `e` is an even (low-pass position) sample, `o` an odd
  * one, `h` a high-pass coefficient and `l` a low-pass coefficient; every
  * division is C's arithmetic right shift (floor). */
module Lifting {

  /** Forward predict: an odd sample minus the floor average of its two even
    * neighbours, `o - ((e0 + e1) >> 1)`. */
  function PredictTwo(o: int, e0: int, e1: int): int
  {
    o - (e0 + e1) / 2
  }

  /** Forward predict at the right edge of an even-length line, where only the
    * left even neighbour exists. */
  function PredictOne(o: int, e: int): int
  {
    o - e
  }

  /** Forward update with both high-pass neighbours, `e + ((h0 + h1 + 2) >> 2)`. */
  function UpdateTwo(e: int, h0: int, h1: int): int
  {
    e + (h0 + h1 + 2) / 4
  }

  /** Forward update with one high-pass neighbour, `e + ((h + 1) >> 1)`. */
  function UpdateOne(e: int, h: int): int
  {
    e + (h + 1) / 2
  }

  /** Inverse update with both neighbours: recovers the even sample. */
  function InverseUpdateTwo(l: int, h0: int, h1: int): (e: int)
    ensures UpdateTwo(e, h0, h1) == l
  {
    l - (h0 + h1 + 2) / 4
  }

  /** Inverse update with one neighbour: recovers the even sample. */
  function InverseUpdateOne(l: int, h: int): (e: int)
    ensures UpdateOne(e, h) == l
  {
    l - (h + 1) / 2
  }

  /** Inverse predict with both even neighbours: recovers the odd sample. */
  function InversePredictTwo(h: int, e0: int, e1: int): (o: int)
    ensures PredictTwo(o, e0, e1) == h
  {
    h + (e0 + e1) / 2
  }

  /** Inverse predict with the left neighbour only: recovers the odd sample. */
  function InversePredictOne(h: int, e: int): (o: int)
    ensures PredictOne(o, e) == h
  {
    h + e
  }
}
