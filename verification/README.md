# JPEG XS NEON kernels in Dafny

A model of the four integer kernel families of the SVT-JPEG-XS codec's
NEON back end (ISO/IEC 21122-1), with proofs that each vectorised path
computes what its scalar loop computes:

- **Forward 5/3 wavelet, one line** (`dwt_horizontal_line_neon`). The
  method `Dwt.DwtHorizontalLine` writes exactly the ceil(len/2) low-pass
  and floor(len/2) high-pass coefficients of the lifting scheme. The 4-lane
  batch loop is proved lane for lane against the scalar formulas.
- **Inverse 5/3 wavelet, horizontal**. Both input widths are modelled:
  16-bit LF shifted and 32-bit LF unshifted. Each NEON kernel (8-lane batch,
  carried `E_prev`, remaining loop, close) and its scalar fallback is
  proved to leave `out[0..len)` equal to one reconstruction function.
  Forward and inverse transforms are proved to be exact inverses in both
  directions.
- **Inverse 5/3 wavelet, vertical**. The five precinct cases (height 2,
  first precinct, last precinct with odd or even height, interior), the
  4-lane interior loop and the `recalc` pass are modelled. Each column
  formula is tied to the one-dimensional inverse transform of that column.
- **Group quantizer and dequantizer**. Both work in place on 16-bit
  sign-magnitude words, with deadzone and uniform policies. The 16-wide
  NEON pass over groups of four is modelled with its exact shift-count and
  byte-comparison semantics. The quantizer's vector lanes are proved equal
  to its scalar loop for every gtli up to 240. For gtli 241 to 254 a lemma
  exhibits inputs where the two differ. The dequantizer's two paths are
  proved to agree on every gcli below 128, and an input from 128 up where
  they differ is exhibited. Also proved:
  - canonical zero in both policies;
  - deadzone idempotence in both policies;
  - the deadzone quantize/dequantize round-trip error bound;
  - no-overflow bounds for the uniform policy.

Arithmetic follows the C code:
- `x >> k` on a signed value is floor division by 2^k;
- `x << k` is `Arith.Shl`, proved equal to `x * 2^k`;
- stores into `uint16_t` are written as `% 0x10000`;
- `int8_t` reads of a gcli byte are `Words.AsInt8`;
- `vshlq_u16` takes its count from the low byte of the lane, read as
  signed (`Words.ShiftCount`).

Files, one module each:
- `Arith.dfy`: powers of two and division facts.
- `Words.dfy`: 16-bit words, bits and gcli groups.
- `Neon.dfy`: lane-wise intrinsics.
- `Lifting.dfy`: the four lifting steps and their inverses.
- `Dwt.dfy`, `IdwtHorizontal.dfy`, `IdwtVertical.dfy`, `Quant.dfy` and `Dequant.dfy`: the kernels.

## Model

| member | source | states |
|---|---|---|
| Lifting.InverseUpdateOne | Source/Lib/Decoder/ASM_NEON/Idwt_neon.c:13 | the one-neighbour even formula `L - ((H + 1) >> 1)` undoes the forward update `e + ((h + 1) >> 1)` |
| Lifting.InverseUpdateTwo | Source/Lib/Decoder/ASM_NEON/Idwt_neon.c:16 | the two-neighbour even formula `L - ((H0 + H1 + 2) >> 2)` undoes the forward update |
| Lifting.InversePredictTwo | Source/Lib/Decoder/ASM_NEON/Idwt_neon.c:17 | the odd formula `H + ((E0 + E1) >> 1)` undoes the forward predict |
| Lifting.InversePredictOne | Source/Lib/Decoder/ASM_NEON/Idwt_neon.c:27 | the last odd formula `H + E` of an even-length line undoes the one-neighbour predict |
| Dwt.BatchMatchesScalar | Source/Lib/Encoder/ASM_NEON/Dwt_neon.c:29-107 | whenever the lookahead `in[2id+8]` is inside the line, every lane of the 4-lane HF and LF registers is the coefficient the scalar cleanup formula gives at id+j |
| Dwt.DwtHorizontalLine | Source/Lib/Encoder/ASM_NEON/Dwt_neon.c:10-124 | for `len >= 2`, `out_lf[0..ceil(len/2))` and `out_hf[0..floor(len/2))` are exactly the two forward bands; nothing beyond them is written |
| Dwt.BatchLoop | Source/Lib/Encoder/ASM_NEON/Dwt_neon.c:29-108 | the batch loop stops at the first id with id + 4 > count, leaving coefficients 0 .. id-1 of both bands correct and the rest untouched |
| Dwt.CleanupLoop | Source/Lib/Encoder/ASM_NEON/Dwt_neon.c:110-114 | from any starting id, the scalar loop leaves coefficients 0 .. count-1 of both bands correct, reading the previous HF back from `out_hf` |
| Dwt.CloseLine | Source/Lib/Encoder/ASM_NEON/Dwt_neon.c:116-123 | the even-length close (last HF from one neighbour, LF beside it from both) or odd-length close (last LF from one HF) completes both bands |
| Dwt.WrittenBands | Source/Lib/Encoder/ASM_NEON/Dwt_neon.c:116-123 | once every HF coefficient, and for odd len the last LF, is written, the output prefixes equal the bands |
| IdwtHorizontal.RoundTripEven | Source/Lib/Decoder/ASM_NEON/Idwt_neon.c:13-16 | the inverse even formula applied to the forward bands of a line gives back even sample 2k, at the edges too |
| IdwtHorizontal.RoundTripOdd | Source/Lib/Decoder/ASM_NEON/Idwt_neon.c:17-27 | the inverse odd formula applied to the forward bands gives back odd sample 2k+1 |
| IdwtHorizontal.RoundTripAt | Source/Lib/Encoder/ASM_NEON/Dwt_neon.c:10-124 | sample j of the reconstruction of a forward-transformed line is the original sample j |
| IdwtHorizontal.RoundTrip | Source/Lib/Encoder/ASM_NEON/Dwt_neon.c:10-124 | reconstructing the two forward bands of any line of at least two samples gives back the line exactly |
| IdwtHorizontal.ForwardThenLf32 | Source/Lib/Decoder/ASM_NEON/Idwt_neon.c:149-168 | the encoder's bands, given to the 32-bit-LF inverse with shift 0, reproduce the input line |
| IdwtHorizontal.InverseRoundTripHf | Source/Lib/Encoder/ASM_NEON/Dwt_neon.c:112-118 | the forward predict of a reconstructed line gives back HF coefficient k |
| IdwtHorizontal.InverseRoundTripLf | Source/Lib/Encoder/ASM_NEON/Dwt_neon.c:113-122 | the forward update of a reconstructed line gives back LF coefficient k |
| IdwtHorizontal.InverseRoundTrip | Source/Lib/Encoder/ASM_NEON/Dwt_neon.c:10-124 | the forward transform of the reconstruction of any pair of bands of matching lengths is that pair; with RoundTrip, the two transforms are mutually inverse |
| IdwtHorizontal.EvenLanesMatch | Source/Lib/Decoder/ASM_NEON/Idwt_neon.c:70-79 | the 4-lane even computation fed LF c+j and HF c-1+j, c+j yields even samples c .. c+3 |
| IdwtHorizontal.OddLanesMatch | Source/Lib/Decoder/ASM_NEON/Idwt_neon.c:81-93 | the 4-lane odd computation fed HF c+j and even samples c+j, c+1+j yields odd samples c .. c+3 |
| IdwtHorizontal.BatchHfLanes | Source/Lib/Decoder/ASM_NEON/Idwt_neon.c:56-68 | the widened, shifted current-HF registers hold HF b .. b+7, and the registers built by `vextq_s16`/`vsetq_lane_s16` hold HF b+1 .. b+8 |
| IdwtHorizontal.LfLanes | Source/Lib/Decoder/ASM_NEON/Idwt_neon.c:51-54 | the two halves of the 16-bit LF load, widened and shifted, hold scaled LF c .. c+3 and c+4 .. c+7 |
| IdwtHorizontal.BatchEvens | Source/Lib/Decoder/ASM_NEON/Idwt_neon.c:56-79 | `v_E_lo`/`v_E_hi` are even samples b+1 .. b+8 |
| IdwtHorizontal.BatchOdds | Source/Lib/Decoder/ASM_NEON/Idwt_neon.c:81-93 | `v_O_lo`/`v_O_hi`, built from the carried `E_prev` and the even registers, are odd samples b .. b+7 |
| IdwtHorizontal.BatchInverse | Source/Lib/Decoder/ASM_NEON/Idwt_neon.c:51-108 | the 16 zipped lanes of one batch are output samples 2b+1 .. 2b+16 (odd b+j in lane 2j, even b+1+j in lane 2j+1), so lane 15, the next `E_prev`, is even sample b+8 |
| IdwtHorizontal.PutBatch | Source/Lib/Decoder/ASM_NEON/Idwt_neon.c:95-102 | the four `vst1q_s32` stores put samples 2b+1 .. 2b+16 in place and touch nothing else |
| IdwtHorizontal.IdwtHorizontalLf16Fallback | Source/Lib/Decoder/ASM_NEON/Idwt_neon.c:10-29 | `out[0..len)` is the reconstruction of the shifted bands; nothing beyond len is written |
| IdwtHorizontal.Lf16FallbackPairs | Source/Lib/Decoder/ASM_NEON/Idwt_neon.c:15-21 | the pair loop leaves even samples 0 .. k and odd samples 0 .. k-1 in place, stopping with 2k+1 in {len-2, len-1} |
| IdwtHorizontal.Lf16Pair | Source/Lib/Decoder/ASM_NEON/Idwt_neon.c:16-17 | one pass writes even sample k+1, then odd sample k from the two even samples read back from `out` |
| IdwtHorizontal.Lf16FallbackClose | Source/Lib/Decoder/ASM_NEON/Idwt_neon.c:22-28 | the odd-length close (last even from one HF, then the odd before it) or even-length close (`H + out[0]`) completes the reconstruction |
| IdwtHorizontal.IdwtHorizontalLf16 | Source/Lib/Decoder/ASM_NEON/Idwt_neon.c:31-147 | for every len >= 2, `out[0..len)` is the same reconstruction as the fallback's and nothing beyond len is written |
| IdwtHorizontal.Lf16BatchLoop | Source/Lib/Decoder/ASM_NEON/Idwt_neon.c:50-109 | the batch loop keeps `E_prev` equal to even sample b and the samples before 2b+1 in place; it stops within 18 samples of the end |
| IdwtHorizontal.Lf16BatchStep | Source/Lib/Decoder/ASM_NEON/Idwt_neon.c:51-108 | one pass puts samples 2b+1 .. 2b+16 in place and returns even sample b+8 as the next `E_prev` |
| IdwtHorizontal.Lf16Remaining | Source/Lib/Decoder/ASM_NEON/Idwt_neon.c:111-129 | the remaining loop keeps `E_prev` equal to even sample b and the samples before 2b+1 in place |
| IdwtHorizontal.Lf16Close | Source/Lib/Decoder/ASM_NEON/Idwt_neon.c:131-146 | writing `E_prev` and then the odd- or even-length close completes the reconstruction |
| IdwtHorizontal.IdwtHorizontalLf32Fallback | Source/Lib/Decoder/ASM_NEON/Idwt_neon.c:149-168 | `out[0..len)` is the reconstruction of the unshifted LF and shifted HF bands |
| IdwtHorizontal.Lf32FallbackPairs | Source/Lib/Decoder/ASM_NEON/Idwt_neon.c:154-160 | as Lf16FallbackPairs, with LF read as it is |
| IdwtHorizontal.Lf32Pair | Source/Lib/Decoder/ASM_NEON/Idwt_neon.c:155-156 | one pass writes even sample k+1, then odd sample k |
| IdwtHorizontal.Lf32Tail | Source/Lib/Decoder/ASM_NEON/Idwt_neon.c:161-167 | the close, identical in the fallback and at lines 265-275 of the vector kernel, completes the reconstruction reading the even samples back from `out` |
| IdwtHorizontal.IdwtHorizontalLf32 | Source/Lib/Decoder/ASM_NEON/Idwt_neon.c:170-276 | for every len >= 2, `out[0..len)` is the same reconstruction as the fallback's |
| IdwtHorizontal.Lf32BatchLoop | Source/Lib/Decoder/ASM_NEON/Idwt_neon.c:189-249 | the batch loop keeps `E_prev` equal to even sample b and the samples before 2b+1 in place |
| IdwtHorizontal.Lf32BatchStep | Source/Lib/Decoder/ASM_NEON/Idwt_neon.c:190-248 | one pass puts samples 2b+1 .. 2b+16 in place and returns even sample b+8 |
| IdwtHorizontal.Lf32Remaining | Source/Lib/Decoder/ASM_NEON/Idwt_neon.c:251-263 | the remaining loop, re-reading `out_ptr[0]`, keeps the samples before 2b+1 in place |
| IdwtVertical.ColumnIsLineInverse | Source/Lib/Decoder/ASM_NEON/Idwt_neon.c:282-354 | along a column, each case's formulas are the samples of the one-dimensional inverse transform: the top case, the bottom cases for odd and even heights, and the interior |
| IdwtVertical.VerticalTwoRows | Source/Lib/Decoder/ASM_NEON/Idwt_neon.c:282-294 | height 2: `out[2]` is the one-neighbour update from the HF row below, `out[3]` the odd row below it |
| IdwtVertical.VerticalFirst | Source/Lib/Decoder/ASM_NEON/Idwt_neon.c:296-305 | first precinct: only `out[2]`, from the HF row below |
| IdwtVertical.VerticalLastOdd | Source/Lib/Decoder/ASM_NEON/Idwt_neon.c:307-321 | last precinct, odd height: `out[2]` from the HF row above only, then `out[1]` |
| IdwtVertical.VerticalLastEven | Source/Lib/Decoder/ASM_NEON/Idwt_neon.c:323-341 | last precinct, even height: `out[2]` from both HF rows, `out[1]` above it and `out[3]` below it |
| IdwtVertical.VerticalInterior | Source/Lib/Decoder/ASM_NEON/Idwt_neon.c:342-354 | interior: `out[2]` from both HF rows and `out[1]` above it |
| IdwtVertical.IdwtVerticalLineFallback | Source/Lib/Decoder/ASM_NEON/Idwt_neon.c:278-355 | the case is chosen in the kernel's priority order; the case's rows hold its column formulas on [0, len); rows it does not write are unchanged, and `out[0]` is never written |
| IdwtVertical.BatchEvenRow | Source/Lib/Decoder/ASM_NEON/Idwt_neon.c:377-381 | each of the four lanes is the two-neighbour inverse update of its column |
| IdwtVertical.BatchOddRow | Source/Lib/Decoder/ASM_NEON/Idwt_neon.c:383-386 | each of the four lanes is the two-neighbour inverse predict of its column |
| IdwtVertical.VerticalInteriorNeon | Source/Lib/Decoder/ASM_NEON/Idwt_neon.c:364-396 | the 4-lane loop and tail produce the interior case's rows for every len |
| IdwtVertical.IdwtVerticalLine | Source/Lib/Decoder/ASM_NEON/Idwt_neon.c:357-397 | the NEON kernel has the fallback's contract: same rows, same values, for every input |
| IdwtVertical.IdwtVerticalRecalcFallback | Source/Lib/Decoder/ASM_NEON/Idwt_neon.c:399-421 | only `out[0][0..len)` changes: the two-neighbour update past line 1 of the precinct, the one-neighbour update from the HF row below otherwise |
| IdwtVertical.BatchEvenRowOne | Source/Lib/Decoder/ASM_NEON/Idwt_neon.c:451-457 | each of the four lanes is the one-neighbour inverse update of its column |
| IdwtVertical.IdwtVerticalRecalc | Source/Lib/Decoder/ASM_NEON/Idwt_neon.c:423-465 | the NEON recalc has the fallback's contract in both branches for every len |
| Words.Compose | Source/Lib/Encoder/ASM_NEON/Quant_neon.c:109-113 | a sign and a 15-bit magnitude make a word with exactly that sign and magnitude |
| Words.OrSign | Source/Lib/Encoder/ASM_NEON/Quant_neon.c:111-113 | `v \| sign` keeps the magnitude and sets the sign bit exactly when it was set or the sign is ORed in |
| Words.OrBit | Source/Lib/Decoder/ASM_NEON/Dequant_neon.c:64 | `w \| (1 << b)` kept to 16 bits has bit b set (b < 16) and is not below w |
| Words.OrBitKeepsSign | Source/Lib/Decoder/ASM_NEON/Dequant_neon.c:64 | ORing any bit other than bit 15 leaves the sign alone |
| Words.OrBitMagnitude | Source/Lib/Decoder/ASM_NEON/Dequant_neon.c:64 | ORing bit b < 15 adds 2^b to the magnitude when that bit was clear and nothing otherwise |
| Words.AsInt8 | Source/Lib/Decoder/ASM_NEON/Dequant_neon.c:62 | a byte read as `int8_t` is itself below 128 and negative from 128 on |
| Words.VectorEnd | Source/Lib/Encoder/ASM_NEON/Quant_neon.c:12-19 | the 16-wide pass covers a multiple of 16 not above size, and with groups of four leaves fewer than 16 coefficients to the scalar loop |
| Words.LaneGroup | Source/Lib/Encoder/ASM_NEON/Quant_neon.c:30-37 | lane j of the block at a multiple i of 16 belongs to group i/4 + j/4 |
| Words.SpreadIndex | Source/Lib/Encoder/ASM_NEON/Quant_neon.c:30-50 | the four gclis loaded at `i / 4`, spread four per lane, give each lane the gcli of its own coefficient |
| Quant.TruncateMagnitude | Source/Lib/Encoder/ASM_NEON/Quant_neon.c:110 | `(m >> gtli) << gtli` is the largest multiple of 2^gtli not above m |
| Quant.QuantDeadzoneWord | Source/Lib/Encoder/ASM_NEON/Quant_neon.c:106-118 | zero when gcli <= gtli; otherwise the magnitude is the multiple of 2^gtli in (m - 2^gtli, m], a zero magnitude has no sign, and a nonzero result keeps the input's sign |
| Quant.DeadzoneIdempotent | Source/Lib/Encoder/ASM_NEON/Quant_neon.c:106-118 | quantizing an already quantized word again with the same gcli and gtli changes nothing |
| Quant.DeadzoneLosslessAtZero | Source/Lib/Encoder/ASM_NEON/Quant_neon.c:106-118 | at gtli = 0 a group with gcli > 0 keeps every word whose zero is canonical |
| Quant.ShiftCountNegated | Source/Lib/Encoder/ASM_NEON/Quant_neon.c:16 | for gtli <= 128 the low byte of `-(int16_t)gtli`, read as signed, is -gtli |
| Quant.VShlRight | Source/Lib/Encoder/ASM_NEON/Quant_neon.c:75 | `vshlq_u16` by a negative count is a right shift |
| Quant.VShlLeft | Source/Lib/Encoder/ASM_NEON/Quant_neon.c:76 | `vshlq_u16` by a count below 128 whose result fits in 16 bits is an exact left shift |
| Quant.ShiftBack | Source/Lib/Encoder/ASM_NEON/Quant_neon.c:75-76 | shifting the quotient back up by gtli < 128 is exactly the scalar truncation |
| Quant.ShiftCountsWrapped | Source/Lib/Encoder/ASM_NEON/Quant_neon.c:16-17 | from gtli = 129 on, the count `vshlq_u16` takes from `-(int16_t)gtli` wraps to the left shift 256 - gtli, and the one from `gtli` to the right shift by 256 - gtli |
| Quant.ShiftOut | Source/Lib/Encoder/ASM_NEON/Quant_neon.c:75 | a left shift by 16 or more leaves a 16-bit lane zero |
| Quant.NeonDeadzoneMatches | Source/Lib/Encoder/ASM_NEON/Quant_neon.c:70-84 | for gtli <= 240 a lane of the 16-wide pass computes what the scalar loop computes for that word |
| Quant.QuantGatesDiverge | Source/Lib/Encoder/ASM_NEON/Quant_neon.c:75-76 | for each gtli from 241 to 254, a magnitude of 1 in a group with gcli = gtli + 1 comes out 1 from the 16-wide pass and 0 from the scalar loop |
| Quant.DeadzoneBatch | Source/Lib/Encoder/ASM_NEON/Quant_neon.c:44-97 | each of the 16 lanes is the NEON lane formula with its own group's gcli mask, and for gtli <= 240 the scalar result |
| Quant.DeadzoneBlock | Source/Lib/Encoder/ASM_NEON/Quant_neon.c:19-102 | one pass rewrites exactly the 16 words at i, each by its own group's gcli |
| Quant.BlockEnd | Source/Lib/Encoder/ASM_NEON/Quant_neon.c:19 | the 16-wide loop stops at size / 16 * 16 |
| Quant.DeadzoneBlocks | Source/Lib/Encoder/ASM_NEON/Quant_neon.c:12-103 | the 16-wide loop rewrites exactly the words below `VectorEnd`, lane by lane |
| Quant.DeadzoneTail | Source/Lib/Encoder/ASM_NEON/Quant_neon.c:105-118 | the scalar loop rewrites exactly the words from its start to size |
| Quant.QuantDeadzone | Source/Lib/Encoder/ASM_NEON/Quant_neon.c:10-119 | every word below size is quantized by its group's gcli (vector formula before `VectorEnd`, scalar after); for gtli <= 240 the whole buffer equals the scalar loop's result; words from size on are unchanged |
| Quant.QuantUniformWord | Source/Lib/Encoder/ASM_NEON/Quant_neon.c:124-139 | zero when gcli <= gtli; otherwise the level shifted up by gtli kept to 16 bits, zero exactly when that is zero, with the input's sign ORed in only when nonzero |
| Quant.UniformIndexRounds | Source/Lib/Encoder/ASM_NEON/Quant_neon.c:130 | the level is d(2^s - 1) / 2^(gcli+1) rounded to nearest, halves up |
| Quant.LevelBelow | Source/Lib/Encoder/ASM_NEON/Quant_neon.c:130 | before the 16-bit store, the level of a magnitude below 2^gcli is below 2^(gcli - gtli) |
| Quant.UniformIndexBound | Source/Lib/Encoder/ASM_NEON/Quant_neon.c:128-131 | for gtli < gcli <= 15 the stored level is below 2^(gcli - gtli) and, shifted up by gtli, below 2^gcli |
| Quant.QuantUniformBounds | Source/Lib/Encoder/ASM_NEON/Quant_neon.c:124-139 | for gtli < gcli <= 15 and a magnitude that fits in gcli bits, the result is a multiple of 2^gtli below 2^gcli, zero is canonical and the sign is kept |
| Quant.QuantUniform | Source/Lib/Encoder/ASM_NEON/Quant_neon.c:121-140 | every word below size becomes its uniform quantization by its group's gcli; the rest is unchanged |
| Quant.Quantization | Source/Lib/Encoder/ASM_NEON/Quant_neon.c:142-155 | the policy picks the kernel and its contract; an unrecognised policy leaves the buffer as it is |
| Dequant.DequantDeadzoneWord | Source/Lib/Decoder/ASM_NEON/Dequant_neon.c:61-66 | unchanged unless gcli > gtli and the magnitude is nonzero; then for gtli <= 15 the sign is kept and bit gtli-1 of the magnitude is set; at gtli = 16 the sign bit is set and the magnitude kept; from gtli = 17 on the bit is lost in the 16-bit store and the word is unchanged |
| Dequant.DequantDeadzoneKeepsSign | Source/Lib/Decoder/ASM_NEON/Dequant_neon.c:64 | the deadzone dequantizer never changes the sign bit (gtli != 16) |
| Dequant.DequantDeadzoneIdempotent | Source/Lib/Decoder/ASM_NEON/Dequant_neon.c:61-66 | dequantizing twice is dequantizing once |
| Dequant.DequantBatch | Source/Lib/Decoder/ASM_NEON/Dequant_neon.c:26-53 | each of the 16 lanes is the dequantized word under its own group's gcli compared unsigned |
| Dequant.DequantGatesDiverge | Source/Lib/Decoder/ASM_NEON/Dequant_neon.c:32-62 | the unsigned gate of the 16-wide pass and the `int8_t` gate of the scalar loop give different words for gcli = 200 |
| Dequant.DequantBlock | Source/Lib/Decoder/ASM_NEON/Dequant_neon.c:19-57 | one pass rewrites exactly the 16 words at i |
| Dequant.DequantBlocks | Source/Lib/Decoder/ASM_NEON/Dequant_neon.c:14-58 | the 16-wide loop rewrites exactly the words below `VectorEnd`, gcli compared unsigned |
| Dequant.DequantDeadzoneTail | Source/Lib/Decoder/ASM_NEON/Dequant_neon.c:60-66 | the scalar loop rewrites exactly the words from its start to size, gcli read as `int8_t` |
| Dequant.InvQuantDeadzone | Source/Lib/Decoder/ASM_NEON/Dequant_neon.c:10-67 | gtli = 0 changes nothing; otherwise each word is dequantized by its gate (unsigned before `VectorEnd`, `int8_t` after), and wherever gcli < 128 by the scalar loop's rule |
| Dequant.DeadzoneRoundTrip | Source/Lib/Decoder/ASM_NEON/Dequant_neon.c:61-66 | after deadzone quantization: zero when gcli <= gtli, zero exactly when the magnitude is below 2^gtli, and otherwise the sign is kept and the magnitude is within (-2^(gtli-1), 2^(gtli-1)] of the original |
| Dequant.GeomSum | Source/Lib/Decoder/ASM_NEON/Dequant_neon.c:79-81 | the series never falls below its first term |
| Dequant.GeomSumBound | Source/Lib/Decoder/ASM_NEON/Dequant_neon.c:79-81 | the series is at most val * 2^s / (2^s - 1) |
| Dequant.UniformGrowth | Source/Lib/Decoder/ASM_NEON/Dequant_neon.c:79-81 | for a nonzero multiple m of 2^gtli below 2^gcli, m <= series < 2^gcli |
| Dequant.DequantUniformWord | Source/Lib/Decoder/ASM_NEON/Dequant_neon.c:72-83 | unchanged unless gcli > gtli and the magnitude is nonzero; then the magnitude is the series kept to 16 bits, with the sign ORed back |
| Dequant.DequantUniformBounds | Source/Lib/Decoder/ASM_NEON/Dequant_neon.c:72-83 | a word as the uniform quantizer leaves it (gtli < gcli <= 15) keeps its sign and grows to a magnitude still below 2^gcli |
| Dequant.AccumulateShifts | Source/Lib/Decoder/ASM_NEON/Dequant_neon.c:78-81 | the shift-and-accumulate loop terminates and leaves the series mod 2^16 in `buf[i]`, touching nothing else |
| Dequant.DequantUniformAt | Source/Lib/Decoder/ASM_NEON/Dequant_neon.c:73-83 | one coefficient is replaced by its uniform dequantization |
| Dequant.DequantUniformLoop | Source/Lib/Decoder/ASM_NEON/Dequant_neon.c:72-84 | every word below size is dequantized with its gcli read as `int8_t`; the rest is unchanged |
| Dequant.InvQuantUniform | Source/Lib/Decoder/ASM_NEON/Dequant_neon.c:69-85 | gtli = 0 changes nothing; otherwise the loop's contract |
| Dequant.Dequantization | Source/Lib/Decoder/ASM_NEON/Dequant_neon.c:87-98 | the policy picks the kernel and its contract; an unrecognised policy leaves the buffer as it is |
| Neon.Ext | Source/Lib/Decoder/ASM_NEON/Idwt_neon.c:83-89 | `vextq` lane j is lane n+j of the first register, or of the second past its end |
| Neon.Zip | Source/Lib/Decoder/ASM_NEON/Idwt_neon.c:96-100 | `vzipq_s32` interleaves the two registers lane by lane |
| Neon.Store | Source/Lib/Decoder/ASM_NEON/Idwt_neon.c:388-389 | `vst1q` writes the lanes at the offset and nothing else |
| Neon.StoreHalves | Source/Lib/Encoder/ASM_NEON/Quant_neon.c:100-101 | the two 8-lane stores write the 16 lanes at the offset and nothing else |

## Left out

- Signed 32-bit overflow is not modelled. All wavelet arithmetic is on unbounded integers, since overflow and left shifts of negative values are undefined in C. For the same reason the uniform quantizer's `d << scale_value` is an exact product even when the scale reaches 32 or more.
- Shift amounts are not bounded. The wavelet `shift` is any natural number; `vshlq_s32` and `<<` by 32 or more are undefined in C and are not separately modelled.
- Aliasing between buffers is excluded. Input and output arrays are required to be distinct.
- Input arrays are assumed to be exactly as long as the prefix the kernels read (`len` samples, or ceil/floor(len/2) band coefficients). Output rows may be longer, and everything past len is proved unchanged.
- Quant.QuantDeadzone: equality with the scalar loop is stated only for gtli <= 240. From gtli = 241 on, the shift counts `vshlq_u16` takes from the low byte of `-(int16_t)gtli` and `gtli` no longer shift everything out, and the two paths part (`Quant.QuantGatesDiverge`). The contract still states the exact NEON lane value there (`Quant.NeonDeadzoneWord`).
- Quant.NeonDeadzoneMatches: stated for gtli <= 240 for the same reason.
- Quant.QuantDeadzoneWord: for gtli of 32 or more, the scalar `>>` and `<<` on the promoted `int` are undefined in C. The model takes the mathematical shift there (everything shifted out), so the scalar value it compares the vector lanes against from gtli = 32 on is a modelling choice.
- Quant.UniformIndexBound: stated only for gtli < gcli <= 15, the range of a valid gcli for 15-bit magnitudes. Quant.QuantUniformBounds, Quant.LevelBelow, Dequant.DequantUniformBounds and Dequant.UniformGrowth have the same restriction. Outside it, the functions they describe still model the 16-bit wrap exactly.
- Dequant.DequantDeadzoneKeepsSign: excludes gtli = 16, where the ORed bit is the sign bit itself.
- Words.OrBit: its own contract gives only that bit b is set and the word does not decrease. The exact new magnitude for b < 15 is in Words.OrBitMagnitude.
- `BITSTREAM_MASK_SIGN` is taken as 0x8000, and the quantization policy as the datatype `Quant.QuantType` with an unrecognised case. Their defining headers are not part of this model.
- Register types, alignment, `vld2q` de-interleaving mechanics and the element widths of the NEON intrinsics are not modelled. Each intrinsic is its lane-wise integer meaning.
- The player application (SDL, file I/O, threads, timing), the random-input test harness and the prototype headers are not part of this model.
