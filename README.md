# SVT-AV1 encode/decode bookkeeping, modelled in Dafny

This project models the integer bookkeeping of SVT-AV1's encode/decode
stage. It leaves out the signal processing. The modules are:

- **Traversal** (`traversal.dfy`): the cursor walk over a superblock's
  flattened block quad-tree (`blk_it`). It skips a node that is not allowed,
  or that MD split, by `d1_depth_offset`. Otherwise it codes the
  `ns_blk_num[part]` d1 blocks from `blk_it + ns_blk_offset[part]` and then
  jumps by `ns_depth_offset`.
- **CodingLoop** (`coding_loop.dfy`): `av1_encode_loop`,
  `av1_encode_generate_recon` and their 16-bit twins, and
  `perform_inter_coding_loop` and `perform_intra_coding_loop`, as a `Coder`
  class that updates in place:
  - the block's transform-unit records;
  - its root flag `block_has_coeff`;
  - `txb_itr`;
  - the `coded_area_sb` / `coded_area_sb_uv` offsets.

  The transform, quantiser, inverse transform and chroma-from-luma (CfL)
  predictor are parameters. The quantiser gives an (eob, count, DC) triple
  per plane; the inverse transform gives the reconstructed samples; the CfL
  predictor gives the Cb and Cr prediction that the encode loop writes over
  a unit's chroma prediction when an intra block's chroma mode is
  `UV_CFL_PRED`.
- **EncDec** (`encdec.dfy`): `av1_encode_decode` and `av1_encdec_update`,
  as an `EncDecPass` class over `md_blk_arr_nsq`, the superblock and its
  statistics. Each pass is proved to compute a specification fold over the
  cursor walk. That fold is in turn related to:
  - the set of coded blocks;
  - the decoded state of each block;
  - the superblock flags `sb_skip`, `sb_intra` and `sb_64x64_mvp`;
  - the area and count totals.
- **MotionField** (`motion_field.dfy`): `av1_copy_frame_mvs`, the
  motion-field motion-vector storage process of section 7.19 of the AV1
  Bitstream & Decoding Process Specification, writing a two-dimensional
  array in place.
- **Utility** and **Geometry** (`utility.dfy`, `geometry.dfy`):
  - `get_plane_block_size` over `ss_size_lookup`;
  - the three depth-offset tables;
  - the integer macros of `EbUtility.h`;
  - `gcc_right_shift`;
  - the block-geometry record the passes read: transform-unit counts and
    sizes, `has_uv`, and the depth offsets.

`SWAP`, `UNSIGNED_DEC`, `FLOOR_POW2` and `CEIL_POW2` update their argument
step by step, so they are methods on `bv32`. `gcc_right_shift` is a method
on 32-bit words, written as sequences of bits with the sign bit first.

## Model

| member | source | states |
|---|---|---|
| Utility.GetPlaneBlockSize | Source/Lib/Common/Codec/EbUtility.h:88-118 | `BLOCK_INVALID` maps to `BLOCK_INVALID`; with no subsampling the size is returned unchanged; the result is invalid exactly when the input is invalid or the subsampled shape does not exist; otherwise each dimension is the input's dimension divided by the subsampling factor, and at least 4 |
| Utility.NsDepthOffsetRecurrence | Source/Lib/Common/Codec/EbUtility.h:137-145 | at every in-use depth of every geometry, `ns_depth_offset[d] = d1_depth_offset[d] + 4 * ns_depth_offset[d+1]` |
| Utility.ParentDepthOffsetRelation | Source/Lib/Common/Codec/EbUtility.h:132-145 | `parent_depth_offset[d] = 3 * ns_depth_offset[d] + d1_depth_offset[d-1]` at every in-use depth d >= 1 |
| Utility.UnusedDepths | Source/Lib/Common/Codec/EbUtility.h:129-141 | unused depths are a suffix that excludes depth 0, and their parent offset is `NOT_USED_VALUE` |
| Utility.Clip3 | Source/Lib/Common/Codec/EbUtility.h:190-191 | the result lies in [lo, hi] when lo <= hi, equals a when a is already in range, and is always one of a, lo or hi |
| Utility.Clip3IdempotentMonotone | Source/Lib/Common/Codec/EbUtility.h:190-191 | clipping twice equals clipping once, and clipping preserves order |
| Utility.Ceiling | Source/Lib/Common/Codec/EbUtility.h:212 | for x >= 0, `CEILING(x, base)` is a multiple of base with x <= r < x + base |
| Utility.CircularAdd | Source/Lib/Common/Codec/EbUtility.h:210 | for -max <= x < 2*max the result is in [0, max) and congruent to x modulo max |
| Utility.Log2f8 | Source/Lib/Common/Codec/EbUtility.h:237-244 | for a natural x, `LOG2F_8(x)` is floor(log2 x) for 1 <= x < 64, 0 for 0 and 1, and saturates at 6 from 64 up |
| Utility.MaxCuCountIsQuadTreeNodes | Source/Lib/Common/Codec/EbUtility.h:253-254 | `MAX_CU_COUNT(n)` equals the sum of 4^(k-1) for k from 1 to n, the node count of a quad-tree of depth n |
| Utility.MaxCuCountMatchesGeom0 | Source/Lib/Common/Codec/EbUtility.h:137-141 | `MAX_CU_COUNT(4) = 85 = ns_depth_offset[GEOM_0][0]` |
| Utility.RoundUpMultBound | Source/Lib/Common/Codec/EbUtility.h:215 | for a power-of-two mult, `ROUND_UP_MULT(x, mult)` is a multiple of mult and exceeds x by less than mult (modulo 2^32) |
| Utility.RoundUpMul8 | Source/Lib/Common/Codec/EbUtility.h:214 | `ROUND_UP_MUL_8(x)` is `ROUND_UP_MULT(x, 8)`: a multiple of 8 that exceeds x by less than 8 (modulo 2^32) |
| Utility.FloorPow2 | Source/Lib/Common/Codec/EbUtility.h:218-225 | for x != 0 the result is the highest set bit of x, the largest power of two <= x; for 0 it is 0 |
| Utility.CeilPow2 | Source/Lib/Common/Codec/EbUtility.h:228-236 | for 1 < x <= 2^31 the result is the smallest power of two >= x; 1 gives 1; 0 and values above 2^31 wrap to 0 |
| Utility.Swap | Source/Lib/Common/Codec/EbUtility.h:195-199 | the XOR swap exchanges the two values |
| Utility.UnsignedDec | Source/Lib/Common/Codec/EbUtility.h:207-209 | decrements a non-zero value by one and leaves 0 at 0 |
| Utility.GccRightShift | Source/Lib/Common/Codec/EbUtility.h:310-319 | as written: an arithmetic shift whenever the shift is non-zero or a is non-negative; for a negative a and shift 0, a with its sign bit flipped |
| Utility.GccRightShiftMinusOneByZero | Source/Lib/Common/Codec/EbUtility.h:310-319 | as written, `gcc_right_shift(-1, 0)` is `INT_MAX` and not -1 |
| Utility.GccRightShiftCorrected | Source/Lib/Common/Codec/EbUtility.h:310-319 | the floor (arithmetic) shift for every a and every shift below 32 |
| Geometry.D1RangesDisjoint | Source/Lib/Encoder/Codec/EbCodingLoop.c:2530-2532 | the d1 ranges `ns_blk_offset[part] .. +ns_blk_num[part]` of the non-split partitions lie below 25 and never overlap |
| Geometry.ChromaAreaOfSplitBlock | Source/Lib/Encoder/Codec/EbCodingLoop.c:2258-2263 | when a block is split into transform units, only unit 0 adds chroma area (`uv_pass`) |
| Traversal.Next | Source/Lib/Encoder/Codec/EbCodingLoop.c:2523-2645 | the cursor step moves forward, and past every d1 block it has just coded |
| Traversal.CursorsIncreasing | Source/Lib/Encoder/Codec/EbCodingLoop.c:2514-2646 | the cursor visits md-scan indices in strictly increasing order, all below `max_block_cnt`, so the loop ends |
| Traversal.D1BlocksIncreasing | Source/Lib/Encoder/Codec/EbCodingLoop.c:2700-2709 | the coded d1 blocks come in strictly increasing order, so none is coded twice |
| Traversal.D1BlocksMembership | Source/Lib/Encoder/Codec/EbCodingLoop.c:2523-2532 | a block is coded exactly when it is one of the `ns_blk_num[part]` consecutive blocks from `blk_it + ns_blk_offset[part]` of a visited node that is allowed and not split |
| CodingLoop.EncodeTuContract | Source/Lib/Encoder/Codec/EbCodingLoop.c:373-650 | each selected plane records the quantiser's result, or zeros under `md_skip_blk`; its flag is set exactly when its count is non-zero; `nz_coef_count` is the count modulo 2^16; a zero luma count forces `DCT_DCT` on luma, and on chroma only for inter and intra-block-copy blocks; other planes are unchanged; luma samples are never written; with chroma selected, an intra `UV_CFL_PRED` block's Cb and Cr samples become the CfL prediction, even under `md_skip_blk`, and otherwise no sample changes |
| CodingLoop.ReconTuContract | Source/Lib/Encoder/Codec/EbCodingLoop.c:1083-1158 | inverse transform and add replaces exactly the selected planes whose flag is set, when the block is not skipped; everything else is unchanged |
| CodingLoop.RootFlagIff | Source/Lib/Encoder/Codec/EbCodingLoop.c:2305-2308 | the root flag is set exactly when some unit has luma coefficients or, with chroma, some chroma-carrying unit has Cb or Cr coefficients |
| CodingLoop.InterLoopRootFlag | Source/Lib/Encoder/Codec/EbCodingLoop.c:2246-2308 | after the inter loop, `block_has_coeff` holds exactly when some unit as left by the loop has coefficients in a plane that counts |
| CodingLoop.InterLoopSkip | Source/Lib/Encoder/Codec/EbCodingLoop.c:2208-2215 | with `skip_flag`, every unit ends with all flags false, all DC values 0, its samples unreconstructed, and the block has no coefficients |
| CodingLoop.InterLoopFlagsMatchCounts | Source/Lib/Encoder/Codec/EbCodingLoop.c:436-647 | without `skip_flag`, each selected plane holds the quantiser's count (0 under `md_skip_blk`), the flag "count is non-zero", and the count modulo 2^16 |
| CodingLoop.InterLoopSamples | Source/Lib/Encoder/Codec/EbCodingLoop.c:2208-2244 | after the inter loop, a selected plane of a non-skipped block holds the inverse transform's output when it was coded with coefficients, else the CfL prediction for Cb and Cr of a CfL block; every other plane keeps its prediction |
| CodingLoop.InterLoopFrame | Source/Lib/Encoder/Codec/EbCodingLoop.c:2160-2161 | units past `txb_count[tx_depth]` are untouched by the inter loop |
| CodingLoop.IntraLoopRootFlag | Source/Lib/Encoder/Codec/EbCodingLoop.c:1885-1910 | after the intra loop, the root flag is its old value ORed with "some unit has coefficients in a plane that counts" |
| CodingLoop.IntraLoopUnits | Source/Lib/Encoder/Codec/EbCodingLoop.c:1363-1883 | each unit's luma plane holds its quantiser result; with chroma, unit 0's Cb and Cr hold unit 0's results; every other chroma plane is unchanged |
| CodingLoop.IntraLoopChromaFold | Source/Lib/Encoder/Codec/EbCodingLoop.c:1885-1910 | unit 0's Cb (Cr) flag ends set exactly when unit 0 coded such coefficients or a later chroma-carrying unit's flag was set; for a split block, exactly when unit 0 coded them |
| CodingLoop.IntraLoopChromaSamples | Source/Lib/Encoder/Codec/EbCodingLoop.c:1815-1834 | unit 0's Cb (Cr) samples end as the inverse transform's output when the block is not skipped and the plane was coded with coefficients; otherwise as the CfL prediction for a `UV_CFL_PRED` block, and as the old prediction for any other block |
| CodingLoop.IntraLoopKeepsTxTypeUv | Source/Lib/Encoder/Codec/EbCodingLoop.c:439-447 | the intra loop never changes an intra block's chroma transform type |
| CodingLoop.IntraLoopFrame | Source/Lib/Encoder/Codec/EbCodingLoop.c:1363-1364 | units past the unit count are untouched by the intra loop |
| CodingLoop.ChromaAreasAgree | Source/Lib/Encoder/Codec/EbCodingLoop.c:1851-1853 | for a split block or a single unit, the intra and inter loops advance `coded_area_sb_uv` by the same amount |
| CodingLoop.Coder.EncodeLoop | Source/Lib/Encoder/Codec/EbCodingLoop.c:297-650 | the unit at `txb_itr` becomes the bookkeeping `EncodeTuContract` describes; no other unit changes |
| CodingLoop.Coder.GenerateRecon | Source/Lib/Encoder/Codec/EbCodingLoop.c:1064-1162 | the unit at `txb_itr` is reconstructed as `ReconTuContract` describes; no other unit changes |
| CodingLoop.Coder.CodeInterUnits | Source/Lib/Encoder/Codec/EbCodingLoop.c:2160-2300 | the transform loop codes every unit in turn, keeps the OR-accumulators and advances both area offsets |
| CodingLoop.Coder.PerformInterCodingLoop | Source/Lib/Encoder/Codec/EbCodingLoop.c:2027-2309 | the coder ends in the state of the inter-loop specification, whose root flag, skip, count and frame properties are the lemmas above |
| CodingLoop.Coder.CodeLumaUnits | Source/Lib/Encoder/Codec/EbCodingLoop.c:1363-1573 | the luma loop codes every unit and advances `coded_area_sb` by the block's luma area |
| CodingLoop.Coder.FoldIntraFlags | Source/Lib/Encoder/Codec/EbCodingLoop.c:1885-1910 | the closing loop ORs the counting flags into the root flag and, with chroma, folds Cb and Cr into unit 0 |
| CodingLoop.Coder.PerformIntraCodingLoop | Source/Lib/Encoder/Codec/EbCodingLoop.c:1331-1911 | the coder ends in the state of the intra-loop specification |
| EncDec.MdSkip | Source/Lib/Encoder/Codec/EbCodingLoop.c:2545-2548 | `md_skip_blk` is set exactly when `blk_skip_decision` is set, the block is not intra, and MD left no coefficients |
| EncDec.EncDecPass.LoadBlock | Source/Lib/Encoder/Codec/EbCodingLoop.c:2534-2555 | loads the block into the coder with its `md_skip_blk`, clears its root flag and applies the segmentation qindex |
| EncDec.EncDecPass.EncodeDecode | Source/Lib/Encoder/Codec/EbCodingLoop.c:2474-2648 | the cursor loop leaves the block array, qindex, area offsets and error reports as the decode specification computes them |
| EncDec.EncodeDecodeAt | Source/Lib/Encoder/Codec/EbCodingLoop.c:2514-2646 | every coded block is decoded exactly once, from MD's units and root flag; every other block keeps its units and root flag |
| EncDec.DecodedRootFlag | Source/Lib/Encoder/Codec/EbCodingLoop.c:2546-2635 | a decoded block's root flag is set exactly when its coding loop ran and left a unit with coefficients in a plane that counts |
| EncDec.MdSkippedBlockHasNoCoeff | Source/Lib/Encoder/Codec/EbCodingLoop.c:376-380 | a block bypassed by `md_skip_blk` ends with no coefficients |
| EncDec.EncodeDecodeAreas | Source/Lib/Encoder/Codec/EbCodingLoop.c:2510-2511 | after the pass, `coded_area_sb` and `coded_area_sb_uv` are the sums of the coded blocks' luma and chroma areas |
| EncDec.EncDecPass.UpdateUnitAreas | Source/Lib/Encoder/Codec/EbCodingLoop.c:3037-3046 | the update pass's unit walk advances the offsets by the block's luma area and its chroma-carrying units' chroma area |
| EncDec.EncDecPass.UpdateCursorNode | Source/Lib/Encoder/Codec/EbCodingLoop.c:2675-2709 | one cursor iteration records the partition and `mds_idx`, updates the node's d1 blocks, and returns the traversal's next cursor |
| EncDec.UpdateBlockSpecSteps | Source/Lib/Encoder/Codec/EbCodingLoop.c:2716-2738 | one d1 block's effect on the superblock statistics, stated field by field (qindex, intra and skip areas and flags, the 64x64 MVP flag, the non-zero count, the offsets, the final list), is the source's qindex, mode, coefficient and unit steps applied in that order |
| EncDec.EncDecPass.EncDecUpdate | Source/Lib/Encoder/Codec/EbCodingLoop.c:2652-3186 | the cursor loop leaves the statistics, the partition array, the final block list and the offsets as the update specification computes them |
| EncDec.EncDecUpdateFinalBlocks | Source/Lib/Encoder/Codec/EbCodingLoop.c:3075-3087 | `final_blk_arr` receives exactly the coded d1 blocks, in coding order |
| EncDec.EncDecUpdateSkip | Source/Lib/Encoder/Codec/EbCodingLoop.c:2732-2736 | `sb_skip` ends set exactly when no coded block has coefficients |
| EncDec.EncDecUpdateIntra | Source/Lib/Encoder/Codec/EbCodingLoop.c:2723-2725 | `sb_intra` ends set exactly when some coded block is intra |
| EncDec.EncDecUpdateMvp | Source/Lib/Encoder/Codec/EbCodingLoop.c:2726-2729 | `sb_64x64_mvp` ends set exactly when a d1 block of the root node is not intra and not predicted with a new motion vector |
| EncDec.EncDecUpdateTotals | Source/Lib/Encoder/Codec/EbCodingLoop.c:2720-2736 | the offsets are sums over the coded blocks; the intra and skip areas grow by the areas of the coded intra blocks and of the coded blocks without coefficients |
| EncDec.EncDecUpdateNzCount | Source/Lib/Encoder/Codec/EbCodingLoop.c:2684-2738 | `sb_count_nz_coeffs` is the sum over the coded blocks of MD's `count_non_zero_coeffs` in the local block unit that the block's `mds_idx` names, where a node's own `mds_idx` has just been set to its index and every later entry is read as the pass found it |
| EncDec.EncDecUpdateNzCountIdentity | Source/Lib/Encoder/Codec/EbCodingLoop.c:2737-2738 | when every `mds_idx` already equals its block's index, `sb_count_nz_coeffs` is the sum of MD's counts of the coded blocks themselves |
| MotionField.HalfUp | Source/Lib/Encoder/Codec/EbCodingLoop.c:1917-1920 | `ROUND_POWER_OF_TWO(v, 1)` is v halved, rounded up |
| MotionField.RegionInsideGrid | Source/Lib/Encoder/Codec/EbCodingLoop.c:1917-1920 | a block inside the frame covers a region inside the half-resolution grid |
| MotionField.CellAfter | Source/Lib/Encoder/Codec/EbCodingLoop.c:1926-1941 | after the first n references a cell is empty exactly when none of them is stored; otherwise it holds the last stored one |
| MotionField.CellValueLaterWins | Source/Lib/Encoder/Codec/EbCodingLoop.c:1926-1941 | the cell holds reference 1 if it is stored, else reference 0 if it is stored, else (`NONE_FRAME`, 0); a stored cell is an inter frame on side 0 with both components at most 4095 in magnitude |
| MotionField.StoreCell | Source/Lib/Encoder/Codec/EbCodingLoop.c:1926-1941 | the idx loop leaves the cell value above |
| MotionField.CopyFrameMvs | Source/Lib/Encoder/Codec/EbCodingLoop.c:1914-1946 | every cell of the ceil(y_mis/2) by ceil(x_mis/2) region gets the cell value; every other cell is unchanged |

## Left out

- The transform, quantiser, inverse transform, residual and prediction kernels are parameters. This includes intra, inter and warped prediction and `av1_estimate_transform`. They are not modelled. For CfL only the write of its output over the chroma prediction is modelled; the luma subsampling, average subtraction and alpha scaling that compute it are not.
- The neighbour arrays (`neighbor_array_unit_*_write`, `get_txb_ctx`) are not modelled. Their bodies are not part of this model.
- Strided picture-buffer plumbing is not modelled:
  - the recon and coefficient memcpys;
  - `prepare_input_picture`;
  - `store16bit_input_src`;
  - `convert_recon_16bit_to_8bit`.

  The 8-bit and 16-bit variants differ only there, so each pair is one method.
- The CDF and statistics updates are not modelled: `update_part_stats`, `update_stats`, coefficient CDF updates and bit estimation. Palette allocation and `move_blk_data` are left out too. The final block list records which block was copied, not its contents.
- `pcs_total_rate` is not modelled: neither its reset for the picture's first block (EbCodingLoop.c:2696-2699) nor the mutex-guarded accumulation (EbCodingLoop.c:2739-2741), which is concurrency. The block's `total_rate` comes from rate estimation, which is not part of this model.
- The MFMV call inside `av1_encdec_update` (EbCodingLoop.c:3089-3111) is modelled standalone as `MotionField.CopyFrameMvs`. The update pass does not call it, because the mode-info grid and reference objects are not part of this model.
- In the update pass's transform-unit walk, only the area offsets are modelled. `txb_1d_offset` and the coefficient CDF work are left out.
- `apply_segmentation_based_quantization` is a parameter: the qindex it gives each block.
- The cursor walk's inputs are a given, read-only input. This covers `build_blk_geom`, the geometry table, `block_is_allowed` and MD's partitions.
- `ns_blk_offset` and `ns_blk_num` are not part of this model's source files. Their values follow the d1 enumeration of the block-geometry layout: 1, 2, 2, 3, 3, 3, 3, 4, 4 blocks at offsets 0, 1, 3, 5, 8, 11, 14, 17, 21, with split at 25.
- The component-mask bit values of the picture-buffer flags are not part of this model's source files. The mask is a three-valued datatype (luma, chroma, all), which are the only values the loops pass.
- Counters and areas are unbounded naturals: no `uint32_t` or `uint16_t` wrap-around for `coded_area_sb`, `sb_count_nz_coeffs` or the area totals. `nz_coef_count` is modelled modulo 2^16 explicitly.
- `NONE_FRAME` = -1 and `INTRA_FRAME` = 0 follow the AV1 specification's reference-frame numbering. Their definitions are not part of this model's source files.
- The malformed `MEDIAN` macro (EbUtility.h:189) does not parse, so it is left out.
- `FLOAT2FP`, `FP2FLOAT`, `CONST_SQRT2` and `FP_ASSERT` are floating point and I/O, so they are left out.
- `convert_to_trans_prec` is left out because it depends on a macro that is not part of this model.
- The other one-line macros in EbUtility.h:186-254 that the core does not use are not modelled: `DIVIDE_AND_ROUND`, `ABS`, `SQR`, `SIGN`, `ROUND`, `POW2_CHECK`, `TWO_D_INDEX`, `CIRCULAR_ADD_UNSIGNED`, `CLIP3EQ`.
- Utility.RoundUpMultBound: the bound x <= r < x + mult is stated bitwise, modulo 2^32 (aligned, and r - x below mult), not as an ordering of integers.
- Utility.Log2f8: takes a natural number. The macro compares its argument against unsigned literals, so a negative `int` argument is converted to unsigned and gives 6; that case is not modelled.
- Utility.Swap: swaps two values and returns them. Aliasing (`SWAP(a, a)`, which zeroes a) is not modelled.
- Utility.Ceiling: states its bound for x >= 0 only. For negative x, C's truncating division is modelled but no bound is claimed.
- EncDec.EncDecPass.EncodeDecode: an invalid prediction mode is recorded in an error list and the walk continues; the report's text is not modelled.

## Findings

| source | as written | input that shows it | evidently intended | confidence | as-written member | corrected member |
|---|---|---|---|---|---|---|
| Source/Lib/Common/Codec/EbUtility.h:310-319 | for a negative `a`, the sign bit is cleared before the shift loop and XORed back after it; with `shift == 0` the loop never runs, so the XOR flips the sign bit instead of restoring it | `gcc_right_shift(-1, 0)` returns `INT_MAX` (0x7FFFFFFF) instead of -1 | an arithmetic shift for every shift, so a shift by 0 returns `a` | not executed | Utility.GccRightShift, Utility.GccRightShiftMinusOneByZero | Utility.GccRightShiftCorrected |
