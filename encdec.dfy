/**
 * The two superblock passes of the encode/decode stage over the mode
 * decision's block array md_blk_arr_nsq.
 *
 * av1_encode_decode walks the superblock's flattened quad-tree with the
 * cursor of module Traversal and runs the intra or the inter coding loop on
 * every coded d1 block: the block's units and root flag are loaded into the
 * coder, the coding loop updates them in place, and they are stored back.
 *
 * av1_encdec_update walks the same tree again and keeps the superblock's
 * statistics: whether some block is intra, whether no block has
 * coefficients, the 64x64 motion-vector-prediction flag, the non-zero
 * coefficient count, the intra and skip areas and the coded-area offsets;
 * it also copies each coded block to the superblock's final block list.
 *
 * The block array is kept as one sequence per field, indexed by md-scan
 * index; the mode decisions the passes only read are an input.
 */
module EncDec {
  import opened Geometry
  import opened Traversal
  import opened CodingLoop

  /**
   * What the passes read and never write: the cursor walk's inputs, the
   * mode decision of every block, MD's blk_skip_decision, whether
   * segmentation is enabled and the qindex that
   * apply_segmentation_based_quantization gives each block, whether the
   * update pass walks the transform units (update_coef, or encdec bypassed
   * without the pred-depth-only NSQ-off shortcut), the count of non-zero
   * coefficients MD left in each of its local block units
   * (md_local_blk_unit[i].count_non_zero_coeffs, by unit index), and the
   * external quantiser, inverse-transform and chroma-from-luma results per
   * block and unit.
   */
  datatype Inputs = Inputs(
    scan: Scan,
    modes: seq<Blk>,
    blkSkipDecision: bool,
    segmentation: bool,
    segQindex: nat -> int,
    updateUnits: bool,
    mdCount: nat -> nat,
    quant: nat -> nat -> Planes<QuantResult>,
    inv: nat -> nat -> Planes<seq<int>>,
    cfl: nat -> nat -> CflPred)

  /** The walk is well formed, every md-scan index has a mode decision, and every block's tables have their C shapes. */
  predicate ValidInputs(e: Inputs)
  {
    && WellFormed(e.scan)
    && |e.modes| == |e.scan.geom|
    && forall x :: 0 <= x < |e.modes| ==> ValidBlk(e.modes[x]) && ValidTxLayout(e.scan.geom[x])
  }

  /** Which coding loop a block goes through: intra blocks without intra block copy take the intra loop. */
  datatype Path = IntraPath | InterPath | ErrorPath

  function PathOf(b: Blk): Path
  {
    match b.modeFlag
    case IntraMode => if b.useIntrabc then InterPath else IntraPath
    case InterMode => InterPath
    case InvalidMode => ErrorPath
  }

  /**
   * md_skip_blk: the transform is bypassed when MD decided so for chroma
   * too (blk_skip_decision), the block is not intra (its MD prediction may
   * not be conformant) and MD found no coefficients.
   */
  function MdSkip(blkSkipDecision: bool, b: Blk, mdHasCoeff: bool): (r: bool)
    ensures r <==> blkSkipDecision && b.modeFlag != IntraMode && !mdHasCoeff
  {
    if blkSkipDecision then (if b.modeFlag == IntraMode || mdHasCoeff then false else true) else false
  }

  /* ------------------------------------------------------------------ */
  /*  av1_encode_decode                                                  */
  /* ------------------------------------------------------------------ */

  /**
   * What av1_encode_decode writes: per md-scan index the block's root flag,
   * its units and its mds_idx and qindex; the superblock's qindex; the
   * coder's coded-area offsets; and the blocks reported as coding errors.
   */
  datatype DecodeState = DecodeState(
    hasCoeff: seq<bool>,
    units: seq<seq<TuRecord>>,
    mdsIdx: seq<nat>,
    qindex: seq<int>,
    sbQindex: int,
    codedAreaSb: nat,
    codedAreaSbUv: nat,
    errors: seq<nat>)

  /** One entry per md-scan index, and room for every unit of a block. */
  predicate Fits(e: Inputs, ps: DecodeState)
  {
    && |ps.hasCoeff| == |e.modes|
    && |ps.units| == |e.modes|
    && |ps.mdsIdx| == |e.modes|
    && |ps.qindex| == |e.modes|
    && forall x :: 0 <= x < |ps.units| ==> |ps.units[x]| == MaxTxbCount
  }

  /** The coder as block x is handed to its coding loop: MD's units, a cleared root flag and the MD skip decision. */
  function BlockCoder(e: Inputs, ps: DecodeState, x: nat): CoderState
    requires ValidInputs(e) && Fits(e, ps) && x < |e.modes|
  {
    CoderState(e.modes[x], ps.units[x], false, 0, MdSkip(e.blkSkipDecision, e.modes[x], ps.hasCoeff[x]),
               ps.codedAreaSb, ps.codedAreaSbUv)
  }

  /** The coder state after block x's coding loop, on either path. */
  function CodedBlock(e: Inputs, st: CoderState, x: nat): CoderState
    requires ValidInputs(e) && x < |e.modes| && ValidState(st)
  {
    if PathOf(e.modes[x]) == IntraPath then IntraLoopSpec(st, e.scan.geom[x], e.quant(x), e.inv(x), e.cfl(x))
    else InterLoopSpec(st, e.scan.geom[x], e.quant(x), e.inv(x), e.cfl(x))
  }

  /** The segmentation step: with segmentation the block and the superblock take the block's segment qindex. */
  function Segmented(e: Inputs, ps: DecodeState, x: nat): DecodeState
    requires x < |ps.qindex|
  {
    if e.segmentation then ps.(qindex := ps.qindex[x := e.segQindex(x)], sbQindex := e.segQindex(x)) else ps
  }

  /**
   * One d1 block of av1_encode_decode: the segmentation step, then the
   * block's coding loop stores its units, root flag and coded-area
   * offsets; a block with an invalid mode is reported and keeps its units
   * with a cleared root flag.
   */
  function CodeBlockSpec(e: Inputs, ps: DecodeState, x: nat): (r: DecodeState)
    requires ValidInputs(e) && Fits(e, ps) && x < |e.modes|
    ensures Fits(e, r)
  {
    var ps1 := Segmented(e, ps, x);
    if PathOf(e.modes[x]) == ErrorPath then
      ps1.(hasCoeff := ps1.hasCoeff[x := false], errors := ps1.errors + [x])
    else
      var r := CodedBlock(e, BlockCoder(e, ps, x), x);
      ps1.(hasCoeff := ps1.hasCoeff[x := r.blockHasCoeff], units := ps1.units[x := r.tus],
           codedAreaSb := r.codedAreaSb, codedAreaSbUv := r.codedAreaSbUv)
  }

  /** The d1 loop after its first n blocks, from block start on. */
  function CodeBlocks(e: Inputs, ps: DecodeState, start: nat, n: nat): (r: DecodeState)
    requires ValidInputs(e) && Fits(e, ps) && start + n <= |e.modes|
    ensures Fits(e, r)
  {
    if n == 0 then ps else CodeBlockSpec(e, CodeBlocks(e, ps, start, n - 1), start + n - 1)
  }

  /** The d1 blocks of a coded node lie inside the block array. */
  lemma D1RangeFits(e: Inputs, c: nat)
    requires ValidInputs(e) && c < |e.modes| && Coded(e.scan, c)
    ensures D1Start(e.scan, c) + D1Num(e.scan, c) <= |e.modes|
  {
  }

  /** One more block of the d1 loop. */
  lemma CodeBlocksStep(e: Inputs, ps: DecodeState, start: nat, n: nat, before: DecodeState, after: DecodeState)
    requires ValidInputs(e) && Fits(e, ps) && start + n < |e.modes|
    requires before == CodeBlocks(e, ps, start, n)
    requires after == CodeBlockSpec(e, before, start + n)
    ensures after == CodeBlocks(e, ps, start, n + 1)
  {
  }

  /** The node at cursor c: its mds_idx is set, and its d1 blocks are coded unless it is skipped. */
  function DecodeNode(e: Inputs, ps: DecodeState, c: nat): (r: DecodeState)
    requires ValidInputs(e) && Fits(e, ps) && c < |e.modes|
    ensures Fits(e, r)
  {
    var ps1 := ps.(mdsIdx := ps.mdsIdx[c := c]);
    if Coded(e.scan, c) then CodeBlocks(e, ps1, D1Start(e.scan, c), D1Num(e.scan, c)) else ps1
  }

  /** The cursor loop from cursor c to the end. */
  function DecodeFrom(e: Inputs, ps: DecodeState, c: nat): (r: DecodeState)
    requires ValidInputs(e) && Fits(e, ps)
    ensures Fits(e, r)
    decreases |e.modes| - c
  {
    if c >= |e.modes| then ps else DecodeFrom(e, DecodeNode(e, ps, c), Next(e.scan, c))
  }

  /** av1_encode_decode: the coded-area offsets start at 0 and the cursor at md-scan index 0. */
  function EncodeDecodeSpec(e: Inputs, ps: DecodeState): (r: DecodeState)
    requires ValidInputs(e) && Fits(e, ps)
    ensures Fits(e, r)
  {
    DecodeFrom(e, ps.(codedAreaSb := 0, codedAreaSbUv := 0), 0)
  }

  /* ------------------------------------------------------------------ */
  /*  av1_encdec_update                                                  */
  /* ------------------------------------------------------------------ */

  /**
   * What av1_encdec_update writes: mds_idx and qindex per md-scan index,
   * the superblock's qindex and partition array, its statistics
   * (sb_intra, sb_skip, sb_64x64_mvp, sb_count_nz_coeffs), the coder's
   * total intra and skip areas and coded-area offsets, and the md-scan
   * indices of the blocks copied to final_blk_arr, in order.
   */
  datatype UpdateState = UpdateState(
    mdsIdx: seq<nat>,
    qindex: seq<int>,
    sbQindex: int,
    cuPartition: seq<Partition>,
    sbIntra: bool,
    sbSkip: bool,
    sb64x64Mvp: bool,
    sbCountNz: nat,
    totIntraArea: nat,
    totSkipArea: nat,
    codedAreaSb: nat,
    codedAreaSbUv: nat,
    finalBlks: seq<nat>)

  predicate UpdateFits(e: Inputs, hc: seq<bool>, us: UpdateState)
  {
    && |hc| == |e.modes|
    && |us.mdsIdx| == |e.modes|
    && |us.qindex| == |e.modes|
    && |us.cuPartition| == |e.modes|
  }

  /** Area of the whole block. */
  function BlockArea(g: BlockGeom): nat
  {
    g.bwidth * g.bheight
  }

  /**
   * The qindex step: with segmentation block x and the superblock take the
   * block's segment qindex; without it the block takes the superblock's.
   */
  function QindexStep(e: Inputs, us: UpdateState, x: nat): UpdateState
    requires x < |us.qindex|
  {
    var q := if e.segmentation then e.segQindex(x) else us.sbQindex;
    us.(qindex := us.qindex[x := q], sbQindex := q)
  }

  /**
   * The mode step: an intra block adds its area to the intra area and
   * marks the superblock intra; a block of the node at cursor 0 that is
   * not intra and has no new motion vector sets the 64x64 MVP flag.
   */
  function ModeStep(e: Inputs, us: UpdateState, c: nat, x: nat): UpdateState
    requires ValidInputs(e) && x < |e.modes|
  {
    var b := e.modes[x];
    if b.modeFlag == IntraMode then us.(totIntraArea := us.totIntraArea + BlockArea(e.scan.geom[x]), sbIntra := true)
    else if c == 0 && !b.newMv then us.(sb64x64Mvp := true)
    else us
  }

  /**
   * The coefficient step: a block without coefficients adds its area to
   * the skip area, one with coefficients clears sb_skip; MD's non-zero
   * count of the local block unit the block's mds_idx names is added to
   * the superblock's.
   */
  function CoeffStep(e: Inputs, hc: seq<bool>, us: UpdateState, x: nat): UpdateState
    requires ValidInputs(e) && x < |e.modes| && |hc| == |e.modes| && |us.mdsIdx| == |e.modes|
  {
    var u := if !hc[x] then us.(totSkipArea := us.totSkipArea + BlockArea(e.scan.geom[x])) else us.(sbSkip := false);
    u.(sbCountNz := u.sbCountNz + e.mdCount(us.mdsIdx[x]))
  }

  /** The unit step: when the units are walked the coded-area offsets grow as in the inter coding loop. */
  function AreaStep(e: Inputs, us: UpdateState, x: nat): UpdateState
    requires ValidInputs(e) && x < |e.modes|
  {
    var g := e.scan.geom[x];
    var b := e.modes[x];
    if e.updateUnits then
      us.(codedAreaSb := us.codedAreaSb + LumaArea(g, b.txDepth, TotTu(g, b)),
          codedAreaSbUv := us.codedAreaSbUv + ChromaArea(g, b.txDepth, TotTu(g, b)))
    else us
  }

  /**
   * The statistics after d1 block x of the node at cursor c, field by
   * field; the block is then copied to the final block list.
   */
  function UpdateBlockSpec(e: Inputs, hc: seq<bool>, us: UpdateState, c: nat, x: nat): (r: UpdateState)
    requires ValidInputs(e) && UpdateFits(e, hc, us) && x < |e.modes|
    ensures UpdateFits(e, hc, r)
  {
    var b := e.modes[x];
    var g := e.scan.geom[x];
    var q := if e.segmentation then e.segQindex(x) else us.sbQindex;
    var intra := b.modeFlag == IntraMode;
    us.(qindex := us.qindex[x := q], sbQindex := q,
        sbIntra := us.sbIntra || intra,
        totIntraArea := if intra then us.totIntraArea + BlockArea(g) else us.totIntraArea,
        sb64x64Mvp := us.sb64x64Mvp || (!intra && c == 0 && !b.newMv),
        sbSkip := us.sbSkip && !hc[x],
        totSkipArea := if hc[x] then us.totSkipArea else us.totSkipArea + BlockArea(g),
        sbCountNz := us.sbCountNz + e.mdCount(us.mdsIdx[x]),
        codedAreaSb := if e.updateUnits then us.codedAreaSb + LumaArea(g, b.txDepth, TotTu(g, b)) else us.codedAreaSb,
        codedAreaSbUv := if e.updateUnits then us.codedAreaSbUv + ChromaArea(g, b.txDepth, TotTu(g, b)) else us.codedAreaSbUv,
        finalBlks := us.finalBlks + [x])
  }

  /** The block step is the source's qindex, mode, coefficient and unit steps in that order. */
  lemma UpdateBlockSpecSteps(e: Inputs, hc: seq<bool>, us: UpdateState, c: nat, x: nat)
    requires ValidInputs(e) && UpdateFits(e, hc, us) && x < |e.modes|
    ensures var u := AreaStep(e, CoeffStep(e, hc, ModeStep(e, QindexStep(e, us, x), c, x), x), x);
      UpdateBlockSpec(e, hc, us, c, x) == u.(finalBlks := u.finalBlks + [x])
  {
  }

  /** The d1 loop of the update pass after its first n blocks. */
  function UpdateBlocks(e: Inputs, hc: seq<bool>, us: UpdateState, c: nat, start: nat, n: nat): (r: UpdateState)
    requires ValidInputs(e) && UpdateFits(e, hc, us) && start + n <= |e.modes|
    ensures UpdateFits(e, hc, r)
  {
    if n == 0 then us else UpdateBlockSpec(e, hc, UpdateBlocks(e, hc, us, c, start, n - 1), c, start + n - 1)
  }

  /** One more block of the update pass's d1 loop. */
  lemma UpdateBlocksStep(e: Inputs, hc: seq<bool>, us: UpdateState, c: nat, start: nat, n: nat,
                         before: UpdateState, after: UpdateState)
    requires ValidInputs(e) && UpdateFits(e, hc, us) && start + n < |e.modes|
    requires before == UpdateBlocks(e, hc, us, c, start, n)
    requires after == UpdateBlockSpec(e, hc, before, c, start + n)
    ensures after == UpdateBlocks(e, hc, us, c, start, n + 1)
  {
  }

  /** The node at cursor c of the update pass: partition and mds_idx are recorded, then its d1 blocks unless skipped. */
  function UpdateNode(e: Inputs, hc: seq<bool>, us: UpdateState, c: nat): (r: UpdateState)
    requires ValidInputs(e) && UpdateFits(e, hc, us) && c < |e.modes|
    ensures UpdateFits(e, hc, r)
  {
    var u1 := us.(cuPartition := us.cuPartition[c := e.scan.parts[c]], mdsIdx := us.mdsIdx[c := c]);
    if Coded(e.scan, c) then UpdateBlocks(e, hc, u1, c, D1Start(e.scan, c), D1Num(e.scan, c)) else u1
  }

  function UpdateFrom(e: Inputs, hc: seq<bool>, us: UpdateState, c: nat): (r: UpdateState)
    requires ValidInputs(e) && UpdateFits(e, hc, us)
    ensures UpdateFits(e, hc, r)
    decreases |e.modes| - c
  {
    if c >= |e.modes| then us else UpdateFrom(e, hc, UpdateNode(e, hc, us, c), Next(e.scan, c))
  }

  /**
   * av1_encdec_update: the offsets and the superblock's flags and count
   * are reset (sb_skip to 1, the others to 0), the final block list starts
   * empty, and the cursor starts at 0. The total intra and skip areas keep
   * accumulating across superblocks.
   */
  function EncDecUpdateSpec(e: Inputs, hc: seq<bool>, us: UpdateState): (r: UpdateState)
    requires ValidInputs(e) && UpdateFits(e, hc, us)
    ensures UpdateFits(e, hc, r)
  {
    UpdateFrom(e, hc, us.(codedAreaSb := 0, codedAreaSbUv := 0, sbIntra := false, sbSkip := true,
                          sb64x64Mvp := false, sbCountNz := 0, finalBlks := []), 0)
  }

  /* ------------------------------------------------------------------ */
  /*  The pass                                                           */
  /* ------------------------------------------------------------------ */

  /**
   * The state the two passes update in place: the written fields of
   * md_blk_arr_nsq, the superblock, its statistics in the picture control
   * set, and the EncDecContext (the coder and its area totals).
   */
  class EncDecPass {
    // md_blk_arr_nsq, one entry per md-scan index
    var hasCoeff: seq<bool>
    var units: seq<seq<TuRecord>>
    var mdsIdx: seq<nat>
    var qindex: seq<int>
    // the superblock
    var sbQindex: int
    var cuPartition: seq<Partition>
    var finalBlks: seq<nat>
    // the superblock's entries of sb_intra, sb_skip, sb_64x64_mvp and sb_count_nz_coeffs
    var sbIntra: bool
    var sbSkip: bool
    var sb64x64Mvp: bool
    var sbCountNz: nat
    // EncDecContext
    const ctx: Coder
    var totIntraArea: nat
    var totSkipArea: nat
    // blocks reported through CHECK_REPORT_ERROR_NC
    var errors: seq<nat>

    function Decoding(): DecodeState
      reads this, ctx
    {
      DecodeState(hasCoeff, units, mdsIdx, qindex, sbQindex, ctx.codedAreaSb, ctx.codedAreaSbUv, errors)
    }

    function Updating(): UpdateState
      reads this, ctx
    {
      UpdateState(mdsIdx, qindex, sbQindex, cuPartition, sbIntra, sbSkip, sb64x64Mvp, sbCountNz,
                  totIntraArea, totSkipArea, ctx.codedAreaSb, ctx.codedAreaSbUv, finalBlks)
    }

    /** A pass over MD's root flags and units, with the block records' and superblock's other fields given. */
    constructor (hc: seq<bool>, us: seq<seq<TuRecord>>, ms: seq<nat>, qs: seq<int>, sbq: int, parts: seq<Partition>)
      ensures Decoding() == DecodeState(hc, us, ms, qs, sbq, 0, 0, [])
      ensures cuPartition == parts && finalBlks == []
      ensures !sbIntra && sbSkip && !sb64x64Mvp && sbCountNz == 0 && totIntraArea == 0 && totSkipArea == 0
      ensures fresh(ctx)
    {
      hasCoeff := hc;
      units := us;
      mdsIdx := ms;
      qindex := qs;
      sbQindex := sbq;
      cuPartition := parts;
      finalBlks := [];
      sbIntra := false;
      sbSkip := true;
      sb64x64Mvp := false;
      sbCountNz := 0;
      ctx := new Coder(Blk(InvalidMode, false, false, 0, false, false), []);
      totIntraArea := 0;
      totSkipArea := 0;
      errors := [];
    }

    /**
     * Loading d1 block x into the coder: its mode decision and units, the
     * MD skip decision read from the root flag MD left, then the cleared
     * root flag, then the segmentation step.
     */
    method LoadBlock(e: Inputs, x: nat)
      requires ValidInputs(e) && Fits(e, Decoding()) && x < |e.modes|
      modifies this`hasCoeff, this`qindex, this`sbQindex, ctx`blk, ctx`tus, ctx`mdSkipBlk, ctx`blockHasCoeff
      ensures ctx.State() == BlockCoder(e, old(Decoding()), x).(txbItr := ctx.txbItr)
      ensures Decoding() == Segmented(e, old(Decoding()), x).(hasCoeff := old(hasCoeff)[x := false])
    {
      var b := e.modes[x];
      ctx.blk := b;
      ctx.tus := units[x];
      ctx.mdSkipBlk := if e.blkSkipDecision then (if b.modeFlag == IntraMode || hasCoeff[x] then false else true) else false;
      ctx.blockHasCoeff := false;
      hasCoeff := hasCoeff[x := false];
      if e.segmentation {
        qindex := qindex[x := e.segQindex(x)];
        sbQindex := qindex[x];
      }
    }

    /** The coding loop block x goes through, on the coder: intra, inter (also intra block copy), or an error report. */
    method RunCodingLoop(e: Inputs, x: nat)
      requires ValidInputs(e) && x < |e.modes| && ctx.blk == e.modes[x] && |ctx.tus| == MaxTxbCount
      modifies this`errors, ctx`tus, ctx`blockHasCoeff, ctx`txbItr, ctx`codedAreaSb, ctx`codedAreaSbUv
      ensures PathOf(e.modes[x]) != ErrorPath ==>
        ctx.State() == CodedBlock(e, old(ctx.State()), x) && errors == old(errors)
      ensures PathOf(e.modes[x]) == ErrorPath ==>
        ctx.State() == old(ctx.State()) && errors == old(errors) + [x]
    {
      var b := e.modes[x];
      var g := e.scan.geom[x];
      if b.modeFlag == IntraMode {
        if !b.useIntrabc {
          ctx.PerformIntraCodingLoop(g, e.quant(x), e.inv(x), e.cfl(x));
        } else {
          ctx.PerformInterCodingLoop(g, e.quant(x), e.inv(x), e.cfl(x));
        }
      } else if b.modeFlag == InterMode {
        ctx.PerformInterCodingLoop(g, e.quant(x), e.inv(x), e.cfl(x));
      } else {
        errors := errors + [x];
      }
    }

    /**
     * One d1 block of av1_encode_decode: load it, run its coding loop, store
     * its units and root flag. x is block k of the d1 loop that started
     * from block start in state ps0.
     */
    method CodeBlock(e: Inputs, x: nat, ghost ps0: DecodeState, ghost start: nat, ghost k: nat)
      requires ValidInputs(e) && Fits(e, ps0) && x == start + k < |e.modes|
      requires Decoding() == CodeBlocks(e, ps0, start, k)
      modifies this`hasCoeff, this`units, this`qindex, this`sbQindex, this`errors, ctx
      ensures Decoding() == CodeBlocks(e, ps0, start, k + 1)
    {
      ghost var ps := Decoding();
      LoadBlock(e, x);
      ghost var st := ctx.State();
      RunCodingLoop(e, x);
      units := units[x := ctx.tus];
      hasCoeff := hasCoeff[x := ctx.blockHasCoeff];
      CodedBlockIgnoresTxbItr(e, BlockCoder(e, ps, x), st, x);
      CodeBlocksStep(e, ps0, start, k, ps, Decoding());
    }

    /** The d1 loop of the node at cursor c. */
    method CodeNode(e: Inputs, c: nat)
      requires ValidInputs(e) && Fits(e, Decoding()) && c < |e.modes| && Coded(e.scan, c)
      modifies this`hasCoeff, this`units, this`qindex, this`sbQindex, this`errors, ctx
      ensures Decoding() == CodeBlocks(e, old(Decoding()), D1Start(e.scan, c), D1Num(e.scan, c))
    {
      var start := D1Start(e.scan, c);
      var num := D1Num(e.scan, c);
      D1RangeFits(e, c);
      var d1 := start;
      ghost var k := 0;
      while d1 < start + num
        invariant d1 == start + k <= start + num
        invariant Decoding() == CodeBlocks(e, old(Decoding()), start, k)
      {
        CodeBlock(e, d1, old(Decoding()), start, k);
        d1, k := d1 + 1, k + 1;
      }
      assert k == num;
    }

    /**
     * av1_encode_decode: the cursor loop over the superblock, proved to
     * leave the block array, the superblock's qindex, the coded-area
     * offsets and the error reports as EncodeDecodeSpec computes them.
     */
    method EncodeDecode(e: Inputs)
      requires ValidInputs(e) && Fits(e, Decoding())
      modifies this`hasCoeff, this`units, this`mdsIdx, this`qindex, this`sbQindex, this`errors, ctx
      ensures Decoding() == EncodeDecodeSpec(e, old(Decoding()))
    {
      ctx.codedAreaSb := 0;
      ctx.codedAreaSbUv := 0;
      ghost var ps0 := Decoding();
      var blkIt := 0;
      while blkIt < |e.modes|
        invariant Fits(e, Decoding())
        invariant DecodeFrom(e, Decoding(), blkIt) == DecodeFrom(e, ps0, 0)
        decreases |e.modes| - blkIt
      {
        ghost var before, c := Decoding(), blkIt;
        mdsIdx := mdsIdx[blkIt := blkIt];
        if !e.scan.allowed[blkIt] || e.scan.parts[blkIt] == PartitionSplit {
          blkIt := blkIt + e.scan.geom[blkIt].d1DepthOffset;
        } else {
          CodeNode(e, blkIt);
          blkIt := blkIt + e.scan.geom[LastD1(e.scan, blkIt)].nsDepthOffset;
        }
        assert Decoding() == DecodeNode(e, before, c) && blkIt == Next(e.scan, c);
      }
    }

    /**
     * The transform-unit loop of av1_encdec_update for a block with
     * geometry g at depth d: the coded-area offsets advance by each unit's
     * luma area and, on chroma-carrying units of a block with chroma, by
     * its chroma area.
     */
    method UpdateUnitAreas(g: BlockGeom, d: nat)
      requires ValidTxLayout(g) && d <= MaxVartxDepth
      modifies ctx`codedAreaSb, ctx`codedAreaSbUv
      ensures ctx.codedAreaSb == old(ctx.codedAreaSb) + LumaArea(g, d, g.txbCount[d])
      ensures ctx.codedAreaSbUv == old(ctx.codedAreaSbUv) + ChromaArea(g, d, g.txbCount[d])
    {
      var tot := g.txbCount[d];
      var tu := 0;
      while tu < tot
        invariant tu <= tot
        invariant ctx.codedAreaSb == old(ctx.codedAreaSb) + LumaArea(g, d, tu)
        invariant ctx.codedAreaSbUv == old(ctx.codedAreaSbUv) + ChromaArea(g, d, tu)
      {
        var uvPass := !(d != 0 && tu != 0);
        ctx.codedAreaSb := ctx.codedAreaSb + TuArea(g, d, tu);
        if g.hasUv && uvPass {
          ctx.codedAreaSbUv := ctx.codedAreaSbUv + TuAreaUv(g, d, tu);
        }
        tu := tu + 1;
      }
    }

    /**
     * One d1 block of av1_encdec_update: x is block k of the d1 loop of the
     * node at cursor c, which started from block start in state us0.
     */
    method UpdateBlock(e: Inputs, c: nat, x: nat, ghost us0: UpdateState, ghost start: nat, ghost k: nat)
      requires ValidInputs(e) && UpdateFits(e, hasCoeff, us0) && x == start + k < |e.modes|
      requires Updating() == UpdateBlocks(e, hasCoeff, us0, c, start, k)
      modifies this`qindex, this`sbQindex, this`sbIntra, this`sbSkip, this`sb64x64Mvp, this`sbCountNz,
               this`totIntraArea, this`totSkipArea, this`finalBlks, ctx`codedAreaSb, ctx`codedAreaSbUv
      ensures Updating() == UpdateBlocks(e, hasCoeff, us0, c, start, k + 1)
    {
      ghost var before := Updating();
      UpdateBlockStats(e, c, x);
      UpdateBlockAreas(e, x);
      finalBlks := finalBlks + [x];
      UpdateBlockSpecSteps(e, hasCoeff, before, c, x);
      UpdateBlocksStep(e, hasCoeff, us0, c, start, k, before, Updating());
    }

    /** The unit step of d1 block x: its transform units are walked only when the pass is asked to. */
    method UpdateBlockAreas(e: Inputs, x: nat)
      requires ValidInputs(e) && x < |e.modes|
      modifies ctx`codedAreaSb, ctx`codedAreaSbUv
      ensures Updating() == AreaStep(e, old(Updating()), x)
    {
      if e.updateUnits {
        var g := e.scan.geom[x];
        UpdateUnitAreas(g, e.modes[x].txDepth);
      }
    }

    /** The qindex, mode and coefficient steps of d1 block x of the node at cursor c. */
    method UpdateBlockStats(e: Inputs, c: nat, x: nat)
      requires ValidInputs(e) && x < |e.modes| && |qindex| == |hasCoeff| == |mdsIdx| == |e.modes|
      modifies this`qindex, this`sbQindex, this`sbIntra, this`sbSkip, this`sb64x64Mvp, this`sbCountNz,
               this`totIntraArea, this`totSkipArea
      ensures Updating() == CoeffStep(e, hasCoeff, ModeStep(e, QindexStep(e, old(Updating()), x), c, x), x)
    {
      var g := e.scan.geom[x];
      var b := e.modes[x];
      if e.segmentation {
        qindex := qindex[x := e.segQindex(x)];
        sbQindex := qindex[x];
      } else {
        qindex := qindex[x := sbQindex];
      }
      UpdateModeStats(e, c, x);
      UpdateCoeffStats(e, x);
    }

    /** The mode step of d1 block x of the node at cursor c. */
    method UpdateModeStats(e: Inputs, c: nat, x: nat)
      requires ValidInputs(e) && x < |e.modes|
      modifies this`sbIntra, this`sb64x64Mvp, this`totIntraArea
      ensures Updating() == ModeStep(e, old(Updating()), c, x)
    {
      var b := e.modes[x];
      if b.modeFlag == IntraMode {
        totIntraArea := totIntraArea + BlockArea(e.scan.geom[x]);
        sbIntra := true;
      } else if c == 0 && !b.newMv {
        sb64x64Mvp := true;
      }
    }

    /** The coefficient step of d1 block x. */
    method UpdateCoeffStats(e: Inputs, x: nat)
      requires ValidInputs(e) && x < |e.modes| && |hasCoeff| == |mdsIdx| == |e.modes|
      modifies this`sbSkip, this`sbCountNz, this`totSkipArea
      ensures Updating() == CoeffStep(e, hasCoeff, old(Updating()), x)
    {
      if !hasCoeff[x] {
        totSkipArea := totSkipArea + BlockArea(e.scan.geom[x]);
      } else {
        sbSkip := false;
      }
      sbCountNz := sbCountNz + e.mdCount(mdsIdx[x]);
    }

    /** The d1 loop of the update pass for the node at cursor c. */
    method UpdateNodeBlocks(e: Inputs, c: nat)
      requires ValidInputs(e) && UpdateFits(e, hasCoeff, Updating()) && c < |e.modes| && Coded(e.scan, c)
      modifies this`qindex, this`sbQindex, this`sbIntra, this`sbSkip, this`sb64x64Mvp, this`sbCountNz,
               this`totIntraArea, this`totSkipArea, this`finalBlks, ctx`codedAreaSb, ctx`codedAreaSbUv
      ensures Updating() == UpdateBlocks(e, hasCoeff, old(Updating()), c, D1Start(e.scan, c), D1Num(e.scan, c))
    {
      var start := D1Start(e.scan, c);
      var num := D1Num(e.scan, c);
      D1RangeFits(e, c);
      var d1 := start;
      ghost var k := 0;
      while d1 < start + num
        invariant d1 == start + k <= start + num
        invariant Updating() == UpdateBlocks(e, hasCoeff, old(Updating()), c, start, k)
      {
        UpdateBlock(e, c, d1, old(Updating()), start, k);
        d1, k := d1 + 1, k + 1;
      }
      assert k == num;
    }

    /**
     * av1_encdec_update: the cursor loop over the superblock, proved to
     * leave the statistics, the partition array, the final block list and
     * the coded-area offsets as EncDecUpdateSpec computes them from the
     * root flags the encode/decode pass left.
     */
    method EncDecUpdate(e: Inputs)
      requires ValidInputs(e) && UpdateFits(e, hasCoeff, Updating())
      modifies this`mdsIdx, this`qindex, this`sbQindex, this`cuPartition, this`sbIntra, this`sbSkip,
               this`sb64x64Mvp, this`sbCountNz, this`totIntraArea, this`totSkipArea, this`finalBlks,
               ctx`codedAreaSb, ctx`codedAreaSbUv
      ensures Updating() == EncDecUpdateSpec(e, hasCoeff, old(Updating()))
    {
      ctx.codedAreaSb := 0;
      ctx.codedAreaSbUv := 0;
      sbIntra := false;
      sbSkip := true;
      sb64x64Mvp := false;
      sbCountNz := 0;
      finalBlks := [];
      ghost var us0 := Updating();
      var blkIt := 0;
      while blkIt < |e.modes|
        invariant UpdateFits(e, hasCoeff, Updating())
        invariant UpdateFrom(e, hasCoeff, Updating(), blkIt) == UpdateFrom(e, hasCoeff, us0, 0)
        decreases |e.modes| - blkIt
      {
        blkIt := UpdateCursorNode(e, blkIt);
      }
    }

    /** One iteration of the cursor loop of av1_encdec_update, at cursor c; returns the next cursor. */
    method UpdateCursorNode(e: Inputs, c: nat) returns (next: nat)
      requires ValidInputs(e) && UpdateFits(e, hasCoeff, Updating()) && c < |e.modes|
      modifies this`mdsIdx, this`qindex, this`sbQindex, this`cuPartition, this`sbIntra, this`sbSkip,
               this`sb64x64Mvp, this`sbCountNz, this`totIntraArea, this`totSkipArea, this`finalBlks,
               ctx`codedAreaSb, ctx`codedAreaSbUv
      ensures Updating() == UpdateNode(e, hasCoeff, old(Updating()), c)
      ensures next == Next(e.scan, c)
    {
      cuPartition := cuPartition[c := e.scan.parts[c]];
      mdsIdx := mdsIdx[c := c];
      if !e.scan.allowed[c] || e.scan.parts[c] == PartitionSplit {
        next := c + e.scan.geom[c].d1DepthOffset;
      } else {
        UpdateNodeBlocks(e, c);
        next := c + e.scan.geom[LastD1(e.scan, c)].nsDepthOffset;
      }
    }
  }

  /** The coding loops do not read txb_itr before setting it. */
  lemma CodedBlockIgnoresTxbItr(e: Inputs, st: CoderState, st': CoderState, x: nat)
    requires ValidInputs(e) && x < |e.modes| && ValidState(st) && st' == st.(txbItr := st'.txbItr)
    ensures CodedBlock(e, st', x) == CodedBlock(e, st, x)
  {
  }

  /** The coding loops' units and root flag do not depend on txb_itr or on the coded-area offsets they start from. */
  lemma CodedBlockIgnoresOffsets(e: Inputs, st: CoderState, st': CoderState, x: nat)
    requires ValidInputs(e) && x < |e.modes| && ValidState(st)
    requires st' == st.(txbItr := st'.txbItr, codedAreaSb := st'.codedAreaSb, codedAreaSbUv := st'.codedAreaSbUv)
    ensures CodedBlock(e, st', x).tus == CodedBlock(e, st, x).tus
    ensures CodedBlock(e, st', x).blockHasCoeff == CodedBlock(e, st, x).blockHasCoeff
  {
  }

  /* ------------------------------------------------------------------ */
  /*  What av1_encode_decode does to each block                          */
  /* ------------------------------------------------------------------ */

  /** A block's root flag and units. */
  datatype Decoded = Decoded(hasCoeff: bool, units: seq<TuRecord>)

  function At(ps: DecodeState, x: nat): Decoded
    requires x < |ps.hasCoeff| && x < |ps.units|
  {
    Decoded(ps.hasCoeff[x], ps.units[x])
  }

  /**
   * What the pass makes of block x from the units ts and the root flag MD
   * left: the result of the block's coding loop, started with a cleared
   * root flag and the MD skip decision; a block with an invalid mode keeps
   * its units and ends with a cleared root flag.
   */
  function DecodedBlock(e: Inputs, x: nat, ts: seq<TuRecord>, mdHasCoeff: bool): Decoded
    requires ValidInputs(e) && x < |e.modes| && |ts| == MaxTxbCount
  {
    if PathOf(e.modes[x]) == ErrorPath then Decoded(false, ts)
    else
      var r := CodedBlock(e, CoderState(e.modes[x], ts, false, 0, MdSkip(e.blkSkipDecision, e.modes[x], mdHasCoeff), 0, 0), x);
      Decoded(r.blockHasCoeff, r.tus)
  }

  /** Coding block x decodes it and leaves every other block as it was. */
  lemma CodeBlockSpecAt(e: Inputs, ps: DecodeState, x: nat, y: nat)
    requires ValidInputs(e) && Fits(e, ps) && x < |e.modes| && y < |e.modes|
    ensures At(CodeBlockSpec(e, ps, x), y) ==
      if y == x then DecodedBlock(e, x, ps.units[x], ps.hasCoeff[x]) else At(ps, y)
  {
    if PathOf(e.modes[x]) != ErrorPath {
      var st := CoderState(e.modes[x], ps.units[x], false, 0, MdSkip(e.blkSkipDecision, e.modes[x], ps.hasCoeff[x]), 0, 0);
      CodedBlockIgnoresOffsets(e, st, BlockCoder(e, ps, x), x);
    }
  }

  /** The last block of the d1 loop so far is decoded from the state MD left, which the loop had not touched. */
  lemma CodeBlocksAtLast(e: Inputs, ps: DecodeState, start: nat, n: nat)
    requires ValidInputs(e) && Fits(e, ps) && 0 < n && start + n <= |e.modes|
    requires At(CodeBlocks(e, ps, start, n - 1), start + n - 1) == At(ps, start + n - 1)
    ensures At(CodeBlocks(e, ps, start, n), start + n - 1) ==
      DecodedBlock(e, start + n - 1, ps.units[start + n - 1], ps.hasCoeff[start + n - 1])
  {
    var x: nat := start + n - 1;
    var prev := CodeBlocks(e, ps, start, n - 1);
    assert prev.units[x] == ps.units[x] && prev.hasCoeff[x] == ps.hasCoeff[x];
    CodeBlockSpecAt(e, prev, x, x);
  }

  /** The d1 loop's last block so far leaves every other block as it was. */
  lemma CodeBlocksAtOther(e: Inputs, ps: DecodeState, start: nat, n: nat, y: nat)
    requires ValidInputs(e) && Fits(e, ps) && 0 < n && start + n <= |e.modes| && y < |e.modes| && y != start + n - 1
    ensures At(CodeBlocks(e, ps, start, n), y) == At(CodeBlocks(e, ps, start, n - 1), y)
  {
    CodeBlockSpecAt(e, CodeBlocks(e, ps, start, n - 1), start + n - 1, y);
  }

  /** The d1 loop decodes each of its blocks once, from the state MD left, and no other block. */
  lemma {:induction false} CodeBlocksAt(e: Inputs, ps: DecodeState, start: nat, n: nat, y: nat)
    requires ValidInputs(e) && Fits(e, ps) && start + n <= |e.modes| && y < |e.modes|
    ensures At(CodeBlocks(e, ps, start, n), y) ==
      if start <= y < start + n then DecodedBlock(e, y, ps.units[y], ps.hasCoeff[y]) else At(ps, y)
  {
    if n > 0 {
      CodeBlocksAt(e, ps, start, n - 1, y);
      CodeBlocksAtStep(e, ps, start, n, y);
    }
  }

  /** One more block of the d1 loop keeps the decoded state of every block as CodeBlocksAt states it. */
  lemma CodeBlocksAtStep(e: Inputs, ps: DecodeState, start: nat, n: nat, y: nat)
    requires ValidInputs(e) && Fits(e, ps) && 0 < n && start + n <= |e.modes| && y < |e.modes|
    requires At(CodeBlocks(e, ps, start, n - 1), y) ==
      if start <= y < start + n - 1 then DecodedBlock(e, y, ps.units[y], ps.hasCoeff[y]) else At(ps, y)
    ensures At(CodeBlocks(e, ps, start, n), y) ==
      if start <= y < start + n then DecodedBlock(e, y, ps.units[y], ps.hasCoeff[y]) else At(ps, y)
  {
    if y == start + n - 1 {
      CodeBlocksAtLast(e, ps, start, n);
    } else {
      CodeBlocksAtOther(e, ps, start, n, y);
    }
  }

  /** From cursor c on, exactly the blocks the walk codes are decoded, each from the state MD left. */
  lemma {:induction false} DecodeFromAt(e: Inputs, ps: DecodeState, c: nat, y: nat)
    requires ValidInputs(e) && Fits(e, ps) && y < |e.modes|
    ensures At(DecodeFrom(e, ps, c), y) ==
      if y in D1Blocks(e.scan, c) then DecodedBlock(e, y, ps.units[y], ps.hasCoeff[y]) else At(ps, y)
    decreases |e.modes| - c
  {
    if c < |e.modes| {
      var n := Next(e.scan, c);
      var mid := DecodeNode(e, ps, c);
      var ps1 := ps.(mdsIdx := ps.mdsIdx[c := c]);
      DecodeFromAt(e, mid, n, y);
      D1BlocksIncreasing(e.scan, n);
      assert D1Blocks(e.scan, c) == BlocksOf(e.scan, c) + D1Blocks(e.scan, n);
      if Coded(e.scan, c) {
        CodeBlocksAt(e, ps1, D1Start(e.scan, c), D1Num(e.scan, c), y);
        RangeMembership(D1Start(e.scan, c), D1Num(e.scan, c), y);
      }
      if y in D1Blocks(e.scan, n) {
        var i :| 0 <= i < |D1Blocks(e.scan, n)| && D1Blocks(e.scan, n)[i] == y;
        assert y >= n;
      }
    }
  }

  /**
   * av1_encode_decode decodes every block the cursor walk codes exactly
   * once, from the units and root flag MD left, and leaves the units and
   * root flag of every other block as they were.
   */
  lemma EncodeDecodeAt(e: Inputs, ps: DecodeState, y: nat)
    requires ValidInputs(e) && Fits(e, ps) && y < |e.modes|
    ensures At(EncodeDecodeSpec(e, ps), y) ==
      if y in D1Blocks(e.scan, 0) then DecodedBlock(e, y, ps.units[y], ps.hasCoeff[y]) else At(ps, y)
  {
    DecodeFromAt(e, ps.(codedAreaSb := 0, codedAreaSbUv := 0), 0, y);
  }

  /**
   * A decoded block's root flag is set exactly when its coding loop ran
   * and, afterwards, some unit has luma coefficients or, in a block with
   * chroma, some chroma-carrying unit has Cb or Cr coefficients.
   */
  lemma DecodedRootFlag(e: Inputs, x: nat, ts: seq<TuRecord>, mdHasCoeff: bool)
    requires ValidInputs(e) && x < |e.modes| && |ts| == MaxTxbCount
    ensures var r := DecodedBlock(e, x, ts, mdHasCoeff);
      var g, b := e.scan.geom[x], e.modes[x];
      r.hasCoeff <==>
        PathOf(b) != ErrorPath && exists i :: 0 <= i < TotTu(g, b) && UnitHasCoeff(r.units[i], i, b.txDepth, g.hasUv)
  {
    var g, b := e.scan.geom[x], e.modes[x];
    var st := CoderState(b, ts, false, 0, MdSkip(e.blkSkipDecision, b, mdHasCoeff), 0, 0);
    if PathOf(b) == IntraPath {
      IntraLoopRootFlag(st, g, e.quant(x), e.inv(x), e.cfl(x));
    } else if PathOf(b) == InterPath {
      InterLoopRootFlag(st, g, e.quant(x), e.inv(x), e.cfl(x));
    }
  }

  /**
   * A block the MD skip decision bypasses leaves av1_encode_decode with no
   * coefficients: every plane its units code records a zero count.
   */
  lemma MdSkippedBlockHasNoCoeff(e: Inputs, x: nat, ts: seq<TuRecord>, mdHasCoeff: bool)
    requires ValidInputs(e) && x < |e.modes| && |ts| == MaxTxbCount
    requires MdSkip(e.blkSkipDecision, e.modes[x], mdHasCoeff)
    ensures !DecodedBlock(e, x, ts, mdHasCoeff).hasCoeff
  {
    var g, b := e.scan.geom[x], e.modes[x];
    if PathOf(b) != ErrorPath {
      var st := CoderState(b, ts, false, 0, true, 0, 0);
      var r := InterLoopSpec(st, g, e.quant(x), e.inv(x), e.cfl(x));
      var tot := TotTu(g, b);
      if b.skipFlag {
        InterLoopSkip(st, g, e.quant(x), e.inv(x), e.cfl(x), 0);
      } else {
        forall i | 0 <= i < tot
          ensures !UnitHasCoeff(r.tus[i], i, b.txDepth, g.hasUv)
        {
          InterLoopFlagsMatchCounts(st, g, e.quant(x), e.inv(x), e.cfl(x), i, Y);
          if g.hasUv && UvPass(b.txDepth, i) {
            InterLoopFlagsMatchCounts(st, g, e.quant(x), e.inv(x), e.cfl(x), i, U);
            InterLoopFlagsMatchCounts(st, g, e.quant(x), e.inv(x), e.cfl(x), i, V);
          }
        }
        InterLoopRootFlag(st, g, e.quant(x), e.inv(x), e.cfl(x));
      }
    }
  }

  /* ------------------------------------------------------------------ */
  /*  Totals over the coded blocks                                       */
  /* ------------------------------------------------------------------ */

  /** The per-block quantities the passes add up. */
  datatype Tally =
    | DecodeLuma | DecodeChroma     // coded-area offsets of av1_encode_decode
    | UpdateLuma | UpdateChroma     // coded-area offsets of av1_encdec_update
    | IntraArea | SkipArea

  /**
   * What block x adds to a total: the luma and chroma areas its coding loop
   * advances the offsets by (the intra loop adds unit 0's chroma area
   * only), those the update pass's unit walk advances them by, its area if
   * it is intra or has no coefficients (hc).
   */
  function Weight(e: Inputs, hc: seq<bool>, t: Tally, x: nat): nat
    requires ValidInputs(e)
  {
    if x >= |e.modes| then 0
    else
      var g, b := e.scan.geom[x], e.modes[x];
      var d, tot := b.txDepth, TotTu(g, b);
      match t
      case DecodeLuma => if PathOf(b) == ErrorPath then 0 else LumaArea(g, d, tot)
      case DecodeChroma =>
        (match PathOf(b)
         case ErrorPath => 0
         case IntraPath => if g.hasUv then TuAreaUv(g, d, 0) else 0
         case InterPath => ChromaArea(g, d, tot))
      case UpdateLuma => if e.updateUnits then LumaArea(g, d, tot) else 0
      case UpdateChroma => if e.updateUnits then ChromaArea(g, d, tot) else 0
      case IntraArea => if b.modeFlag == IntraMode then BlockArea(g) else 0
      case SkipArea => if x < |hc| && !hc[x] then BlockArea(g) else 0
  }

  /** The sum of t over the blocks xs. */
  function Total(e: Inputs, hc: seq<bool>, t: Tally, xs: seq<nat>): nat
    requires ValidInputs(e)
    decreases |xs|
  {
    if |xs| == 0 then 0 else Total(e, hc, t, xs[..|xs| - 1]) + Weight(e, hc, t, xs[|xs| - 1])
  }

  lemma TotalSnoc(e: Inputs, hc: seq<bool>, t: Tally, xs: seq<nat>, y: nat)
    requires ValidInputs(e)
    ensures Total(e, hc, t, xs + [y]) == Total(e, hc, t, xs) + Weight(e, hc, t, y)
  {
    assert (xs + [y])[..|xs|] == xs;
  }

  /** Extending a range of blocks by one adds that block's weight. */
  lemma TotalRangeSnoc(e: Inputs, hc: seq<bool>, t: Tally, start: nat, n: nat)
    requires ValidInputs(e) && n > 0
    ensures Total(e, hc, t, Range(start, n)) == Total(e, hc, t, Range(start, n - 1)) + Weight(e, hc, t, start + n - 1)
  {
    RangeSnoc(start, n);
    TotalSnoc(e, hc, t, Range(start, n - 1), start + n - 1);
  }

  /** A total over two lists of blocks is the sum of their totals. */
  lemma {:induction false} TotalConcat(e: Inputs, hc: seq<bool>, t: Tally, xs: seq<nat>, ys: seq<nat>)
    requires ValidInputs(e)
    ensures Total(e, hc, t, xs + ys) == Total(e, hc, t, xs) + Total(e, hc, t, ys)
    decreases |ys|
  {
    if |ys| == 0 {
      assert xs + ys == xs;
    } else {
      var ys' := ys[..|ys| - 1];
      var y := ys[|ys| - 1];
      assert ys == ys' + [y];
      assert xs + ys == (xs + ys') + [y];
      TotalConcat(e, hc, t, xs, ys');
      TotalSnoc(e, hc, t, xs + ys', y);
      TotalSnoc(e, hc, t, ys', y);
    }
  }

  /** Coding block x advances the coded-area offsets by the areas its coding loop walks. */
  lemma CodeBlockSpecAreas(e: Inputs, ps: DecodeState, x: nat)
    requires ValidInputs(e) && Fits(e, ps) && x < |e.modes|
    ensures CodeBlockSpec(e, ps, x).codedAreaSb == ps.codedAreaSb + Weight(e, [], DecodeLuma, x)
    ensures CodeBlockSpec(e, ps, x).codedAreaSbUv == ps.codedAreaSbUv + Weight(e, [], DecodeChroma, x)
  {
  }

  /** Block start + n - 1 of the d1 loop advances the coded-area offsets by the areas its coding loop walks. */
  lemma CodeBlocksAreasStep(e: Inputs, ps: DecodeState, start: nat, n: nat)
    requires ValidInputs(e) && Fits(e, ps) && 0 < n && start + n <= |e.modes|
    ensures CodeBlocks(e, ps, start, n).codedAreaSb ==
      CodeBlocks(e, ps, start, n - 1).codedAreaSb + Weight(e, [], DecodeLuma, start + n - 1)
    ensures CodeBlocks(e, ps, start, n).codedAreaSbUv ==
      CodeBlocks(e, ps, start, n - 1).codedAreaSbUv + Weight(e, [], DecodeChroma, start + n - 1)
  {
    CodeBlockSpecAreas(e, CodeBlocks(e, ps, start, n - 1), start + n - 1);
  }

  /** The d1 loop advances coded_area_sb by the luma areas its blocks' coding loops walk. */
  lemma {:induction false} CodeBlocksLumaArea(e: Inputs, ps: DecodeState, start: nat, n: nat)
    requires ValidInputs(e) && Fits(e, ps) && start + n <= |e.modes|
    ensures CodeBlocks(e, ps, start, n).codedAreaSb == ps.codedAreaSb + Total(e, [], DecodeLuma, Range(start, n))
  {
    if n > 0 {
      CodeBlocksLumaArea(e, ps, start, n - 1);
      CodeBlocksAreasStep(e, ps, start, n);
      TotalRangeSnoc(e, [], DecodeLuma, start, n);
    }
  }

  /** The d1 loop advances coded_area_sb_uv by the chroma areas its blocks' coding loops walk. */
  lemma {:induction false} CodeBlocksChromaArea(e: Inputs, ps: DecodeState, start: nat, n: nat)
    requires ValidInputs(e) && Fits(e, ps) && start + n <= |e.modes|
    ensures CodeBlocks(e, ps, start, n).codedAreaSbUv == ps.codedAreaSbUv + Total(e, [], DecodeChroma, Range(start, n))
  {
    if n > 0 {
      CodeBlocksChromaArea(e, ps, start, n - 1);
      CodeBlocksAreasStep(e, ps, start, n);
      TotalRangeSnoc(e, [], DecodeChroma, start, n);
    }
  }

  /** From cursor c on, the coded-area offsets advance by the coding-loop areas of the blocks the walk codes. */
  lemma {:induction false} DecodeFromAreas(e: Inputs, ps: DecodeState, c: nat)
    requires ValidInputs(e) && Fits(e, ps)
    ensures DecodeFrom(e, ps, c).codedAreaSb == ps.codedAreaSb + Total(e, [], DecodeLuma, D1Blocks(e.scan, c))
    ensures DecodeFrom(e, ps, c).codedAreaSbUv == ps.codedAreaSbUv + Total(e, [], DecodeChroma, D1Blocks(e.scan, c))
    decreases |e.modes| - c
  {
    if c < |e.modes| {
      var n := Next(e.scan, c);
      DecodeFromAreas(e, DecodeNode(e, ps, c), n);
      TotalConcat(e, [], DecodeLuma, BlocksOf(e.scan, c), D1Blocks(e.scan, n));
      TotalConcat(e, [], DecodeChroma, BlocksOf(e.scan, c), D1Blocks(e.scan, n));
      if Coded(e.scan, c) {
        var ps1 := ps.(mdsIdx := ps.mdsIdx[c := c]);
        CodeBlocksLumaArea(e, ps1, D1Start(e.scan, c), D1Num(e.scan, c));
        CodeBlocksChromaArea(e, ps1, D1Start(e.scan, c), D1Num(e.scan, c));
      }
    }
  }

  /**
   * At the end of av1_encode_decode, coded_area_sb and coded_area_sb_uv
   * are the luma and chroma areas of the units of all coded blocks: the
   * offset just past the superblock's coefficients.
   */
  lemma EncodeDecodeAreas(e: Inputs, ps: DecodeState)
    requires ValidInputs(e) && Fits(e, ps)
    ensures EncodeDecodeSpec(e, ps).codedAreaSb == Total(e, [], DecodeLuma, D1Blocks(e.scan, 0))
    ensures EncodeDecodeSpec(e, ps).codedAreaSbUv == Total(e, [], DecodeChroma, D1Blocks(e.scan, 0))
  {
    DecodeFromAreas(e, ps.(codedAreaSb := 0, codedAreaSbUv := 0), 0);
  }

  /* ------------------------------------------------------------------ */
  /*  What av1_encdec_update records for the superblock                  */
  /* ------------------------------------------------------------------ */

  /** No block of xs has coefficients left. */
  predicate NoCoeffIn(hc: seq<bool>, xs: seq<nat>)
  {
    forall i :: 0 <= i < |xs| && xs[i] < |hc| ==> !hc[xs[i]]
  }

  /** Some block of xs was coded intra. */
  predicate IntraIn(e: Inputs, xs: seq<nat>)
  {
    exists i :: 0 <= i < |xs| && xs[i] < |e.modes| && e.modes[xs[i]].modeFlag == IntraMode
  }

  /** Block x is predicted without intra and without a new motion vector. */
  predicate MvpBlock(e: Inputs, x: nat)
  {
    x < |e.modes| && e.modes[x].modeFlag != IntraMode && !e.modes[x].newMv
  }

  /** Some block of xs is an MVP block. */
  predicate MvpIn(e: Inputs, xs: seq<nat>)
  {
    exists i :: 0 <= i < |xs| && MvpBlock(e, xs[i])
  }

  lemma NoCoeffConcat(hc: seq<bool>, xs: seq<nat>, ys: seq<nat>)
    ensures NoCoeffIn(hc, xs + ys) <==> NoCoeffIn(hc, xs) && NoCoeffIn(hc, ys)
  {
    var zs := xs + ys;
    if NoCoeffIn(hc, xs) && NoCoeffIn(hc, ys) {
      forall i | 0 <= i < |zs| && zs[i] < |hc|
        ensures !hc[zs[i]]
      {
        if i >= |xs| {
          assert zs[i] == ys[i - |xs|];
        }
      }
    }
    if NoCoeffIn(hc, zs) {
      forall i | 0 <= i < |xs| && xs[i] < |hc|
        ensures !hc[xs[i]]
      {
        assert zs[i] == xs[i];
      }
      forall i | 0 <= i < |ys| && ys[i] < |hc|
        ensures !hc[ys[i]]
      {
        assert zs[|xs| + i] == ys[i];
      }
    }
  }

  lemma IntraConcat(e: Inputs, xs: seq<nat>, ys: seq<nat>)
    ensures IntraIn(e, xs + ys) <==> IntraIn(e, xs) || IntraIn(e, ys)
  {
    var zs := xs + ys;
    if IntraIn(e, xs) {
      var i :| 0 <= i < |xs| && xs[i] < |e.modes| && e.modes[xs[i]].modeFlag == IntraMode;
      assert zs[i] == xs[i];
    }
    if IntraIn(e, ys) {
      var i :| 0 <= i < |ys| && ys[i] < |e.modes| && e.modes[ys[i]].modeFlag == IntraMode;
      assert zs[|xs| + i] == ys[i];
    }
    if IntraIn(e, zs) {
      var i :| 0 <= i < |zs| && zs[i] < |e.modes| && e.modes[zs[i]].modeFlag == IntraMode;
      if i >= |xs| {
        assert zs[i] == ys[i - |xs|];
      } else {
        assert zs[i] == xs[i];
      }
    }
  }

  lemma MvpConcat(e: Inputs, xs: seq<nat>, ys: seq<nat>)
    ensures MvpIn(e, xs + ys) <==> MvpIn(e, xs) || MvpIn(e, ys)
  {
    var zs := xs + ys;
    if MvpIn(e, xs) {
      var i :| 0 <= i < |xs| && MvpBlock(e, xs[i]);
      assert zs[i] == xs[i];
    }
    if MvpIn(e, ys) {
      var i :| 0 <= i < |ys| && MvpBlock(e, ys[i]);
      assert zs[|xs| + i] == ys[i];
    }
    if MvpIn(e, zs) {
      var i :| 0 <= i < |zs| && MvpBlock(e, zs[i]);
      if i >= |xs| {
        assert zs[i] == ys[i - |xs|];
      } else {
        assert zs[i] == xs[i];
      }
    }
  }

  lemma NoCoeffRangeSnoc(hc: seq<bool>, start: nat, n: nat)
    requires n > 0
    ensures NoCoeffIn(hc, Range(start, n)) <==>
      NoCoeffIn(hc, Range(start, n - 1)) && (start + n - 1 < |hc| ==> !hc[start + n - 1])
  {
    var x := start + n - 1;
    RangeSnoc(start, n);
    NoCoeffConcat(hc, Range(start, n - 1), [x]);
    assert [x][0] == x;
  }

  lemma IntraRangeSnoc(e: Inputs, start: nat, n: nat)
    requires n > 0
    ensures IntraIn(e, Range(start, n)) <==>
      IntraIn(e, Range(start, n - 1)) || (start + n - 1 < |e.modes| && e.modes[start + n - 1].modeFlag == IntraMode)
  {
    var x := start + n - 1;
    RangeSnoc(start, n);
    IntraConcat(e, Range(start, n - 1), [x]);
    assert [x][0] == x;
  }

  lemma MvpRangeSnoc(e: Inputs, start: nat, n: nat)
    requires n > 0
    ensures MvpIn(e, Range(start, n)) <==> MvpIn(e, Range(start, n - 1)) || MvpBlock(e, start + n - 1)
  {
    var x := start + n - 1;
    RangeSnoc(start, n);
    MvpConcat(e, Range(start, n - 1), [x]);
    assert [x][0] == x;
  }

  /**
   * One block of the update pass: it is appended to the final block list,
   * it clears sb_skip exactly when it has coefficients, it marks the
   * superblock intra exactly when it is intra, and it sets the 64x64 MVP
   * flag exactly when it belongs to the node at cursor 0 and is an MVP
   * block.
   */
  lemma UpdateBlockFlags(e: Inputs, hc: seq<bool>, us: UpdateState, c: nat, x: nat)
    requires ValidInputs(e) && UpdateFits(e, hc, us) && x < |e.modes|
    ensures var r := UpdateBlockSpec(e, hc, us, c, x);
      && r.finalBlks == us.finalBlks + [x]
      && r.sbSkip == (us.sbSkip && !hc[x])
      && r.sbIntra == (us.sbIntra || e.modes[x].modeFlag == IntraMode)
      && r.sb64x64Mvp == (us.sb64x64Mvp || (c == 0 && MvpBlock(e, x)))
  {
  }

  /** The tallies the update pass keeps. */
  predicate UpdateTally(t: Tally)
  {
    t != DecodeLuma && t != DecodeChroma
  }

  /** The field of the superblock state a tally is kept in; both passes keep their areas in the coded-area offsets. */
  function Counter(us: UpdateState, t: Tally): nat
  {
    match t
    case DecodeLuma | UpdateLuma => us.codedAreaSb
    case DecodeChroma | UpdateChroma => us.codedAreaSbUv
    case IntraArea => us.totIntraArea
    case SkipArea => us.totSkipArea
  }

  /** One block of the update pass adds its share to each counter. */
  lemma UpdateBlockCounter(e: Inputs, hc: seq<bool>, us: UpdateState, c: nat, x: nat, t: Tally)
    requires ValidInputs(e) && UpdateFits(e, hc, us) && x < |e.modes| && UpdateTally(t)
    ensures Counter(UpdateBlockSpec(e, hc, us, c, x), t) == Counter(us, t) + Weight(e, hc, t, x)
  {
  }

  lemma UpdateBlocksListStep(e: Inputs, hc: seq<bool>, us: UpdateState, c: nat, start: nat, n: nat)
    requires ValidInputs(e) && UpdateFits(e, hc, us) && 0 < n && start + n <= |e.modes|
    requires UpdateBlocks(e, hc, us, c, start, n - 1).finalBlks == us.finalBlks + Range(start, n - 1)
    ensures UpdateBlocks(e, hc, us, c, start, n).finalBlks == us.finalBlks + Range(start, n)
  {
    var x: nat := start + n - 1;
    var prev := UpdateBlocks(e, hc, us, c, start, n - 1);
    var r := UpdateBlocks(e, hc, us, c, start, n);
    assert r.finalBlks == UpdateBlockSpec(e, hc, prev, c, x).finalBlks;
    UpdateBlockFlags(e, hc, prev, c, x);
    assert r.finalBlks == prev.finalBlks + [x];
    RangeSnoc(start, n);
    assert us.finalBlks + Range(start, n - 1) + [x] == us.finalBlks + (Range(start, n - 1) + [x]);
  }

  /** The update pass's d1 loop appends its blocks to the final block list in order. */
  lemma {:induction false} UpdateBlocksList(e: Inputs, hc: seq<bool>, us: UpdateState, c: nat, start: nat, n: nat)
    requires ValidInputs(e) && UpdateFits(e, hc, us) && start + n <= |e.modes|
    ensures UpdateBlocks(e, hc, us, c, start, n).finalBlks == us.finalBlks + Range(start, n)
  {
    if n > 0 {
      UpdateBlocksList(e, hc, us, c, start, n - 1);
      UpdateBlocksListStep(e, hc, us, c, start, n);
    }
  }

  lemma UpdateBlocksSkipStep(e: Inputs, hc: seq<bool>, us: UpdateState, c: nat, start: nat, n: nat)
    requires ValidInputs(e) && UpdateFits(e, hc, us) && 0 < n && start + n <= |e.modes|
    requires UpdateBlocks(e, hc, us, c, start, n - 1).sbSkip == (us.sbSkip && NoCoeffIn(hc, Range(start, n - 1)))
    ensures UpdateBlocks(e, hc, us, c, start, n).sbSkip == (us.sbSkip && NoCoeffIn(hc, Range(start, n)))
  {
    var x: nat := start + n - 1;
    var prev := UpdateBlocks(e, hc, us, c, start, n - 1);
    var r := UpdateBlocks(e, hc, us, c, start, n);
    assert r.sbSkip == UpdateBlockSpec(e, hc, prev, c, x).sbSkip;
    UpdateBlockFlags(e, hc, prev, c, x);
    assert r.sbSkip == (prev.sbSkip && !hc[x]);
    NoCoeffRangeSnoc(hc, start, n);
  }

  /** The update pass's d1 loop keeps sb_skip only if none of its blocks has coefficients. */
  lemma {:induction false} UpdateBlocksSkip(e: Inputs, hc: seq<bool>, us: UpdateState, c: nat, start: nat, n: nat)
    requires ValidInputs(e) && UpdateFits(e, hc, us) && start + n <= |e.modes|
    ensures UpdateBlocks(e, hc, us, c, start, n).sbSkip == (us.sbSkip && NoCoeffIn(hc, Range(start, n)))
  {
    if n > 0 {
      UpdateBlocksSkip(e, hc, us, c, start, n - 1);
      UpdateBlocksSkipStep(e, hc, us, c, start, n);
    }
  }

  lemma UpdateBlocksIntraStep(e: Inputs, hc: seq<bool>, us: UpdateState, c: nat, start: nat, n: nat)
    requires ValidInputs(e) && UpdateFits(e, hc, us) && 0 < n && start + n <= |e.modes|
    requires UpdateBlocks(e, hc, us, c, start, n - 1).sbIntra == (us.sbIntra || IntraIn(e, Range(start, n - 1)))
    ensures UpdateBlocks(e, hc, us, c, start, n).sbIntra == (us.sbIntra || IntraIn(e, Range(start, n)))
  {
    var x: nat := start + n - 1;
    var prev := UpdateBlocks(e, hc, us, c, start, n - 1);
    var r := UpdateBlocks(e, hc, us, c, start, n);
    assert r.sbIntra == UpdateBlockSpec(e, hc, prev, c, x).sbIntra;
    UpdateBlockFlags(e, hc, prev, c, x);
    assert r.sbIntra == (prev.sbIntra || e.modes[x].modeFlag == IntraMode);
    IntraRangeSnoc(e, start, n);
  }

  /** The update pass's d1 loop marks the superblock intra if one of its blocks is intra. */
  lemma {:induction false} UpdateBlocksIntra(e: Inputs, hc: seq<bool>, us: UpdateState, c: nat, start: nat, n: nat)
    requires ValidInputs(e) && UpdateFits(e, hc, us) && start + n <= |e.modes|
    ensures UpdateBlocks(e, hc, us, c, start, n).sbIntra == (us.sbIntra || IntraIn(e, Range(start, n)))
  {
    if n > 0 {
      UpdateBlocksIntra(e, hc, us, c, start, n - 1);
      UpdateBlocksIntraStep(e, hc, us, c, start, n);
    }
  }

  lemma UpdateBlocksMvpStep(e: Inputs, hc: seq<bool>, us: UpdateState, c: nat, start: nat, n: nat)
    requires ValidInputs(e) && UpdateFits(e, hc, us) && 0 < n && start + n <= |e.modes|
    requires UpdateBlocks(e, hc, us, c, start, n - 1).sb64x64Mvp == (us.sb64x64Mvp || (c == 0 && MvpIn(e, Range(start, n - 1))))
    ensures UpdateBlocks(e, hc, us, c, start, n).sb64x64Mvp == (us.sb64x64Mvp || (c == 0 && MvpIn(e, Range(start, n))))
  {
    var x: nat := start + n - 1;
    var prev := UpdateBlocks(e, hc, us, c, start, n - 1);
    var r := UpdateBlocks(e, hc, us, c, start, n);
    assert r.sb64x64Mvp == UpdateBlockSpec(e, hc, prev, c, x).sb64x64Mvp;
    UpdateBlockFlags(e, hc, prev, c, x);
    assert r.sb64x64Mvp == (prev.sb64x64Mvp || (c == 0 && MvpBlock(e, x)));
    MvpRangeSnoc(e, start, n);
  }

  /** The update pass's d1 loop at cursor 0 sets the 64x64 MVP flag if one of its blocks is an MVP block. */
  lemma {:induction false} UpdateBlocksMvp(e: Inputs, hc: seq<bool>, us: UpdateState, c: nat, start: nat, n: nat)
    requires ValidInputs(e) && UpdateFits(e, hc, us) && start + n <= |e.modes|
    ensures UpdateBlocks(e, hc, us, c, start, n).sb64x64Mvp == (us.sb64x64Mvp || (c == 0 && MvpIn(e, Range(start, n))))
  {
    if n > 0 {
      UpdateBlocksMvp(e, hc, us, c, start, n - 1);
      UpdateBlocksMvpStep(e, hc, us, c, start, n);
    }
  }

  lemma UpdateBlocksCounterStep(e: Inputs, hc: seq<bool>, us: UpdateState, c: nat, start: nat, n: nat, t: Tally)
    requires ValidInputs(e) && UpdateFits(e, hc, us) && 0 < n && start + n <= |e.modes| && UpdateTally(t)
    requires Counter(UpdateBlocks(e, hc, us, c, start, n - 1), t) == Counter(us, t) + Total(e, hc, t, Range(start, n - 1))
    ensures Counter(UpdateBlocks(e, hc, us, c, start, n), t) == Counter(us, t) + Total(e, hc, t, Range(start, n))
  {
    var x: nat := start + n - 1;
    var prev := UpdateBlocks(e, hc, us, c, start, n - 1);
    var r := UpdateBlocks(e, hc, us, c, start, n);
    assert r == UpdateBlockSpec(e, hc, prev, c, x);
    UpdateBlockCounter(e, hc, prev, c, x, t);
    assert Counter(r, t) == Counter(prev, t) + Weight(e, hc, t, x);
    TotalRangeSnoc(e, hc, t, start, n);
  }

  /** The update pass's d1 loop adds its blocks' shares to each counter. */
  lemma {:induction false} UpdateBlocksCounter(e: Inputs, hc: seq<bool>, us: UpdateState, c: nat, start: nat, n: nat, t: Tally)
    requires ValidInputs(e) && UpdateFits(e, hc, us) && start + n <= |e.modes| && UpdateTally(t)
    ensures Counter(UpdateBlocks(e, hc, us, c, start, n), t) == Counter(us, t) + Total(e, hc, t, Range(start, n))
  {
    if n > 0 {
      UpdateBlocksCounter(e, hc, us, c, start, n - 1, t);
      UpdateBlocksCounterStep(e, hc, us, c, start, n, t);
    }
  }

  /** The state the update pass hands to the d1 loop of the node at c. */
  function NodeStart(e: Inputs, us: UpdateState, c: nat): UpdateState
    requires c < |us.cuPartition| && c < |us.mdsIdx| && Shaped(e.scan) && c < |e.scan.geom|
  {
    us.(cuPartition := us.cuPartition[c := e.scan.parts[c]], mdsIdx := us.mdsIdx[c := c])
  }

  /** The node at cursor c appends its d1 blocks, if any, to the final block list. */
  lemma UpdateNodeList(e: Inputs, hc: seq<bool>, us: UpdateState, c: nat)
    requires ValidInputs(e) && UpdateFits(e, hc, us) && c < |e.modes|
    ensures UpdateNode(e, hc, us, c).finalBlks == us.finalBlks + BlocksOf(e.scan, c)
  {
    if Coded(e.scan, c) {
      UpdateBlocksList(e, hc, NodeStart(e, us, c), c, D1Start(e.scan, c), D1Num(e.scan, c));
    }
  }

  /** From cursor c on, the update pass appends the coded blocks to the final block list in coding order. */
  lemma {:induction false} UpdateFromList(e: Inputs, hc: seq<bool>, us: UpdateState, c: nat)
    requires ValidInputs(e) && UpdateFits(e, hc, us)
    ensures UpdateFrom(e, hc, us, c).finalBlks == us.finalBlks + D1Blocks(e.scan, c)
    decreases |e.modes| - c
  {
    if c < |e.modes| {
      var n := Next(e.scan, c);
      var mid := UpdateNode(e, hc, us, c);
      assert UpdateFrom(e, hc, us, c) == UpdateFrom(e, hc, mid, n);
      UpdateFromList(e, hc, mid, n);
      UpdateNodeList(e, hc, us, c);
      assert D1Blocks(e.scan, c) == BlocksOf(e.scan, c) + D1Blocks(e.scan, n);
      assert mid.finalBlks + D1Blocks(e.scan, n) == us.finalBlks + (BlocksOf(e.scan, c) + D1Blocks(e.scan, n));
    }
  }

  /** From cursor c on, sb_skip survives only if no coded block has coefficients. */
  lemma {:induction false} UpdateFromSkip(e: Inputs, hc: seq<bool>, us: UpdateState, c: nat)
    requires ValidInputs(e) && UpdateFits(e, hc, us)
    ensures UpdateFrom(e, hc, us, c).sbSkip == (us.sbSkip && NoCoeffIn(hc, D1Blocks(e.scan, c)))
    decreases |e.modes| - c
  {
    if c < |e.modes| {
      var n := Next(e.scan, c);
      var mid := UpdateNode(e, hc, us, c);
      assert UpdateFrom(e, hc, us, c) == UpdateFrom(e, hc, mid, n);
      UpdateFromSkip(e, hc, mid, n);
      NoCoeffConcat(hc, BlocksOf(e.scan, c), D1Blocks(e.scan, n));
      if Coded(e.scan, c) {
        UpdateBlocksSkip(e, hc, NodeStart(e, us, c), c, D1Start(e.scan, c), D1Num(e.scan, c));
      }
    }
  }

  /** From cursor c on, sb_intra is set if some coded block is intra. */
  lemma {:induction false} UpdateFromIntra(e: Inputs, hc: seq<bool>, us: UpdateState, c: nat)
    requires ValidInputs(e) && UpdateFits(e, hc, us)
    ensures UpdateFrom(e, hc, us, c).sbIntra == (us.sbIntra || IntraIn(e, D1Blocks(e.scan, c)))
    decreases |e.modes| - c
  {
    if c < |e.modes| {
      var n := Next(e.scan, c);
      var mid := UpdateNode(e, hc, us, c);
      assert UpdateFrom(e, hc, us, c) == UpdateFrom(e, hc, mid, n);
      UpdateFromIntra(e, hc, mid, n);
      IntraConcat(e, BlocksOf(e.scan, c), D1Blocks(e.scan, n));
      if Coded(e.scan, c) {
        UpdateBlocksIntra(e, hc, NodeStart(e, us, c), c, D1Start(e.scan, c), D1Num(e.scan, c));
      }
    }
  }

  /** The d1 blocks of the node at cursor 0 (none when the block array is empty). */
  function RootBlocks(s: Scan): seq<nat>
    requires WellFormed(s)
  {
    if |s.geom| == 0 then [] else BlocksOf(s, 0)
  }

  /** From cursor c on, only the node at cursor 0 can set the 64x64 MVP flag. */
  lemma {:induction false} UpdateFromMvp(e: Inputs, hc: seq<bool>, us: UpdateState, c: nat)
    requires ValidInputs(e) && UpdateFits(e, hc, us)
    ensures UpdateFrom(e, hc, us, c).sb64x64Mvp == (us.sb64x64Mvp || (c == 0 && MvpIn(e, RootBlocks(e.scan))))
    decreases |e.modes| - c
  {
    if c < |e.modes| {
      var n := Next(e.scan, c);
      var mid := UpdateNode(e, hc, us, c);
      assert UpdateFrom(e, hc, us, c) == UpdateFrom(e, hc, mid, n);
      UpdateFromMvp(e, hc, mid, n);
      if Coded(e.scan, c) {
        UpdateBlocksMvp(e, hc, NodeStart(e, us, c), c, D1Start(e.scan, c), D1Num(e.scan, c));
      }
    }
  }

  /** From cursor c on, the update pass adds the coded blocks' shares to each counter. */
  lemma {:induction false} UpdateFromCounter(e: Inputs, hc: seq<bool>, us: UpdateState, c: nat, t: Tally)
    requires ValidInputs(e) && UpdateFits(e, hc, us) && UpdateTally(t)
    ensures Counter(UpdateFrom(e, hc, us, c), t) == Counter(us, t) + Total(e, hc, t, D1Blocks(e.scan, c))
    decreases |e.modes| - c
  {
    if c < |e.modes| {
      var n := Next(e.scan, c);
      var mid := UpdateNode(e, hc, us, c);
      assert UpdateFrom(e, hc, us, c) == UpdateFrom(e, hc, mid, n);
      UpdateFromCounter(e, hc, mid, n, t);
      TotalConcat(e, hc, t, BlocksOf(e.scan, c), D1Blocks(e.scan, n));
      if Coded(e.scan, c) {
        UpdateBlocksCounter(e, hc, NodeStart(e, us, c), c, D1Start(e.scan, c), D1Num(e.scan, c), t);
      }
    }
  }

  /** The superblock state av1_encdec_update starts its cursor walk from. */
  function UpdateStart(us: UpdateState): UpdateState
  {
    us.(codedAreaSb := 0, codedAreaSbUv := 0, sbIntra := false, sbSkip := true,
        sb64x64Mvp := false, sbCountNz := 0, finalBlks := [])
  }

  /**
   * After av1_encdec_update the final block list holds exactly the coded
   * d1 blocks, in coding order.
   */
  lemma EncDecUpdateFinalBlocks(e: Inputs, hc: seq<bool>, us: UpdateState)
    requires ValidInputs(e) && UpdateFits(e, hc, us)
    ensures EncDecUpdateSpec(e, hc, us).finalBlks == D1Blocks(e.scan, 0)
  {
    UpdateFromList(e, hc, UpdateStart(us), 0);
    assert [] + D1Blocks(e.scan, 0) == D1Blocks(e.scan, 0);
  }

  /** After av1_encdec_update sb_skip is set exactly when no coded block has coefficients. */
  lemma EncDecUpdateSkip(e: Inputs, hc: seq<bool>, us: UpdateState)
    requires ValidInputs(e) && UpdateFits(e, hc, us)
    ensures forall x :: x in D1Blocks(e.scan, 0) ==> x < |hc|
    ensures EncDecUpdateSpec(e, hc, us).sbSkip <==> forall x :: x in D1Blocks(e.scan, 0) ==> !hc[x]
  {
    var xs := D1Blocks(e.scan, 0);
    UpdateFromSkip(e, hc, UpdateStart(us), 0);
    D1BlocksIncreasing(e.scan, 0);
    forall x | x in xs
      ensures x < |hc|
    {
      var i :| 0 <= i < |xs| && xs[i] == x;
    }
  }

  /** After av1_encdec_update sb_intra is set exactly when some coded block is intra. */
  lemma EncDecUpdateIntra(e: Inputs, hc: seq<bool>, us: UpdateState)
    requires ValidInputs(e) && UpdateFits(e, hc, us)
    ensures EncDecUpdateSpec(e, hc, us).sbIntra <==>
      exists x :: x in D1Blocks(e.scan, 0) && x < |e.modes| && e.modes[x].modeFlag == IntraMode
  {
    var xs := D1Blocks(e.scan, 0);
    UpdateFromIntra(e, hc, UpdateStart(us), 0);
    if IntraIn(e, xs) {
      var i :| 0 <= i < |xs| && xs[i] < |e.modes| && e.modes[xs[i]].modeFlag == IntraMode;
      assert xs[i] in xs;
    }
  }

  /**
   * After av1_encdec_update sb_64x64_mvp is set exactly when a d1 block of
   * the node at cursor 0 is neither intra nor predicted with a new motion
   * vector.
   */
  lemma EncDecUpdateMvp(e: Inputs, hc: seq<bool>, us: UpdateState)
    requires ValidInputs(e) && UpdateFits(e, hc, us)
    ensures EncDecUpdateSpec(e, hc, us).sb64x64Mvp <==> exists x :: x in RootBlocks(e.scan) && MvpBlock(e, x)
  {
    var xs := RootBlocks(e.scan);
    UpdateFromMvp(e, hc, UpdateStart(us), 0);
    if MvpIn(e, xs) {
      var i :| 0 <= i < |xs| && MvpBlock(e, xs[i]);
      assert xs[i] in xs;
    }
  }

  /**
   * After av1_encdec_update the coded-area offsets are sums over the coded
   * blocks, and the running intra and skip areas
   * have grown by the areas of the coded blocks that are intra and that
   * have no coefficients.
   */
  lemma EncDecUpdateTotals(e: Inputs, hc: seq<bool>, us: UpdateState, t: Tally)
    requires ValidInputs(e) && UpdateFits(e, hc, us) && UpdateTally(t)
    ensures Counter(EncDecUpdateSpec(e, hc, us), t) ==
      (if t == IntraArea || t == SkipArea then Counter(us, t) else 0) + Total(e, hc, t, D1Blocks(e.scan, 0))
  {
    UpdateFromCounter(e, hc, UpdateStart(us), 0, t);
  }

  /* ------------------------------------------------------------------ */
  /*  sb_count_nz_coeffs                                                 */
  /* ------------------------------------------------------------------ */

  /** MD's non-zero counts of the local block units that the blocks xs name through ms, their mds_idx entries. */
  function NzSum(e: Inputs, ms: seq<nat>, xs: seq<nat>): nat
    decreases |xs|
  {
    if |xs| == 0 then 0
    else
      var x := xs[|xs| - 1];
      NzSum(e, ms, xs[..|xs| - 1]) + (if x < |ms| then e.mdCount(ms[x]) else 0)
  }

  /**
   * The count from cursor c on, node by node: each coded d1 block adds MD's
   * count at its mds_idx entry as the pass reads it, which is the node's
   * own index for the node's entry, just set by the pass, and the entry in
   * ms for every later block.
   */
  function NzFrom(e: Inputs, ms: seq<nat>, c: nat): nat
    requires ValidInputs(e) && |ms| == |e.modes|
    decreases |e.modes| - c
  {
    if c >= |e.modes| then 0 else NzSum(e, ms[c := c], BlocksOf(e.scan, c)) + NzFrom(e, ms, Next(e.scan, c))
  }

  lemma NzSumSnoc(e: Inputs, ms: seq<nat>, xs: seq<nat>, y: nat)
    ensures NzSum(e, ms, xs + [y]) == NzSum(e, ms, xs) + (if y < |ms| then e.mdCount(ms[y]) else 0)
  {
    assert (xs + [y])[..|xs|] == xs;
  }

  /** Two mds_idx arrays that agree on the blocks xs give the same sum. */
  lemma {:induction false} NzSumAgree(e: Inputs, ms: seq<nat>, ms': seq<nat>, xs: seq<nat>)
    requires |ms| == |ms'|
    requires forall k :: 0 <= k < |xs| && xs[k] < |ms| ==> ms[xs[k]] == ms'[xs[k]]
    ensures NzSum(e, ms, xs) == NzSum(e, ms', xs)
    decreases |xs|
  {
    if |xs| > 0 {
      var init := xs[..|xs| - 1];
      assert forall k :: 0 <= k < |init| ==> init[k] == xs[k];
      NzSumAgree(e, ms, ms', init);
    }
  }

  /** A sum over two lists of blocks is the sum of their sums. */
  lemma {:induction false} NzSumConcat(e: Inputs, ms: seq<nat>, xs: seq<nat>, ys: seq<nat>)
    ensures NzSum(e, ms, xs + ys) == NzSum(e, ms, xs) + NzSum(e, ms, ys)
    decreases |ys|
  {
    if |ys| > 0 {
      var init := ys[..|ys| - 1];
      var y := ys[|ys| - 1];
      assert xs + ys == (xs + init) + [y];
      assert ys == init + [y];
      NzSumConcat(e, ms, xs, init);
      NzSumSnoc(e, ms, xs + init, y);
      NzSumSnoc(e, ms, init, y);
    } else {
      assert xs + ys == xs;
    }
  }

  /** One block of the update pass leaves mds_idx alone and adds MD's count at the block's entry. */
  lemma UpdateBlockNz(e: Inputs, hc: seq<bool>, us: UpdateState, c: nat, x: nat)
    requires ValidInputs(e) && UpdateFits(e, hc, us) && x < |e.modes|
    ensures UpdateBlockSpec(e, hc, us, c, x).mdsIdx == us.mdsIdx
    ensures UpdateBlockSpec(e, hc, us, c, x).sbCountNz == us.sbCountNz + e.mdCount(us.mdsIdx[x])
  {
  }

  lemma UpdateBlocksNzStep(e: Inputs, hc: seq<bool>, us: UpdateState, c: nat, start: nat, n: nat)
    requires ValidInputs(e) && UpdateFits(e, hc, us) && 0 < n && start + n <= |e.modes|
    requires UpdateBlocks(e, hc, us, c, start, n - 1).mdsIdx == us.mdsIdx
    requires UpdateBlocks(e, hc, us, c, start, n - 1).sbCountNz == us.sbCountNz + NzSum(e, us.mdsIdx, Range(start, n - 1))
    ensures UpdateBlocks(e, hc, us, c, start, n).mdsIdx == us.mdsIdx
    ensures UpdateBlocks(e, hc, us, c, start, n).sbCountNz == us.sbCountNz + NzSum(e, us.mdsIdx, Range(start, n))
  {
    var x: nat := start + n - 1;
    var prev := UpdateBlocks(e, hc, us, c, start, n - 1);
    var r := UpdateBlocks(e, hc, us, c, start, n);
    assert r == UpdateBlockSpec(e, hc, prev, c, x);
    UpdateBlockNz(e, hc, prev, c, x);
    RangeSnoc(start, n);
    NzSumSnoc(e, us.mdsIdx, Range(start, n - 1), x);
  }

  /** The update pass's d1 loop leaves mds_idx alone and adds MD's counts at its blocks' mds_idx entries. */
  lemma {:induction false} UpdateBlocksNz(e: Inputs, hc: seq<bool>, us: UpdateState, c: nat, start: nat, n: nat)
    requires ValidInputs(e) && UpdateFits(e, hc, us) && start + n <= |e.modes|
    ensures UpdateBlocks(e, hc, us, c, start, n).mdsIdx == us.mdsIdx
    ensures UpdateBlocks(e, hc, us, c, start, n).sbCountNz == us.sbCountNz + NzSum(e, us.mdsIdx, Range(start, n))
  {
    if n > 0 {
      UpdateBlocksNz(e, hc, us, c, start, n - 1);
      UpdateBlocksNzStep(e, hc, us, c, start, n);
    }
  }

  /** The node at cursor c sets its own mds_idx entry and adds MD's counts at its blocks' entries. */
  lemma UpdateNodeNz(e: Inputs, hc: seq<bool>, us: UpdateState, c: nat)
    requires ValidInputs(e) && UpdateFits(e, hc, us) && c < |e.modes|
    ensures UpdateNode(e, hc, us, c).mdsIdx == us.mdsIdx[c := c]
    ensures UpdateNode(e, hc, us, c).sbCountNz == us.sbCountNz + NzSum(e, us.mdsIdx[c := c], BlocksOf(e.scan, c))
  {
    if Coded(e.scan, c) {
      UpdateBlocksNz(e, hc, NodeStart(e, us, c), c, D1Start(e.scan, c), D1Num(e.scan, c));
    }
  }

  /**
   * From cursor c on, the update pass adds NzFrom(e, ms, c) to
   * sb_count_nz_coeffs, where ms holds the mds_idx entries the pass finds
   * at c and beyond.
   */
  lemma {:induction false} UpdateFromNz(e: Inputs, hc: seq<bool>, us: UpdateState, c: nat, ms: seq<nat>)
    requires ValidInputs(e) && UpdateFits(e, hc, us) && |ms| == |e.modes|
    requires forall y :: c <= y < |ms| ==> us.mdsIdx[y] == ms[y]
    ensures UpdateFrom(e, hc, us, c).sbCountNz == us.sbCountNz + NzFrom(e, ms, c)
    decreases |e.modes| - c
  {
    if c < |e.modes| {
      var n := Next(e.scan, c);
      var mid := UpdateNode(e, hc, us, c);
      assert UpdateFrom(e, hc, us, c) == UpdateFrom(e, hc, mid, n);
      UpdateNodeNz(e, hc, us, c);
      var bs := BlocksOf(e.scan, c);
      forall k | 0 <= k < |bs| && bs[k] < |ms|
        ensures us.mdsIdx[c := c][bs[k]] == ms[c := c][bs[k]]
      {
        assert bs[k] >= c;
      }
      NzSumAgree(e, us.mdsIdx[c := c], ms[c := c], bs);
      UpdateFromNz(e, hc, mid, n, ms);
    }
  }

  /**
   * After av1_encdec_update sb_count_nz_coeffs is the sum, over the coded
   * d1 blocks, of MD's non-zero count at each block's mds_idx entry as the
   * pass reads it (see NzFrom).
   */
  lemma EncDecUpdateNzCount(e: Inputs, hc: seq<bool>, us: UpdateState)
    requires ValidInputs(e) && UpdateFits(e, hc, us)
    ensures EncDecUpdateSpec(e, hc, us).sbCountNz == NzFrom(e, us.mdsIdx, 0)
  {
    UpdateFromNz(e, hc, UpdateStart(us), 0, us.mdsIdx);
  }

  /** With every mds_idx entry from c on equal to its own index, the count from c on adds MD's counts at those entries. */
  lemma {:induction false} NzFromIdentity(e: Inputs, ms: seq<nat>, c: nat)
    requires ValidInputs(e) && |ms| == |e.modes|
    requires forall y :: c <= y < |ms| ==> ms[y] == y
    ensures NzFrom(e, ms, c) == NzSum(e, ms, D1Blocks(e.scan, c))
    decreases |e.modes| - c
  {
    if c < |e.modes| {
      var n := Next(e.scan, c);
      var bs := BlocksOf(e.scan, c);
      forall k | 0 <= k < |bs| && bs[k] < |ms|
        ensures ms[c := c][bs[k]] == ms[bs[k]]
      {
        assert bs[k] >= c;
      }
      NzSumAgree(e, ms[c := c], ms, bs);
      NzFromIdentity(e, ms, n);
      NzSumConcat(e, ms, bs, D1Blocks(e.scan, n));
    }
  }

  /**
   * When every block's mds_idx already is its md-scan index,
   * sb_count_nz_coeffs after av1_encdec_update is the sum of MD's counts of
   * the coded d1 blocks.
   */
  lemma EncDecUpdateNzCountIdentity(e: Inputs, hc: seq<bool>, us: UpdateState)
    requires ValidInputs(e) && UpdateFits(e, hc, us)
    requires forall y :: 0 <= y < |us.mdsIdx| ==> us.mdsIdx[y] == y
    ensures EncDecUpdateSpec(e, hc, us).sbCountNz == NzSum(e, us.mdsIdx, D1Blocks(e.scan, 0))
  {
    EncDecUpdateNzCount(e, hc, us);
    NzFromIdentity(e, us.mdsIdx, 0);
  }
}
