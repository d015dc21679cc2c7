/**
 * Per-transform-unit result bookkeeping of the encode/decode pass: what
 * av1_encode_loop records after the (external) transform and quantiser,
 * when av1_encode_generate_recon lets the (external) inverse transform add
 * its residual to the prediction, and how the intra and inter coding loops
 * walk the transform units, add up the coded areas and reduce the
 * per-unit flags to the block's root "has coefficients" flag.
 *
 * The 8-bit and 16-bit variants of the encode loop and of the
 * reconstruction step keep the same books; one operation models both.
 */
module CodingLoop {
  import opened Geometry

  datatype Plane = Y | U | V

  /** One value per colour plane (luma, Cb, Cr). */
  datatype Planes<T> = Planes(y: T, u: T, v: T)
  {
    function Get(p: Plane): T
    {
      match p
      case Y => y
      case U => u
      case V => v
    }
  }

  /** prediction_mode_flag; any value other than intra or inter is a coding error. */
  datatype ModeFlag = IntraMode | InterMode | InvalidMode

  /** The component masks the coding loops pass: full, luma only, chroma only. */
  datatype ComponentMask = LumaMask | ChromaMask | FullMask

  /** The planes a component mask selects. */
  predicate Codes(m: ComponentMask, p: Plane)
  {
    if p == Y then m == FullMask || m == LumaMask else m == FullMask || m == ChromaMask
  }

  /** DCT_DCT, transform type 0 of the AV1 TxType enumeration. */
  const DctDct: nat := 0

  /** nz_coef_count is a 16-bit field: the count is stored modulo 2^16. */
  const Uint16Modulus: nat := 0x1_0000

  /** What the external quantiser reports for one plane of one unit: end of block, non-zero count, quantised DC. */
  datatype QuantResult = QuantResult(eob: nat, count: nat, dc: int)

  /**
   * Everything kept about one transform unit: its transform types and
   * stored non-zero counts (txb_array), its has-coefficient flags and
   * quantised DC values (md_local_blk_unit), the count and end-of-block the
   * coding loop received, and the unit's area of the prediction buffer that
   * reconstruction writes in place.
   */
  datatype TuRecord = TuRecord(
    txTypeY: nat, txTypeUv: nat,
    nzCoefCount: Planes<nat>,
    hasCoeff: Planes<bool>,
    quantizedDc: Planes<int>,
    count: Planes<nat>,
    eob: Planes<nat>,
    samples: Planes<seq<int>>)

  /**
   * The mode decision of a block (fields of BlkStruct that the passes read
   * and never write). The fields the passes write, and the partition the
   * cursor walk reads, are kept per md-scan index by the passes.
   */
  datatype Blk = Blk(
    modeFlag: ModeFlag,
    useIntrabc: bool,
    skipFlag: bool,
    txDepth: nat,
    newMv: bool,               // pred_mode is NEWMV or NEW_NEWMV
    cflChroma: bool)           // intra_chroma_mode is UV_CFL_PRED

  predicate ValidBlk(b: Blk)
  {
    b.txDepth <= MaxVartxDepth
  }

  /** The encode loop rewrites a unit's chroma prediction with chroma from luma: intra blocks whose chroma mode is UV_CFL_PRED. */
  predicate CflOn(b: Blk)
  {
    b.modeFlag == IntraMode && b.cflChroma
  }

  /**
   * What the external chroma-from-luma predictor writes over one unit's Cb
   * and Cr prediction (from the subsampled luma, its average and the
   * block's alpha values).
   */
  datatype CflPred = CflPred(u: seq<int>, v: seq<int>)
  {
    function Get(p: Plane): seq<int>
      requires p != Y
    {
      if p == U then u else v
    }
  }

  /** is_inter of the encode loop: inter blocks and intra-block-copy blocks. */
  predicate InterLike(b: Blk)
  {
    b.modeFlag == InterMode || b.useIntrabc
  }

  /** What a coded plane records: the quantiser's result, or zeros when MD decided to skip. */
  function Outcome(mdSkip: bool, q: QuantResult): QuantResult
  {
    if mdSkip then QuantResult(0, 0, 0) else q
  }

  /** Plane p of r holds result o: count, eob and DC, the flag "count is non-zero", the 16-bit count. */
  predicate Recorded(r: TuRecord, p: Plane, o: QuantResult)
  {
    && r.count.Get(p) == o.count
    && r.eob.Get(p) == o.eob
    && r.quantizedDc.Get(p) == o.dc
    && (r.hasCoeff.Get(p) <==> o.count != 0)
    && r.nzCoefCount.Get(p) == o.count % Uint16Modulus
  }

  /** Plane p of r is as in t. */
  predicate SamePlane(r: TuRecord, t: TuRecord, p: Plane)
  {
    && r.count.Get(p) == t.count.Get(p)
    && r.eob.Get(p) == t.eob.Get(p)
    && r.quantizedDc.Get(p) == t.quantizedDc.Get(p)
    && r.hasCoeff.Get(p) == t.hasCoeff.Get(p)
    && r.nzCoefCount.Get(p) == t.nzCoefCount.Get(p)
  }

  function RecordLuma(t: TuRecord, o: QuantResult, interLike: bool): TuRecord
  {
    t.(count := t.count.(y := o.count),
       eob := t.eob.(y := o.eob),
       quantizedDc := t.quantizedDc.(y := o.dc),
       hasCoeff := t.hasCoeff.(y := o.count != 0),
       nzCoefCount := t.nzCoefCount.(y := o.count % Uint16Modulus),
       txTypeY := if o.count == 0 then DctDct else t.txTypeY,
       txTypeUv := if o.count == 0 && interLike then DctDct else t.txTypeUv)
  }

  function RecordChroma(t: TuRecord, ou: QuantResult, ov: QuantResult): TuRecord
  {
    t.(count := t.count.(u := ou.count, v := ov.count),
       eob := t.eob.(u := ou.eob, v := ov.eob),
       quantizedDc := t.quantizedDc.(u := ou.dc, v := ov.dc),
       hasCoeff := t.hasCoeff.(u := ou.count != 0, v := ov.count != 0),
       nzCoefCount := t.nzCoefCount.(u := ou.count % Uint16Modulus, v := ov.count % Uint16Modulus))
  }

  /** The chroma branch first lets chroma from luma rewrite the Cb and Cr prediction. */
  function CflWrite(t: TuRecord, cflOn: bool, cfl: CflPred): TuRecord
  {
    if cflOn then t.(samples := t.samples.(u := cfl.u, v := cfl.v)) else t
  }

  /** The books av1_encode_loop keeps for one unit; EncodeTuContract states what they are. */
  function EncodeTu(t: TuRecord, mask: ComponentMask, mdSkip: bool, interLike: bool, q: Planes<QuantResult>,
                    cflOn: bool, cfl: CflPred): TuRecord
  {
    var t1 := if Codes(mask, Y) then RecordLuma(t, Outcome(mdSkip, q.y), interLike) else t;
    if Codes(mask, U) then RecordChroma(CflWrite(t1, cflOn, cfl), Outcome(mdSkip, q.u), Outcome(mdSkip, q.v)) else t1
  }

  /**
   * Each plane the mask selects records the quantiser's count, end of block
   * and DC, or zeros under the MD skip decision; its flag is set exactly
   * when that count is non-zero and its stored count is the count modulo
   * 2^16. A luma count of zero forces the luma transform type to DCT_DCT,
   * and also the chroma one for inter and intra-block-copy blocks; the
   * chroma branch never changes a type. Planes the mask leaves out are
   * untouched. The luma samples are never written; when the mask selects
   * chroma and the block predicts chroma from luma, the Cb and Cr samples
   * become the chroma-from-luma prediction (whatever the MD skip
   * decision), and otherwise they are untouched too.
   */
  lemma EncodeTuContract(t: TuRecord, mask: ComponentMask, mdSkip: bool, interLike: bool, q: Planes<QuantResult>,
                         cflOn: bool, cfl: CflPred)
    ensures var r := EncodeTu(t, mask, mdSkip, interLike, q, cflOn, cfl);
      && (forall p :: Codes(mask, p) ==> Recorded(r, p, Outcome(mdSkip, q.Get(p))))
      && (forall p :: Codes(mask, p) ==>
            (r.hasCoeff.Get(p) <==> r.count.Get(p) != 0) && r.nzCoefCount.Get(p) == r.count.Get(p) % Uint16Modulus)
      && (forall p :: !Codes(mask, p) ==> SamePlane(r, t, p))
      && (mdSkip ==> forall p :: Codes(mask, p) ==>
            r.count.Get(p) == 0 && r.eob.Get(p) == 0 && r.quantizedDc.Get(p) == 0 && !r.hasCoeff.Get(p))
      && (Codes(mask, Y) && r.count.y == 0 ==> r.txTypeY == DctDct)
      && (Codes(mask, Y) && r.count.y == 0 && interLike ==> r.txTypeUv == DctDct)
      && (!(Codes(mask, Y) && r.count.y == 0) ==> r.txTypeY == t.txTypeY && r.txTypeUv == t.txTypeUv)
      && (!interLike ==> r.txTypeUv == t.txTypeUv)
      && r.samples.y == t.samples.y
      && (Codes(mask, U) && cflOn ==> r.samples.u == cfl.u && r.samples.v == cfl.v)
      && (!(Codes(mask, U) && cflOn) ==> r.samples == t.samples)
  {
  }

  /** Inverse transform and add runs on plane p: selected by the mask, the plane has coefficients, the block is not skipped. */
  predicate ReconRuns(skip: bool, t: TuRecord, mask: ComponentMask, p: Plane)
  {
    Codes(mask, p) && t.hasCoeff.Get(p) && !skip
  }

  /** av1_encode_generate_recon for one unit; ReconTuContract states what it does. */
  function ReconTu(skip: bool, t: TuRecord, mask: ComponentMask, inv: Planes<seq<int>>): TuRecord
  {
    t.(samples := Planes(
         if ReconRuns(skip, t, mask, Y) then inv.y else t.samples.y,
         if ReconRuns(skip, t, mask, U) then inv.u else t.samples.u,
         if ReconRuns(skip, t, mask, V) then inv.v else t.samples.v))
  }

  /**
   * A plane's samples become the output of the inverse transform and add
   * exactly when it runs on that plane; otherwise the prediction stays as
   * it was. Nothing else in the unit changes.
   */
  lemma ReconTuContract(skip: bool, t: TuRecord, mask: ComponentMask, inv: Planes<seq<int>>)
    ensures var r := ReconTu(skip, t, mask, inv);
      && (forall p :: ReconRuns(skip, t, mask, p) ==> r.samples.Get(p) == inv.Get(p))
      && (forall p :: !ReconRuns(skip, t, mask, p) ==> r.samples.Get(p) == t.samples.Get(p))
      && r.(samples := t.samples) == t
  {
  }

  /** The inter loop's skip branch: all three flags false and all three DC values 0. */
  function SkipTu(t: TuRecord): TuRecord
  {
    t.(hasCoeff := Planes(false, false, false), quantizedDc := Planes(0, 0, 0))
  }

  /** The component mask both coding steps of an inter-loop unit use. */
  function InterMask(g: BlockGeom, txDepth: nat, tu: nat): ComponentMask
  {
    if g.hasUv && UvPass(txDepth, tu) then FullMask else LumaMask
  }

  /* ------------------------------------------------------------------ */
  /*  Root flag                                                          */
  /* ------------------------------------------------------------------ */

  /** Unit i's flag for plane p counts towards the root flag: luma always, chroma on chroma-carrying units of a block with chroma. */
  predicate Counts(t: TuRecord, p: Plane, i: nat, txDepth: nat, hasUv: bool)
  {
    t.hasCoeff.Get(p) && (p == Y || (hasUv && UvPass(txDepth, i)))
  }

  /** Unit i has luma coefficients, or carries chroma in a block with chroma and has Cb or Cr coefficients. */
  predicate UnitHasCoeff(t: TuRecord, i: nat, txDepth: nat, hasUv: bool)
  {
    t.hasCoeff.y || (hasUv && UvPass(txDepth, i) && (t.hasCoeff.u || t.hasCoeff.v))
  }

  /** The OR-accumulator of plane p over the first n units. */
  function AnyPlane(ts: seq<TuRecord>, p: Plane, n: nat, txDepth: nat, hasUv: bool): bool
    requires n <= |ts|
  {
    n > 0 && (AnyPlane(ts, p, n - 1, txDepth, hasUv) || Counts(ts[n - 1], p, n - 1, txDepth, hasUv))
  }

  /** block_has_coeff of the coding loops: y|u|v with chroma, y alone without. */
  function RootFlag(ts: seq<TuRecord>, n: nat, txDepth: nat, hasUv: bool): bool
    requires n <= |ts|
  {
    if hasUv then AnyPlane(ts, Y, n, txDepth, hasUv) || AnyPlane(ts, U, n, txDepth, hasUv) || AnyPlane(ts, V, n, txDepth, hasUv)
    else AnyPlane(ts, Y, n, txDepth, hasUv)
  }

  lemma {:induction false} AnyPlaneIff(ts: seq<TuRecord>, p: Plane, n: nat, txDepth: nat, hasUv: bool)
    requires n <= |ts|
    ensures AnyPlane(ts, p, n, txDepth, hasUv) <==> exists i :: 0 <= i < n && Counts(ts[i], p, i, txDepth, hasUv)
  {
    if n > 0 {
      AnyPlaneIff(ts, p, n - 1, txDepth, hasUv);
    }
  }

  /**
   * The root flag is set exactly when some unit has luma coefficients, or,
   * in a block with chroma, some chroma-carrying unit has Cb or Cr
   * coefficients.
   */
  lemma RootFlagIff(ts: seq<TuRecord>, n: nat, txDepth: nat, hasUv: bool)
    requires n <= |ts|
    ensures RootFlag(ts, n, txDepth, hasUv) <==> exists i :: 0 <= i < n && UnitHasCoeff(ts[i], i, txDepth, hasUv)
  {
    AnyPlaneIff(ts, Y, n, txDepth, hasUv);
    AnyPlaneIff(ts, U, n, txDepth, hasUv);
    AnyPlaneIff(ts, V, n, txDepth, hasUv);
    if RootFlag(ts, n, txDepth, hasUv) {
      var i :| 0 <= i < n && (Counts(ts[i], Y, i, txDepth, hasUv) || Counts(ts[i], U, i, txDepth, hasUv) || Counts(ts[i], V, i, txDepth, hasUv));
      assert UnitHasCoeff(ts[i], i, txDepth, hasUv);
    }
    if exists i :: 0 <= i < n && UnitHasCoeff(ts[i], i, txDepth, hasUv) {
      var i :| 0 <= i < n && UnitHasCoeff(ts[i], i, txDepth, hasUv);
      assert Counts(ts[i], Y, i, txDepth, hasUv) || Counts(ts[i], U, i, txDepth, hasUv) || Counts(ts[i], V, i, txDepth, hasUv);
    }
  }

  /** The accumulators only look at the first n units. */
  lemma {:induction false} AnyPlaneFrame(ts: seq<TuRecord>, us: seq<TuRecord>, p: Plane, n: nat, txDepth: nat, hasUv: bool)
    requires n <= |ts| && n <= |us|
    requires forall i :: 0 <= i < n ==> ts[i] == us[i]
    ensures AnyPlane(ts, p, n, txDepth, hasUv) == AnyPlane(us, p, n, txDepth, hasUv)
  {
    if n > 0 {
      AnyPlaneFrame(ts, us, p, n - 1, txDepth, hasUv);
    }
  }
  /* ------------------------------------------------------------------ */
  /*  The coding loops as functions of the coder's state                 */
  /* ------------------------------------------------------------------ */

  /**
   * The part of EncDecContext the coding loops keep: the block being coded
   * (*blk_ptr together with its md_local_blk_unit entry), the current unit
   * txb_itr, the MD skip decision md_skip_blk and the running offsets
   * coded_area_sb / coded_area_sb_uv into the superblock's coefficient
   * buffers.
   */
  datatype CoderState = CoderState(
    blk: Blk, tus: seq<TuRecord>, blockHasCoeff: bool,
    txbItr: nat, mdSkipBlk: bool, codedAreaSb: nat, codedAreaSbUv: nat)

  /** The block's transform depth is in range and it has room for 16 units. */
  predicate ValidState(st: CoderState)
  {
    ValidBlk(st.blk) && |st.tus| == MaxTxbCount
  }

  /** The two transform-unit loops: the luma loop of the intra coding loop and the loop of the inter coding loop. */
  datatype LoopKind = IntraLumaLoop | InterLoop

  /**
   * What an iteration of a transform-unit loop reads besides the unit: the
   * loop, the block geometry, the block's skip flag, whether it is inter or
   * intra block copy, the MD skip decision, the transform depth, and the
   * external quantiser and inverse-transform results per unit.
   */
  datatype UnitCtx = UnitCtx(kind: LoopKind, g: BlockGeom, skip: bool, interLike: bool, cflOn: bool, mdSkip: bool, txDepth: nat,
                             quant: nat -> Planes<QuantResult>, inv: nat -> Planes<seq<int>>, cfl: nat -> CflPred)

  function LoopCtx(kind: LoopKind, st: CoderState, g: BlockGeom, quant: nat -> Planes<QuantResult>,
                   inv: nat -> Planes<seq<int>>, cfl: nat -> CflPred): UnitCtx
  {
    UnitCtx(kind, g, st.blk.skipFlag, InterLike(st.blk), CflOn(st.blk), st.mdSkipBlk, st.blk.txDepth, quant, inv, cfl)
  }

  /** The mask both coding steps of unit tu use: luma only in the intra luma loop. */
  function UnitMask(c: UnitCtx, tu: nat): ComponentMask
  {
    if c.kind == InterLoop then InterMask(c.g, c.txDepth, tu) else LumaMask
  }

  /**
   * Unit tu after its iteration: the inter loop's skip branch for a skipped
   * block, the encode loop otherwise, then the reconstruction step with the
   * same mask.
   */
  function UnitRecord(c: UnitCtx, tu: nat, t: TuRecord): TuRecord
  {
    var mask := UnitMask(c, tu);
    var coded := if c.kind == InterLoop && c.skip then SkipTu(t) else EncodeTu(t, mask, c.mdSkip, c.interLike, c.quant(tu), c.cflOn, c.cfl(tu));
    ReconTu(c.skip, coded, mask, c.inv(tu))
  }

  /** The units after the first n iterations: each of them as its iteration left it, the rest as they were. */
  function LoopUnits(c: UnitCtx, ts: seq<TuRecord>, n: nat): (r: seq<TuRecord>)
    ensures |r| == |ts|
  {
    seq(|ts|, i requires 0 <= i < |ts| => if i < n then UnitRecord(c, i, ts[i]) else ts[i])
  }

  /** One more iteration extends the closed form by one unit. */
  lemma LoopUnitsStep(c: UnitCtx, ts: seq<TuRecord>, n: nat)
    requires n < |ts|
    ensures LoopUnits(c, ts, n)[n := UnitRecord(c, n, ts[n])] == LoopUnits(c, ts, n + 1)
  {
    var a := LoopUnits(c, ts, n)[n := UnitRecord(c, n, ts[n])];
    var b := LoopUnits(c, ts, n + 1);
    forall i | 0 <= i < |ts|
      ensures a[i] == b[i]
    {
    }
  }

  /** Chroma area the iteration of unit tu adds: only the inter loop adds any, on chroma-carrying units. */
  function UnitAreaUv(kind: LoopKind, g: BlockGeom, d: nat, tu: nat): nat
    requires ValidTxLayout(g) && d <= MaxVartxDepth && tu < MaxTxbCount
  {
    if kind == InterLoop && g.hasUv && UvPass(d, tu) then TuAreaUv(g, d, tu) else 0
  }

  /** Number of transform units of the block: txb_count[tx_depth]. */
  function TotTu(g: BlockGeom, b: Blk): nat
    requires ValidBlk(b) && ValidTxLayout(g)
  {
    g.txbCount[b.txDepth]
  }

  /* ------------------------------------------------------------------ */
  /*  perform_inter_coding_loop                                          */
  /* ------------------------------------------------------------------ */

  /** The three has-coefficient flags of unit 0 are cleared before the inter transform loop. */
  function ClearFlags(t: TuRecord): TuRecord
  {
    t.(hasCoeff := Planes(false, false, false))
  }

  /** The units as the inter transform loop finds them. */
  function InterStartUnits(ts: seq<TuRecord>): seq<TuRecord>
    requires |ts| == MaxTxbCount
  {
    ts[0 := ClearFlags(ts[0])]
  }

  /**
   * perform_inter_coding_loop: the transform loop over all units, then
   * block_has_coeff from the OR-accumulators; the coded areas grow by the
   * block's luma area and by the chroma area of its chroma-carrying units,
   * and txb_itr is left on the last unit.
   */
  function InterLoopSpec(st: CoderState, g: BlockGeom, quant: nat -> Planes<QuantResult>,
                         inv: nat -> Planes<seq<int>>, cfl: nat -> CflPred): CoderState
    requires ValidState(st) && ValidTxLayout(g)
  {
    var tot := TotTu(g, st.blk);
    var d := st.blk.txDepth;
    var us := LoopUnits(LoopCtx(InterLoop, st, g, quant, inv, cfl), InterStartUnits(st.tus), tot);
    st.(txbItr := tot - 1, tus := us, blockHasCoeff := RootFlag(us, tot, d, g.hasUv),
        codedAreaSb := st.codedAreaSb + LumaArea(g, d, tot),
        codedAreaSbUv := st.codedAreaSbUv + ChromaArea(g, d, tot))
  }

  /** A coder state whose fields are those the inter coding loop computes is the loop's result. */
  lemma InterLoopResult(st: CoderState, g: BlockGeom, quant: nat -> Planes<QuantResult>, inv: nat -> Planes<seq<int>>, cfl: nat -> CflPred,
                        r: CoderState)
    requires ValidState(st) && ValidTxLayout(g)
    requires r.blk == st.blk && r.mdSkipBlk == st.mdSkipBlk
    requires r.tus == LoopUnits(LoopCtx(InterLoop, st, g, quant, inv, cfl), InterStartUnits(st.tus), TotTu(g, st.blk))
    requires r.blockHasCoeff == RootFlag(r.tus, TotTu(g, st.blk), st.blk.txDepth, g.hasUv)
    requires r.txbItr == TotTu(g, st.blk) - 1
    requires r.codedAreaSb == st.codedAreaSb + LumaArea(g, st.blk.txDepth, TotTu(g, st.blk))
    requires r.codedAreaSbUv == st.codedAreaSbUv + ChromaArea(g, st.blk.txDepth, TotTu(g, st.blk))
    ensures r == InterLoopSpec(st, g, quant, inv, cfl)
  {
  }

  /**
   * The root flag of an inter block is set exactly when, after the loop,
   * some unit has luma coefficients or, with chroma, some chroma-carrying
   * unit has Cb or Cr coefficients.
   */
  lemma InterLoopRootFlag(st: CoderState, g: BlockGeom, quant: nat -> Planes<QuantResult>, inv: nat -> Planes<seq<int>>, cfl: nat -> CflPred)
    requires ValidState(st) && ValidTxLayout(g)
    ensures var r := InterLoopSpec(st, g, quant, inv, cfl);
      r.blockHasCoeff <==>
        exists i :: 0 <= i < TotTu(g, st.blk) && UnitHasCoeff(r.tus[i], i, st.blk.txDepth, g.hasUv)
  {
    var r := InterLoopSpec(st, g, quant, inv, cfl);
    RootFlagIff(r.tus, TotTu(g, st.blk), st.blk.txDepth, g.hasUv);
  }

  /**
   * With skip_flag set, every unit of the block ends with all three flags
   * false and all three DC values 0, no plane is reconstructed, and the
   * block has no coefficients.
   */
  lemma InterLoopSkip(st: CoderState, g: BlockGeom, quant: nat -> Planes<QuantResult>, inv: nat -> Planes<seq<int>>, cfl: nat -> CflPred, i: nat)
    requires ValidState(st) && ValidTxLayout(g) && st.blk.skipFlag && i < TotTu(g, st.blk)
    ensures var r := InterLoopSpec(st, g, quant, inv, cfl);
      && !r.blockHasCoeff
      && r.tus[i].hasCoeff == Planes(false, false, false)
      && r.tus[i].quantizedDc == Planes(0, 0, 0)
      && r.tus[i].samples == st.tus[i].samples
  {
    var r := InterLoopSpec(st, g, quant, inv, cfl);
    var tot := TotTu(g, st.blk);
    var c := LoopCtx(InterLoop, st, g, quant, inv, cfl);
    var ts := InterStartUnits(st.tus);
    forall j | 0 <= j < tot
      ensures r.tus[j] == ReconTu(true, SkipTu(ts[j]), UnitMask(c, j), c.inv(j))
      ensures !UnitHasCoeff(r.tus[j], j, st.blk.txDepth, g.hasUv)
    {
      ReconTuContract(true, SkipTu(ts[j]), UnitMask(c, j), c.inv(j));
    }
    RootFlagIff(r.tus, tot, st.blk.txDepth, g.hasUv);
  }

  /**
   * Without skip_flag, every plane that a unit's mask selects holds the
   * quantiser's count (or 0 under the MD skip decision), the flag "count
   * is non-zero" and the count modulo 2^16.
   */
  lemma InterLoopFlagsMatchCounts(st: CoderState, g: BlockGeom, quant: nat -> Planes<QuantResult>,
                                  inv: nat -> Planes<seq<int>>, cfl: nat -> CflPred, i: nat, p: Plane)
    requires ValidState(st) && ValidTxLayout(g) && !st.blk.skipFlag && i < TotTu(g, st.blk)
    requires Codes(InterMask(g, st.blk.txDepth, i), p)
    ensures var t := InterLoopSpec(st, g, quant, inv, cfl).tus[i];
      && t.count.Get(p) == Outcome(st.mdSkipBlk, quant(i).Get(p)).count
      && (t.hasCoeff.Get(p) <==> t.count.Get(p) != 0)
      && t.nzCoefCount.Get(p) == t.count.Get(p) % Uint16Modulus
  {
    var c := LoopCtx(InterLoop, st, g, quant, inv, cfl);
    var t0 := InterStartUnits(st.tus)[i];
    var mask := UnitMask(c, i);
    EncodeTuContract(t0, mask, st.mdSkipBlk, InterLike(st.blk), quant(i), CflOn(st.blk), cfl(i));
    ReconTuContract(false, EncodeTu(t0, mask, st.mdSkipBlk, InterLike(st.blk), quant(i), CflOn(st.blk), cfl(i)), mask, inv(i));
  }

  /**
   * Unit i's samples after the inter coding loop: on a plane its mask
   * selects, the inverse transform's output when the block is not skipped
   * and the plane was coded with coefficients, else the chroma-from-luma
   * prediction for the Cb and Cr planes of a block that uses it (an intra
   * block copy block); every other plane keeps its prediction.
   */
  lemma InterLoopSamples(st: CoderState, g: BlockGeom, quant: nat -> Planes<QuantResult>,
                         inv: nat -> Planes<seq<int>>, cfl: nat -> CflPred, i: nat, p: Plane)
    requires ValidState(st) && ValidTxLayout(g) && i < TotTu(g, st.blk)
    ensures var m := InterMask(g, st.blk.txDepth, i);
      InterLoopSpec(st, g, quant, inv, cfl).tus[i].samples.Get(p) ==
        if !st.blk.skipFlag && Codes(m, p) && Outcome(st.mdSkipBlk, quant(i).Get(p)).count != 0 then inv(i).Get(p)
        else if !st.blk.skipFlag && Codes(m, p) && p != Y && CflOn(st.blk) then cfl(i).Get(p)
        else st.tus[i].samples.Get(p)
  {
    var c := LoopCtx(InterLoop, st, g, quant, inv, cfl);
    var t0 := InterStartUnits(st.tus)[i];
    var mask := UnitMask(c, i);
    assert t0.samples == st.tus[i].samples;
    if st.blk.skipFlag {
      ReconTuContract(true, SkipTu(t0), mask, inv(i));
    } else {
      EncodeTuContract(t0, mask, st.mdSkipBlk, InterLike(st.blk), quant(i), CflOn(st.blk), cfl(i));
      ReconTuContract(false, EncodeTu(t0, mask, st.mdSkipBlk, InterLike(st.blk), quant(i), CflOn(st.blk), cfl(i)), mask, inv(i));
    }
  }

  /** The inter loop leaves the units beyond the block's transform-unit count untouched. */
  lemma InterLoopFrame(st: CoderState, g: BlockGeom, quant: nat -> Planes<QuantResult>,
                       inv: nat -> Planes<seq<int>>, cfl: nat -> CflPred, i: nat)
    requires ValidState(st) && ValidTxLayout(g) && TotTu(g, st.blk) <= i < MaxTxbCount
    ensures InterLoopSpec(st, g, quant, inv, cfl).tus[i] == st.tus[i]
  {
  }

  /* ------------------------------------------------------------------ */
  /*  perform_intra_coding_loop                                          */
  /* ------------------------------------------------------------------ */

  /** Unit 0 after the chroma step of the intra coding loop: chroma-only encode loop and reconstruction. */
  function IntraChromaRecord(c: UnitCtx, t: TuRecord): TuRecord
  {
    ReconTu(c.skip, EncodeTu(t, ChromaMask, c.mdSkip, c.interLike, c.quant(0), c.cflOn, c.cfl(0)), ChromaMask, c.inv(0))
  }

  /**
   * The closing loop of the intra coding loop folds the Cb and Cr flags of
   * every chroma-carrying unit into unit 0.
   */
  function FoldChromaFlags(ts: seq<TuRecord>, tot: nat, txDepth: nat): seq<TuRecord>
    requires 1 <= tot <= |ts|
  {
    ts[0 := ts[0].(hasCoeff := ts[0].hasCoeff.(u := AnyPlane(ts, U, tot, txDepth, true),
                                                 v := AnyPlane(ts, V, tot, txDepth, true)))]
  }

  /** The units after the luma loop and, for a block with chroma, the chroma step on unit 0. */
  function IntraCodedUnits(st: CoderState, g: BlockGeom, quant: nat -> Planes<QuantResult>,
                           inv: nat -> Planes<seq<int>>, cfl: nat -> CflPred): (r: seq<TuRecord>)
    requires ValidState(st) && ValidTxLayout(g)
    ensures |r| == MaxTxbCount
  {
    var c := LoopCtx(IntraLumaLoop, st, g, quant, inv, cfl);
    var ls := LoopUnits(c, st.tus, TotTu(g, st.blk));
    if g.hasUv then ls[0 := IntraChromaRecord(c, ls[0])] else ls
  }

  /**
   * perform_intra_coding_loop: the luma loop over all units, the chroma
   * step on unit 0 for a block with chroma, then the closing loop that ORs
   * the units' flags into block_has_coeff and, with chroma, folds the Cb
   * and Cr flags into unit 0. txb_itr ends at the unit count.
   */
  function IntraLoopSpec(st: CoderState, g: BlockGeom, quant: nat -> Planes<QuantResult>,
                         inv: nat -> Planes<seq<int>>, cfl: nat -> CflPred): CoderState
    requires ValidState(st) && ValidTxLayout(g)
  {
    var tot := TotTu(g, st.blk);
    var d := st.blk.txDepth;
    var cs := IntraCodedUnits(st, g, quant, inv, cfl);
    st.(txbItr := tot,
        blockHasCoeff := st.blockHasCoeff || RootFlag(cs, tot, d, g.hasUv),
        tus := if g.hasUv then FoldChromaFlags(cs, tot, d) else cs,
        codedAreaSb := st.codedAreaSb + LumaArea(g, d, tot),
        codedAreaSbUv := st.codedAreaSbUv + (if g.hasUv then TuAreaUv(g, d, 0) else 0))
  }

  /** The chroma flag of unit 0 after the fold is set exactly when some chroma-carrying unit's flag was. */
  lemma FoldedFlagIff(ts: seq<TuRecord>, p: Plane, tot: nat, txDepth: nat)
    requires 1 <= tot <= |ts| && p != Y
    ensures AnyPlane(ts, p, tot, txDepth, true) <==>
      ts[0].hasCoeff.Get(p) || exists i :: 0 < i < tot && UvPass(txDepth, i) && ts[i].hasCoeff.Get(p)
  {
    AnyPlaneIff(ts, p, tot, txDepth, true);
    if AnyPlane(ts, p, tot, txDepth, true) {
      var i :| 0 <= i < tot && Counts(ts[i], p, i, txDepth, true);
      assert i == 0 || (0 < i < tot && UvPass(txDepth, i) && ts[i].hasCoeff.Get(p));
    }
    if ts[0].hasCoeff.Get(p) {
      assert Counts(ts[0], p, 0, txDepth, true);
    }
    if exists i :: 0 < i < tot && UvPass(txDepth, i) && ts[i].hasCoeff.Get(p) {
      var i :| 0 < i < tot && UvPass(txDepth, i) && ts[i].hasCoeff.Get(p);
      assert Counts(ts[i], p, i, txDepth, true);
    }
  }

  /** Folding the chroma flags into unit 0 does not change whether some unit has coefficients. */
  lemma FoldKeepsRootFlag(ts: seq<TuRecord>, tot: nat, txDepth: nat)
    requires 1 <= tot <= |ts|
    ensures (exists i :: 0 <= i < tot && UnitHasCoeff(FoldChromaFlags(ts, tot, txDepth)[i], i, txDepth, true)) <==>
            (exists i :: 0 <= i < tot && UnitHasCoeff(ts[i], i, txDepth, true))
  {
    var fs := FoldChromaFlags(ts, tot, txDepth);
    AnyPlaneIff(ts, U, tot, txDepth, true);
    AnyPlaneIff(ts, V, tot, txDepth, true);
    if exists i :: 0 <= i < tot && UnitHasCoeff(fs[i], i, txDepth, true) {
      var i :| 0 <= i < tot && UnitHasCoeff(fs[i], i, txDepth, true);
      if i == 0 && !ts[0].hasCoeff.y {
        var j :| 0 <= j < tot && (Counts(ts[j], U, j, txDepth, true) || Counts(ts[j], V, j, txDepth, true));
        assert UnitHasCoeff(ts[j], j, txDepth, true);
      } else {
        assert UnitHasCoeff(ts[i], i, txDepth, true);
      }
    }
    if exists i :: 0 <= i < tot && UnitHasCoeff(ts[i], i, txDepth, true) {
      var i :| 0 <= i < tot && UnitHasCoeff(ts[i], i, txDepth, true);
      if ts[i].hasCoeff.y {
        assert UnitHasCoeff(fs[i], i, txDepth, true);
      } else {
        assert Counts(ts[i], U, i, txDepth, true) || Counts(ts[i], V, i, txDepth, true);
        assert UnitHasCoeff(fs[0], 0, txDepth, true);
      }
    }
  }

  /**
   * A coder state whose fields are those the intra coding loop computes is
   * the loop's result; cs are the units the coding steps leave, tot the
   * unit count and d the transform depth.
   */
  lemma IntraLoopResult(st: CoderState, g: BlockGeom, quant: nat -> Planes<QuantResult>, inv: nat -> Planes<seq<int>>, cfl: nat -> CflPred,
                        cs: seq<TuRecord>, tot: nat, d: nat, r: CoderState)
    requires ValidState(st) && ValidTxLayout(g)
    requires d == st.blk.txDepth && tot == TotTu(g, st.blk) && cs == IntraCodedUnits(st, g, quant, inv, cfl)
    requires r.blk == st.blk && r.mdSkipBlk == st.mdSkipBlk && r.txbItr == tot
    requires r.blockHasCoeff == (st.blockHasCoeff || RootFlag(cs, tot, d, g.hasUv))
    requires r.tus == if g.hasUv then FoldChromaFlags(cs, tot, d) else cs
    requires r.codedAreaSb == st.codedAreaSb + LumaArea(g, d, tot)
    requires r.codedAreaSbUv == st.codedAreaSbUv + (if g.hasUv then TuAreaUv(g, d, 0) else 0)
    ensures r == IntraLoopSpec(st, g, quant, inv, cfl)
  {
  }

  /**
   * The units once the closing loop of the intra coding loop has looked at
   * the first n of them: with chroma, unit 0's Cb and Cr flags have
   * collected those of the chroma-carrying units among them.
   */
  function FoldProgress(ts: seq<TuRecord>, n: nat, txDepth: nat, hasUv: bool): seq<TuRecord>
    requires 1 <= |ts| && n <= |ts|
  {
    if hasUv then
      ts[0 := ts[0].(hasCoeff := ts[0].hasCoeff.(u := ts[0].hasCoeff.u || AnyPlane(ts, U, n, txDepth, true),
                                                 v := ts[0].hasCoeff.v || AnyPlane(ts, V, n, txDepth, true)))]
    else ts
  }

  /** Unit 0's Cb and Cr flags with those of another unit ORed in. */
  function OrChromaFlags(ts: seq<TuRecord>, cu: bool, cv: bool): (r: seq<TuRecord>)
    requires 1 <= |ts|
  {
    ts[0 := ts[0].(hasCoeff := ts[0].hasCoeff.(u := ts[0].hasCoeff.u || cu, v := ts[0].hasCoeff.v || cv))]
  }

  /**
   * One more unit for the closing loop: a chroma-carrying unit of a block
   * with chroma ORs its Cb and Cr flags into unit 0's, and every unit adds
   * its own flags to the root flag.
   */
  lemma FoldProgressStep(ts: seq<TuRecord>, i: nat, txDepth: nat, hasUv: bool)
    requires 1 <= |ts| && i < |ts|
    ensures var f := FoldProgress(ts, i, txDepth, hasUv);
      FoldProgress(ts, i + 1, txDepth, hasUv) ==
        if hasUv && UvPass(txDepth, i) then OrChromaFlags(f, ts[i].hasCoeff.u, ts[i].hasCoeff.v) else f
    ensures RootFlag(ts, i + 1, txDepth, hasUv) ==
      (RootFlag(ts, i, txDepth, hasUv) || UnitHasCoeff(ts[i], i, txDepth, hasUv))
  {
  }

  /** Having looked at every unit, the closing loop has folded the chroma flags. */
  lemma FoldProgressComplete(ts: seq<TuRecord>, tot: nat, txDepth: nat, hasUv: bool)
    requires 1 <= tot <= |ts|
    ensures FoldProgress(ts, tot, txDepth, hasUv) == if hasUv then FoldChromaFlags(ts, tot, txDepth) else ts
  {
    if hasUv {
      AnyPlaneIff(ts, U, tot, txDepth, true);
      AnyPlaneIff(ts, V, tot, txDepth, true);
      assert Counts(ts[0], U, 0, txDepth, true) == ts[0].hasCoeff.u;
      assert Counts(ts[0], V, 0, txDepth, true) == ts[0].hasCoeff.v;
    }
  }

  /**
   * The root flag after the intra coding loop is its value before ORed with
   * "some unit has luma coefficients or, with chroma, some chroma-carrying
   * unit has Cb or Cr coefficients", read on the units as the loop leaves them.
   */
  lemma IntraLoopRootFlag(st: CoderState, g: BlockGeom, quant: nat -> Planes<QuantResult>, inv: nat -> Planes<seq<int>>, cfl: nat -> CflPred)
    requires ValidState(st) && ValidTxLayout(g)
    ensures var r := IntraLoopSpec(st, g, quant, inv, cfl);
      r.blockHasCoeff <==>
        (|| st.blockHasCoeff
         || exists i :: 0 <= i < TotTu(g, st.blk) && UnitHasCoeff(r.tus[i], i, st.blk.txDepth, g.hasUv))
  {
    var tot := TotTu(g, st.blk);
    var cs := IntraCodedUnits(st, g, quant, inv, cfl);
    RootFlagIff(cs, tot, st.blk.txDepth, g.hasUv);
    if g.hasUv {
      FoldKeepsRootFlag(cs, tot, st.blk.txDepth);
    }
  }

  /** Encoding and reconstructing the luma plane of a unit records the luma result and leaves the chroma planes alone. */
  lemma LumaCodingStep(t: TuRecord, mdSkip: bool, interLike: bool, q: Planes<QuantResult>, cflOn: bool, cfl: CflPred,
                        skip: bool, inv: Planes<seq<int>>)
    ensures var r := ReconTu(skip, EncodeTu(t, LumaMask, mdSkip, interLike, q, cflOn, cfl), LumaMask, inv);
      && Recorded(r, Y, Outcome(mdSkip, q.y)) && SamePlane(r, t, U) && SamePlane(r, t, V)
      && r.samples.u == t.samples.u && r.samples.v == t.samples.v
  {
    var e := EncodeTu(t, LumaMask, mdSkip, interLike, q, cflOn, cfl);
    EncodeTuContract(t, LumaMask, mdSkip, interLike, q, cflOn, cfl);
    ReconTuContract(skip, e, LumaMask, inv);
    assert Codes(LumaMask, Y) && !Codes(LumaMask, U) && !Codes(LumaMask, V);
  }

  /** The chroma step records unit 0's Cb and Cr results and leaves its luma plane alone. */
  lemma ChromaCodingStep(c: UnitCtx, t: TuRecord)
    ensures var r := IntraChromaRecord(c, t);
      && SamePlane(r, t, Y)
      && Recorded(r, U, Outcome(c.mdSkip, c.quant(0).u))
      && Recorded(r, V, Outcome(c.mdSkip, c.quant(0).v))
  {
    var e := EncodeTu(t, ChromaMask, c.mdSkip, c.interLike, c.quant(0), c.cflOn, c.cfl(0));
    EncodeTuContract(t, ChromaMask, c.mdSkip, c.interLike, c.quant(0), c.cflOn, c.cfl(0));
    ReconTuContract(c.skip, e, ChromaMask, c.inv(0));
    assert !Codes(ChromaMask, Y) && Codes(ChromaMask, U) && Codes(ChromaMask, V);
  }

  /** Unit i after the luma loop and the chroma step, before the closing loop. */
  lemma IntraCodedUnit(st: CoderState, g: BlockGeom, quant: nat -> Planes<QuantResult>,
                       inv: nat -> Planes<seq<int>>, cfl: nat -> CflPred, i: nat)
    requires ValidState(st) && ValidTxLayout(g) && i < TotTu(g, st.blk)
    ensures var t := IntraCodedUnits(st, g, quant, inv, cfl)[i];
      && Recorded(t, Y, Outcome(st.mdSkipBlk, quant(i).y))
      && (g.hasUv && i == 0 ==> Recorded(t, U, Outcome(st.mdSkipBlk, quant(0).u)) && Recorded(t, V, Outcome(st.mdSkipBlk, quant(0).v)))
      && (!(g.hasUv && i == 0) ==> SamePlane(t, st.tus[i], U) && SamePlane(t, st.tus[i], V))
  {
    var c := LoopCtx(IntraLumaLoop, st, g, quant, inv, cfl);
    var ls := LoopUnits(c, st.tus, TotTu(g, st.blk));
    LumaCodingStep(st.tus[i], st.mdSkipBlk, InterLike(st.blk), quant(i), CflOn(st.blk), cfl(i), st.blk.skipFlag, inv(i));
    if g.hasUv && i == 0 {
      ChromaCodingStep(c, ls[0]);
    }
  }

  /**
   * What the intra coding loop leaves in unit i below the unit count: the
   * luma plane holds that unit's quantiser result (or zeros under the MD
   * skip decision); with chroma, unit 0's Cb and Cr planes hold unit 0's
   * count, end of block, DC and 16-bit count; every other chroma plane is
   * untouched.
   */
  lemma IntraLoopUnits(st: CoderState, g: BlockGeom, quant: nat -> Planes<QuantResult>,
                       inv: nat -> Planes<seq<int>>, cfl: nat -> CflPred, i: nat, p: Plane)
    requires ValidState(st) && ValidTxLayout(g) && i < TotTu(g, st.blk)
    ensures var t := IntraLoopSpec(st, g, quant, inv, cfl).tus[i];
      && (p == Y ==> Recorded(t, Y, Outcome(st.mdSkipBlk, quant(i).y)))
      && (p != Y && g.hasUv && i == 0 ==>
            var o := Outcome(st.mdSkipBlk, quant(0).Get(p));
            t.count.Get(p) == o.count && t.eob.Get(p) == o.eob && t.quantizedDc.Get(p) == o.dc
            && t.nzCoefCount.Get(p) == o.count % Uint16Modulus)
      && (p != Y && !(g.hasUv && i == 0) ==> SamePlane(t, st.tus[i], p))
  {
    var cs := IntraCodedUnits(st, g, quant, inv, cfl);
    var t := IntraLoopSpec(st, g, quant, inv, cfl).tus[i];
    IntraCodedUnit(st, g, quant, inv, cfl, i);
    assert t == (if g.hasUv && i == 0 then cs[0].(hasCoeff := t.hasCoeff) else cs[i]);
  }

  /**
   * The fold of the closing loop: with chroma, unit 0's Cb (Cr) flag ends
   * set exactly when unit 0 coded Cb (Cr) coefficients or a later
   * chroma-carrying unit's flag was set. A block split into transform units
   * has no later chroma-carrying unit, so there the fold changes nothing.
   */
  lemma IntraLoopChromaFold(st: CoderState, g: BlockGeom, quant: nat -> Planes<QuantResult>,
                            inv: nat -> Planes<seq<int>>, cfl: nat -> CflPred, p: Plane)
    requires ValidState(st) && ValidTxLayout(g) && g.hasUv && p != Y
    ensures var t := IntraLoopSpec(st, g, quant, inv, cfl).tus[0];
      t.hasCoeff.Get(p) <==>
        (|| Outcome(st.mdSkipBlk, quant(0).Get(p)).count != 0
         || exists i :: 0 < i < TotTu(g, st.blk) && UvPass(st.blk.txDepth, i) && st.tus[i].hasCoeff.Get(p))
    ensures st.blk.txDepth > 0 ==>
      (IntraLoopSpec(st, g, quant, inv, cfl).tus[0].hasCoeff.Get(p) <==>
         Outcome(st.mdSkipBlk, quant(0).Get(p)).count != 0)
  {
    var tot := TotTu(g, st.blk);
    var cs := IntraCodedUnits(st, g, quant, inv, cfl);
    IntraCodedUnit(st, g, quant, inv, cfl, 0);
    forall i | 0 < i < tot
      ensures cs[i].hasCoeff.Get(p) == st.tus[i].hasCoeff.Get(p)
    {
      IntraCodedUnit(st, g, quant, inv, cfl, i);
    }
    FoldedFlagIff(cs, p, tot, st.blk.txDepth);
  }

  /**
   * Unit 0's Cb (Cr) samples after the intra coding loop of a block with
   * chroma: the inverse transform's output when the block is not skipped
   * and the plane was coded with coefficients; otherwise the
   * chroma-from-luma prediction for a block that uses it, and the
   * prediction as it was for any other block.
   */
  lemma IntraLoopChromaSamples(st: CoderState, g: BlockGeom, quant: nat -> Planes<QuantResult>,
                               inv: nat -> Planes<seq<int>>, cfl: nat -> CflPred, p: Plane)
    requires ValidState(st) && ValidTxLayout(g) && g.hasUv && p != Y
    ensures IntraLoopSpec(st, g, quant, inv, cfl).tus[0].samples.Get(p) ==
      if !st.blk.skipFlag && Outcome(st.mdSkipBlk, quant(0).Get(p)).count != 0 then inv(0).Get(p)
      else if CflOn(st.blk) then cfl(0).Get(p)
      else st.tus[0].samples.Get(p)
  {
    var c := LoopCtx(IntraLumaLoop, st, g, quant, inv, cfl);
    var ls := LoopUnits(c, st.tus, TotTu(g, st.blk));
    LumaCodingStep(st.tus[0], st.mdSkipBlk, InterLike(st.blk), quant(0), CflOn(st.blk), cfl(0), st.blk.skipFlag, inv(0));
    assert ls[0].samples.Get(p) == st.tus[0].samples.Get(p);
    var e := EncodeTu(ls[0], ChromaMask, st.mdSkipBlk, InterLike(st.blk), quant(0), CflOn(st.blk), cfl(0));
    EncodeTuContract(ls[0], ChromaMask, st.mdSkipBlk, InterLike(st.blk), quant(0), CflOn(st.blk), cfl(0));
    ReconTuContract(st.blk.skipFlag, e, ChromaMask, inv(0));
  }

  /** The intra coding loop never changes a chroma transform type of an intra block. */
  lemma IntraLoopKeepsTxTypeUv(st: CoderState, g: BlockGeom, quant: nat -> Planes<QuantResult>,
                               inv: nat -> Planes<seq<int>>, cfl: nat -> CflPred, i: nat)
    requires ValidState(st) && ValidTxLayout(g) && i < MaxTxbCount && !InterLike(st.blk)
    ensures IntraLoopSpec(st, g, quant, inv, cfl).tus[i].txTypeUv == st.tus[i].txTypeUv
  {
    var c := LoopCtx(IntraLumaLoop, st, g, quant, inv, cfl);
    var ls := LoopUnits(c, st.tus, TotTu(g, st.blk));
    if i < TotTu(g, st.blk) {
      var t := st.tus[i];
      EncodeTuContract(t, LumaMask, st.mdSkipBlk, false, quant(i), CflOn(st.blk), cfl(i));
      ReconTuContract(st.blk.skipFlag, EncodeTu(t, LumaMask, st.mdSkipBlk, false, quant(i), CflOn(st.blk), cfl(i)), LumaMask, inv(i));
    }
    if g.hasUv && i == 0 {
      EncodeTuContract(ls[0], ChromaMask, st.mdSkipBlk, false, quant(0), CflOn(st.blk), cfl(0));
      ReconTuContract(st.blk.skipFlag, EncodeTu(ls[0], ChromaMask, st.mdSkipBlk, false, quant(0), CflOn(st.blk), cfl(0)), ChromaMask, inv(0));
    }
  }

  /** The intra coding loop leaves the units beyond the unit count untouched. */
  lemma IntraLoopFrame(st: CoderState, g: BlockGeom, quant: nat -> Planes<QuantResult>,
                       inv: nat -> Planes<seq<int>>, cfl: nat -> CflPred, i: nat)
    requires ValidState(st) && ValidTxLayout(g) && TotTu(g, st.blk) <= i < MaxTxbCount
    ensures IntraLoopSpec(st, g, quant, inv, cfl).tus[i] == st.tus[i]
  {
  }

  /**
   * Once a block is split into transform units, or has a single one, the
   * intra and the inter coding loop advance the chroma offset by the same
   * area: only unit 0 carries chroma.
   */
  lemma ChromaAreasAgree(st: CoderState, g: BlockGeom, quant: nat -> Planes<QuantResult>,
                         inv: nat -> Planes<seq<int>>, cfl: nat -> CflPred)
    requires ValidState(st) && ValidTxLayout(g) && (st.blk.txDepth > 0 || TotTu(g, st.blk) == 1)
    ensures IntraLoopSpec(st, g, quant, inv, cfl).codedAreaSbUv == InterLoopSpec(st, g, quant, inv, cfl).codedAreaSbUv
  {
    if st.blk.txDepth > 0 {
      ChromaAreaOfSplitBlock(g, st.blk.txDepth, TotTu(g, st.blk));
    } else {
      assert ChromaArea(g, 0, 1) == ChromaArea(g, 0, 0) + (if g.hasUv then TuAreaUv(g, 0, 0) else 0);
    }
  }

  /** Writing the same position twice keeps the second value. */
  lemma UpdateTwice(s: seq<TuRecord>, i: nat, a: TuRecord, b: TuRecord)
    requires i < |s|
    ensures s[i := a][i := b] == s[i := b]
  {
    var r := s[i := a][i := b];
    forall k | 0 <= k < |s|
      ensures r[k] == s[i := b][k]
    {
    }
  }

  /* ------------------------------------------------------------------ */
  /*  The coder                                                          */
  /* ------------------------------------------------------------------ */

  /**
   * EncDecContext as the coding loops update it in place, together with
   * the block they code: its mode decision (read only here), its units and
   * its root flag. Each loop method is proved to leave the coder in the
   * state its specification function computes from the state it started in.
   */
  class Coder {
    var blk: Blk
    var tus: seq<TuRecord>
    var blockHasCoeff: bool
    var txbItr: nat
    var mdSkipBlk: bool
    var codedAreaSb: nat
    var codedAreaSbUv: nat

    function State(): CoderState
      reads this
    {
      CoderState(blk, tus, blockHasCoeff, txbItr, mdSkipBlk, codedAreaSb, codedAreaSbUv)
    }

    constructor (b: Blk, ts: seq<TuRecord>)
      ensures State() == CoderState(b, ts, false, 0, false, 0, 0)
    {
      blk := b;
      tus := ts;
      blockHasCoeff := false;
      txbItr := 0;
      mdSkipBlk := false;
      codedAreaSb := 0;
      codedAreaSbUv := 0;
    }

    /**
     * av1_encode_loop (8-bit and 16-bit): records the quantiser's results
     * for the planes the mask selects in unit txb_itr; for chroma of a
     * chroma-from-luma intra block it first writes the predictor's output
     * over the unit's Cb and Cr prediction.
     */
    method EncodeLoop(mask: ComponentMask, q: Planes<QuantResult>, cfl: CflPred)
      requires |tus| == MaxTxbCount && txbItr < MaxTxbCount
      modifies this`tus
      ensures tus == old(tus)[txbItr := EncodeTu(old(tus[txbItr]), mask, mdSkipBlk, InterLike(blk), q, CflOn(blk), cfl)]
    {
      var t := tus[txbItr];
      if mask == FullMask || mask == LumaMask {
        var o := if mdSkipBlk then QuantResult(0, 0, 0) else q.y;
        t := t.(count := t.count.(y := o.count), eob := t.eob.(y := o.eob), quantizedDc := t.quantizedDc.(y := o.dc));
        t := t.(hasCoeff := t.hasCoeff.(y := o.count != 0));
        if o.count == 0 {
          if blk.modeFlag == InterMode || blk.useIntrabc {
            t := t.(txTypeY := DctDct, txTypeUv := DctDct);
          } else {
            t := t.(txTypeY := DctDct);
          }
        }
        t := t.(nzCoefCount := t.nzCoefCount.(y := o.count % Uint16Modulus));
      }
      if mask == FullMask || mask == ChromaMask {
        if blk.modeFlag == IntraMode && blk.cflChroma {
          t := t.(samples := t.samples.(u := cfl.u, v := cfl.v));
        }
        var ou := if mdSkipBlk then QuantResult(0, 0, 0) else q.u;
        var ov := if mdSkipBlk then QuantResult(0, 0, 0) else q.v;
        t := t.(count := t.count.(u := ou.count, v := ov.count),
                eob := t.eob.(u := ou.eob, v := ov.eob),
                quantizedDc := t.quantizedDc.(u := ou.dc, v := ov.dc));
        t := t.(hasCoeff := t.hasCoeff.(u := ou.count != 0, v := ov.count != 0));
        t := t.(nzCoefCount := t.nzCoefCount.(u := ou.count % Uint16Modulus, v := ov.count % Uint16Modulus));
      }
      tus := tus[txbItr := t];
    }

    /**
     * av1_encode_generate_recon (8-bit and 16-bit): on each plane the mask
     * selects whose flag is set, unless the block is skipped, the unit's
     * samples become the inverse transform's output.
     */
    method GenerateRecon(mask: ComponentMask, inv: Planes<seq<int>>)
      requires |tus| == MaxTxbCount && txbItr < MaxTxbCount
      modifies this`tus
      ensures tus == old(tus)[txbItr := ReconTu(blk.skipFlag, old(tus[txbItr]), mask, inv)]
    {
      var t := tus[txbItr];
      var ys, us, vs := t.samples.y, t.samples.u, t.samples.v;
      if mask == FullMask || mask == LumaMask {
        if t.hasCoeff.y && !blk.skipFlag {
          ys := inv.y;
        }
      }
      if mask == FullMask || mask == ChromaMask {
        if t.hasCoeff.u && !blk.skipFlag {
          us := inv.u;
        }
        if t.hasCoeff.v && !blk.skipFlag {
          vs := inv.v;
        }
      }
      tus := tus[txbItr := t.(samples := Planes(ys, us, vs))];
    }

    /**
     * One iteration of the transform loop of perform_inter_coding_loop: the
     * skip branch or the encode loop, then reconstruction, then the coded
     * areas advance. c is the loop's context for this block.
     */
    method CodeInterUnit(g: BlockGeom, quant: nat -> Planes<QuantResult>, inv: nat -> Planes<seq<int>>, cfl: nat -> CflPred,
                         ghost c: UnitCtx, tu: nat)
      requires |tus| == MaxTxbCount && ValidBlk(blk) && ValidTxLayout(g) && tu < MaxTxbCount
      requires c == UnitCtx(InterLoop, g, blk.skipFlag, InterLike(blk), CflOn(blk), mdSkipBlk, blk.txDepth, quant, inv, cfl)
      modifies this`tus, this`txbItr, this`codedAreaSb, this`codedAreaSbUv
      ensures tus == old(tus)[tu := UnitRecord(c, tu, old(tus[tu]))]
      ensures txbItr == tu
      ensures codedAreaSb == old(codedAreaSb) + TuArea(g, blk.txDepth, tu)
      ensures codedAreaSbUv == old(codedAreaSbUv) + UnitAreaUv(InterLoop, g, blk.txDepth, tu)
    {
      var d := blk.txDepth;
      var uvPass := !(d != 0 && tu != 0);
      var mask := if g.hasUv && uvPass then FullMask else LumaMask;
      ghost var ts := tus;
      ghost var coded := if blk.skipFlag then SkipTu(ts[tu]) else EncodeTu(ts[tu], mask, mdSkipBlk, InterLike(blk), quant(tu), CflOn(blk), cfl(tu));
      ghost var rec := ReconTu(blk.skipFlag, coded, mask, inv(tu));
      txbItr := tu;
      if blk.skipFlag {
        var t := tus[tu];
        tus := tus[tu := t.(hasCoeff := Planes(false, false, false), quantizedDc := Planes(0, 0, 0))];
      } else {
        EncodeLoop(mask, quant(tu), cfl(tu));
      }
      GenerateRecon(mask, inv(tu));
      UpdateTwice(ts, tu, coded, rec);
      codedAreaSb := codedAreaSb + TuArea(g, d, tu);
      if g.hasUv && uvPass {
        codedAreaSbUv := codedAreaSbUv + TuAreaUv(g, d, tu);
      }
    }

    /**
     * The body of the transform loop of perform_inter_coding_loop: code
     * unit tu, then OR its flags into the accumulators (Cb and Cr only on a
     * chroma-carrying unit of a block with chroma).
     */
    method InterLoopIteration(g: BlockGeom, quant: nat -> Planes<QuantResult>, inv: nat -> Planes<seq<int>>, cfl: nat -> CflPred,
                              ghost c: UnitCtx, ghost ts: seq<TuRecord>, tu: nat,
                              yHas: bool, uHas: bool, vHas: bool) returns (y: bool, u: bool, v: bool)
      requires |tus| == MaxTxbCount && ValidBlk(blk) && ValidTxLayout(g) && tu < MaxTxbCount
      requires c == UnitCtx(InterLoop, g, blk.skipFlag, InterLike(blk), CflOn(blk), mdSkipBlk, blk.txDepth, quant, inv, cfl)
      requires |ts| == MaxTxbCount && tus == LoopUnits(c, ts, tu)
      requires yHas == AnyPlane(tus, Y, tu, blk.txDepth, g.hasUv)
      requires uHas == AnyPlane(tus, U, tu, blk.txDepth, g.hasUv)
      requires vHas == AnyPlane(tus, V, tu, blk.txDepth, g.hasUv)
      modifies this`tus, this`txbItr, this`codedAreaSb, this`codedAreaSbUv
      ensures tus == LoopUnits(c, ts, tu + 1)
      ensures txbItr == tu
      ensures codedAreaSb == old(codedAreaSb) + TuArea(g, blk.txDepth, tu)
      ensures codedAreaSbUv == old(codedAreaSbUv) + UnitAreaUv(InterLoop, g, blk.txDepth, tu)
      ensures y == AnyPlane(tus, Y, tu + 1, blk.txDepth, g.hasUv)
      ensures u == AnyPlane(tus, U, tu + 1, blk.txDepth, g.hasUv)
      ensures v == AnyPlane(tus, V, tu + 1, blk.txDepth, g.hasUv)
    {
      ghost var before := tus;
      var d := blk.txDepth;
      var uvPass := !(d != 0 && tu != 0);
      CodeInterUnit(g, quant, inv, cfl, c, tu);
      LoopUnitsStep(c, ts, tu);
      y, u, v := yHas, uHas, vHas;
      if g.hasUv && uvPass {
        y := y || tus[tu].hasCoeff.y;
        u := u || tus[tu].hasCoeff.u;
        v := v || tus[tu].hasCoeff.v;
      } else {
        y := y || tus[tu].hasCoeff.y;
      }
      AnyPlaneFrame(before, tus, Y, tu, d, g.hasUv);
      AnyPlaneFrame(before, tus, U, tu, d, g.hasUv);
      AnyPlaneFrame(before, tus, V, tu, d, g.hasUv);
    }

    /** The transform loop of perform_inter_coding_loop over every unit, with its OR-accumulators. c is the loop's context. */
    method CodeInterUnits(g: BlockGeom, quant: nat -> Planes<QuantResult>, inv: nat -> Planes<seq<int>>, cfl: nat -> CflPred, ghost c: UnitCtx)
      returns (yHas: bool, uHas: bool, vHas: bool)
      requires |tus| == MaxTxbCount && ValidBlk(blk) && ValidTxLayout(g)
      requires c == UnitCtx(InterLoop, g, blk.skipFlag, InterLike(blk), CflOn(blk), mdSkipBlk, blk.txDepth, quant, inv, cfl)
      modifies this`tus, this`txbItr, this`codedAreaSb, this`codedAreaSbUv
      ensures tus == LoopUnits(c, old(tus), TotTu(g, blk))
      ensures txbItr == TotTu(g, blk) - 1
      ensures codedAreaSb == old(codedAreaSb) + LumaArea(g, blk.txDepth, TotTu(g, blk))
      ensures codedAreaSbUv == old(codedAreaSbUv) + ChromaArea(g, blk.txDepth, TotTu(g, blk))
      ensures yHas == AnyPlane(tus, Y, TotTu(g, blk), blk.txDepth, g.hasUv)
      ensures uHas == AnyPlane(tus, U, TotTu(g, blk), blk.txDepth, g.hasUv)
      ensures vHas == AnyPlane(tus, V, TotTu(g, blk), blk.txDepth, g.hasUv)
    {
      ghost var ts := tus;
      yHas, uHas, vHas := false, false, false;
      var d := blk.txDepth;
      var tot := g.txbCount[d];
      var tu := 0;
      while tu < tot
        invariant tu <= tot
        invariant tus == LoopUnits(c, ts, tu)
        invariant tu > 0 ==> txbItr == tu - 1
        invariant codedAreaSb == old(codedAreaSb) + LumaArea(g, d, tu)
        invariant codedAreaSbUv == old(codedAreaSbUv) + ChromaArea(g, d, tu)
        invariant yHas == AnyPlane(tus, Y, tu, d, g.hasUv)
        invariant uHas == AnyPlane(tus, U, tu, d, g.hasUv)
        invariant vHas == AnyPlane(tus, V, tu, d, g.hasUv)
      {
        yHas, uHas, vHas := InterLoopIteration(g, quant, inv, cfl, c, ts, tu, yHas, uHas, vHas);
        tu := tu + 1;
      }
    }

    /**
     * perform_inter_coding_loop: unit 0's flags are cleared, every unit is
     * coded and reconstructed, the OR-accumulators collect the luma flags
     * and, on chroma-carrying units of a block with chroma, the Cb and Cr
     * flags; the root flag is their OR.
     */
    method PerformInterCodingLoop(g: BlockGeom, quant: nat -> Planes<QuantResult>, inv: nat -> Planes<seq<int>>, cfl: nat -> CflPred)
      requires ValidState(State()) && ValidTxLayout(g)
      modifies this`tus, this`blockHasCoeff, this`txbItr, this`codedAreaSb, this`codedAreaSbUv
      ensures State() == InterLoopSpec(old(State()), g, quant, inv, cfl)
    {
      ghost var st0 := State();
      ghost var c := LoopCtx(InterLoop, st0, g, quant, inv, cfl);
      tus := tus[0 := tus[0].(hasCoeff := Planes(false, false, false))];
      txbItr := 0;
      var yHas, uHas, vHas := CodeInterUnits(g, quant, inv, cfl, c);
      if g.hasUv {
        blockHasCoeff := yHas || uHas || vHas;
      } else {
        blockHasCoeff := yHas;
      }
      InterLoopResult(st0, g, quant, inv, cfl, State());
    }

    /** One iteration of the luma loop of perform_intra_coding_loop. c is the loop's context for this block. */
    method CodeIntraLumaUnit(g: BlockGeom, quant: nat -> Planes<QuantResult>, inv: nat -> Planes<seq<int>>, cfl: nat -> CflPred, ghost c: UnitCtx)
      requires |tus| == MaxTxbCount && ValidBlk(blk) && ValidTxLayout(g) && txbItr < MaxTxbCount
      requires c == UnitCtx(IntraLumaLoop, g, blk.skipFlag, InterLike(blk), CflOn(blk), mdSkipBlk, blk.txDepth, quant, inv, cfl)
      modifies this`tus, this`txbItr, this`codedAreaSb
      ensures tus == old(tus)[old(txbItr) := UnitRecord(c, old(txbItr), old(tus[txbItr]))]
      ensures txbItr == old(txbItr) + 1
      ensures codedAreaSb == old(codedAreaSb) + TuArea(g, blk.txDepth, old(txbItr))
    {
      ghost var ts := tus;
      ghost var coded := EncodeTu(ts[txbItr], LumaMask, mdSkipBlk, InterLike(blk), quant(txbItr), CflOn(blk), cfl(txbItr));
      EncodeLoop(LumaMask, quant(txbItr), cfl(txbItr));
      GenerateRecon(LumaMask, inv(txbItr));
      UpdateTwice(ts, txbItr, coded, UnitRecord(c, txbItr, ts[txbItr]));
      codedAreaSb := codedAreaSb + TuArea(g, blk.txDepth, txbItr);
      txbItr := txbItr + 1;
    }

    /** The chroma step of perform_intra_coding_loop, on unit 0. c is the luma loop's context for this block. */
    method CodeIntraChroma(g: BlockGeom, quant: nat -> Planes<QuantResult>, inv: nat -> Planes<seq<int>>, cfl: nat -> CflPred, ghost c: UnitCtx)
      requires |tus| == MaxTxbCount && ValidBlk(blk) && ValidTxLayout(g)
      requires c == UnitCtx(IntraLumaLoop, g, blk.skipFlag, InterLike(blk), CflOn(blk), mdSkipBlk, blk.txDepth, quant, inv, cfl)
      modifies this`tus, this`txbItr, this`codedAreaSbUv
      ensures tus == old(tus)[0 := IntraChromaRecord(c, old(tus[0]))]
      ensures txbItr == 0
      ensures codedAreaSbUv == old(codedAreaSbUv) + TuAreaUv(g, blk.txDepth, 0)
    {
      ghost var ts := tus;
      ghost var coded := EncodeTu(ts[0], ChromaMask, mdSkipBlk, InterLike(blk), quant(0), CflOn(blk), cfl(0));
      txbItr := 0;
      EncodeLoop(ChromaMask, quant(0), cfl(0));
      GenerateRecon(ChromaMask, inv(0));
      UpdateTwice(ts, 0, coded, IntraChromaRecord(c, ts[0]));
      codedAreaSbUv := codedAreaSbUv + TuAreaUv(g, blk.txDepth, 0);
    }

    /** One iteration of the closing loop of perform_intra_coding_loop, on unit txb_itr. */
    method FoldIteration(g: BlockGeom, ghost ts: seq<TuRecord>, ghost has0: bool, tot: nat)
      requires |ts| == MaxTxbCount && txbItr < tot <= MaxTxbCount
      requires tus == FoldProgress(ts, txbItr, blk.txDepth, g.hasUv)
      requires blockHasCoeff == (has0 || RootFlag(ts, txbItr, blk.txDepth, g.hasUv))
      modifies this`tus, this`blockHasCoeff, this`txbItr
      ensures txbItr == old(txbItr) + 1
      ensures tus == FoldProgress(ts, txbItr, blk.txDepth, g.hasUv)
      ensures blockHasCoeff == (has0 || RootFlag(ts, txbItr, blk.txDepth, g.hasUv))
    {
      var i := txbItr;
      var d := blk.txDepth;
      var t := tus[i];
      assert t.hasCoeff == ts[i].hasCoeff;
      FoldProgressStep(ts, i, d, g.hasUv);
      if g.hasUv && !(d != 0 && i != 0) {
        blockHasCoeff := blockHasCoeff || t.hasCoeff.y || t.hasCoeff.u || t.hasCoeff.v;
        FoldChromaUnit(t.hasCoeff.u, t.hasCoeff.v);
      } else {
        blockHasCoeff := blockHasCoeff || t.hasCoeff.y;
      }
      txbItr := txbItr + 1;
    }

    /** A chroma-carrying unit's Cb and Cr coefficient flags are set on unit 0 too. */
    method FoldChromaUnit(cu: bool, cv: bool)
      requires 1 <= |tus|
      modifies this`tus
      ensures tus == OrChromaFlags(old(tus), cu, cv)
    {
      if cu {
        tus := tus[0 := tus[0].(hasCoeff := tus[0].hasCoeff.(u := true))];
      }
      if cv {
        tus := tus[0 := tus[0].(hasCoeff := tus[0].hasCoeff.(v := true))];
      }
    }

    /** The closing loop of perform_intra_coding_loop over the units as the coding steps left them. */
    method FoldIntraFlags(g: BlockGeom, tot: nat)
      requires |tus| == MaxTxbCount && 1 <= tot <= MaxTxbCount
      modifies this`tus, this`blockHasCoeff, this`txbItr
      ensures blockHasCoeff == (old(blockHasCoeff) || RootFlag(old(tus), tot, blk.txDepth, g.hasUv))
      ensures tus == if g.hasUv then FoldChromaFlags(old(tus), tot, blk.txDepth) else old(tus)
      ensures txbItr == tot
    {
      ghost var ts := tus;
      ghost var has0 := blockHasCoeff;
      txbItr := 0;
      assert FoldProgress(ts, 0, blk.txDepth, g.hasUv) == ts;
      while txbItr < tot
        invariant txbItr <= tot
        invariant tus == FoldProgress(ts, txbItr, blk.txDepth, g.hasUv)
        invariant blockHasCoeff == (has0 || RootFlag(ts, txbItr, blk.txDepth, g.hasUv))
      {
        FoldIteration(g, ts, has0, tot);
      }
      FoldProgressComplete(ts, tot, blk.txDepth, g.hasUv);
    }

    /** The luma loop of perform_intra_coding_loop: every unit in turn. c is the loop's context for this block. */
    method CodeLumaUnits(g: BlockGeom, quant: nat -> Planes<QuantResult>, inv: nat -> Planes<seq<int>>, cfl: nat -> CflPred, ghost c: UnitCtx)
      requires |tus| == MaxTxbCount && ValidBlk(blk) && ValidTxLayout(g)
      requires c == UnitCtx(IntraLumaLoop, g, blk.skipFlag, InterLike(blk), CflOn(blk), mdSkipBlk, blk.txDepth, quant, inv, cfl)
      modifies this`tus, this`txbItr, this`codedAreaSb
      ensures tus == LoopUnits(c, old(tus), TotTu(g, blk))
      ensures txbItr == TotTu(g, blk)
      ensures codedAreaSb == old(codedAreaSb) + LumaArea(g, blk.txDepth, TotTu(g, blk))
    {
      ghost var ts := tus;
      var d := blk.txDepth;
      var tot := g.txbCount[d];
      txbItr := 0;
      while txbItr < tot
        invariant txbItr <= tot
        invariant tus == LoopUnits(c, ts, txbItr)
        invariant codedAreaSb == old(codedAreaSb) + LumaArea(g, d, txbItr)
      {
        LoopUnitsStep(c, ts, txbItr);
        CodeIntraLumaUnit(g, quant, inv, cfl, c);
      }
    }

    /**
     * perform_intra_coding_loop: the luma loop over every unit, the chroma
     * step on unit 0 for a block with chroma, then the closing loop.
     */
    method PerformIntraCodingLoop(g: BlockGeom, quant: nat -> Planes<QuantResult>, inv: nat -> Planes<seq<int>>, cfl: nat -> CflPred)
      requires ValidState(State()) && ValidTxLayout(g)
      modifies this`tus, this`blockHasCoeff, this`txbItr, this`codedAreaSb, this`codedAreaSbUv
      ensures State() == IntraLoopSpec(old(State()), g, quant, inv, cfl)
    {
      ghost var st0 := State();
      ghost var c := LoopCtx(IntraLumaLoop, st0, g, quant, inv, cfl);
      var d := blk.txDepth;
      var tot := g.txbCount[d];
      CodeLumaUnits(g, quant, inv, cfl, c);
      if g.hasUv {
        CodeIntraChroma(g, quant, inv, cfl, c);
      }
      ghost var cs := tus;
      FoldIntraFlags(g, tot);
      IntraLoopResult(st0, g, quant, inv, cfl, cs, tot, d, State());
    }
  }
}
