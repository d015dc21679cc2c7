/**
 * Block geometry as the encode/decode pass sees it: the partition shapes,
 * the position of a partition's non-square (d1) blocks after its parent
 * square in the md scan, the per-block record of BlockGeom and the
 * transform-unit areas that the coded-area counters add up.
 */
module Geometry {

  /** The ten partition types of a square block, in the order of the AV1 PARTITION_* enumeration. */
  datatype Partition =
    | PartitionNone | PartitionHorz | PartitionVert | PartitionSplit
    | PartitionHorzA | PartitionHorzB | PartitionVertA | PartitionVertB
    | PartitionHorz4 | PartitionVert4

  /**
   * ns_blk_offset: index of a partition's first d1 block relative to its
   * parent square. The d1 blocks of one square are numbered 0..24 in the
   * order N(1) H(2) V(2) HA(3) HB(3) VA(3) VB(3) H4(4) V4(4); the split
   * entry points past all of them and is never used for coding.
   */
  function NsBlkOffset(p: Partition): nat
  {
    match p
    case PartitionNone => 0
    case PartitionHorz => 1
    case PartitionVert => 3
    case PartitionSplit => 25
    case PartitionHorzA => 5
    case PartitionHorzB => 8
    case PartitionVertA => 11
    case PartitionVertB => 14
    case PartitionHorz4 => 17
    case PartitionVert4 => 21
  }

  /** ns_blk_num: how many d1 blocks a partition has (totns of BlockGeom). */
  function NsBlkNum(p: Partition): nat
  {
    match p
    case PartitionNone => 1
    case PartitionHorz => 2
    case PartitionVert => 2
    case PartitionSplit => 4
    case PartitionHorzA => 3
    case PartitionHorzB => 3
    case PartitionVertA => 3
    case PartitionVertB => 3
    case PartitionHorz4 => 4
    case PartitionVert4 => 4
  }

  /**
   * The d1 ranges of the nine coded partitions lie inside 0..24 and do not
   * overlap: a block of one partition is never a block of another.
   */
  lemma D1RangesDisjoint(p: Partition, q: Partition, k: nat, l: nat)
    requires p != PartitionSplit && q != PartitionSplit
    requires k < NsBlkNum(p) && l < NsBlkNum(q)
    ensures NsBlkOffset(p) + k < 25
    ensures NsBlkOffset(p) + k == NsBlkOffset(q) + l ==> p == q && k == l
  {
  }

  /** The largest transform depth and the number of transform units a block can hold. */
  const MaxVartxDepth: nat := 2
  const MaxTxbCount: nat := 16

  /**
   * The fields of BlockGeom the bookkeeping reads. Transform tables are
   * indexed [tx_depth][tu].
   */
  datatype BlockGeom = BlockGeom(
    d1DepthOffset: nat,          // offset to the next d1 square block
    nsDepthOffset: nat,          // offset to the next non-square block
    hasUv: bool,                 // the block carries chroma
    originX: nat, originY: nat,  // origin inside the superblock
    bwidth: nat, bheight: nat,
    txbCount: seq<nat>,
    txWidth: seq<seq<nat>>, txHeight: seq<seq<nat>>,
    txWidthUv: seq<seq<nat>>, txHeightUv: seq<seq<nat>>)

  /** Table shape: one row per transform depth, one column per transform unit. */
  predicate TxTable(t: seq<seq<nat>>)
  {
    |t| == MaxVartxDepth + 1 && forall d :: 0 <= d < |t| ==> |t[d]| == MaxTxbCount
  }

  /** The transform tables of g have their C array shapes and every depth has 1..16 units. */
  predicate ValidTxLayout(g: BlockGeom)
  {
    && |g.txbCount| == MaxVartxDepth + 1
    && (forall d :: 0 <= d < |g.txbCount| ==> 1 <= g.txbCount[d] <= MaxTxbCount)
    && TxTable(g.txWidth) && TxTable(g.txHeight)
    && TxTable(g.txWidthUv) && TxTable(g.txHeightUv)
  }

  /** uv_pass: chroma is coded with transform unit tu (only the first one once the block is split). */
  function UvPass(txDepth: nat, tu: nat): bool
  {
    !(txDepth != 0 && tu != 0)
  }

  /** Luma area of transform unit tu at depth d. */
  function TuArea(g: BlockGeom, d: nat, tu: nat): nat
    requires ValidTxLayout(g) && d <= MaxVartxDepth && tu < MaxTxbCount
  {
    g.txWidth[d][tu] * g.txHeight[d][tu]
  }

  /** Chroma area of transform unit tu at depth d. */
  function TuAreaUv(g: BlockGeom, d: nat, tu: nat): nat
    requires ValidTxLayout(g) && d <= MaxVartxDepth && tu < MaxTxbCount
  {
    g.txWidthUv[d][tu] * g.txHeightUv[d][tu]
  }

  /** Sum of the luma areas of the first n transform units at depth d. */
  function LumaArea(g: BlockGeom, d: nat, n: nat): nat
    requires ValidTxLayout(g) && d <= MaxVartxDepth && n <= MaxTxbCount
  {
    if n == 0 then 0 else LumaArea(g, d, n - 1) + TuArea(g, d, n - 1)
  }

  /** Sum of the chroma areas of those of the first n units that carry chroma. */
  function ChromaArea(g: BlockGeom, d: nat, n: nat): nat
    requires ValidTxLayout(g) && d <= MaxVartxDepth && n <= MaxTxbCount
  {
    if n == 0 then 0
    else ChromaArea(g, d, n - 1) + (if g.hasUv && UvPass(d, n - 1) then TuAreaUv(g, d, n - 1) else 0)
  }

  /**
   * Once a block is split into transform units, only the first one carries
   * chroma: the chroma area of the whole block is that of unit 0, and a
   * block without chroma adds no chroma area at all.
   */
  lemma {:induction false} ChromaAreaOfSplitBlock(g: BlockGeom, d: nat, n: nat)
    requires ValidTxLayout(g) && 0 < d <= MaxVartxDepth && 1 <= n <= MaxTxbCount
    ensures ChromaArea(g, d, n) == if g.hasUv then TuAreaUv(g, d, 0) else 0
  {
    if n > 1 {
      ChromaAreaOfSplitBlock(g, d, n - 1);
    }
  }

  /** Without chroma, no transform unit adds chroma area. */
  lemma {:induction false} ChromaAreaWithoutUv(g: BlockGeom, d: nat, n: nat)
    requires ValidTxLayout(g) && d <= MaxVartxDepth && n <= MaxTxbCount && !g.hasUv
    ensures ChromaArea(g, d, n) == 0
  {
    if n > 0 {
      ChromaAreaWithoutUv(g, d, n - 1);
    }
  }
}
