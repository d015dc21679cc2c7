/**
 * av1_copy_frame_mvs: the motion-field motion-vector storage process of
 * section 7.19 of the AV1 Bitstream & Decoding Process Specification.
 * After a block is coded in a frame used as a reference, the block's
 * motion is saved in the reference object's motion field, a grid at half
 * the mode-info resolution (one cell per 8x8 luma samples). Every cell the
 * block covers first gets NONE_FRAME with a zero vector; then each of the
 * block's two references in turn overwrites it when that reference is an
 * inter frame on side 0 (ref_frame_side[rf] == 0) and both vector
 * components have magnitude at most REFMVS_LIMIT.
 */
module MotionField {

  /** (1 << 12) - 1: the largest vector component magnitude that is stored. */
  const RefmvsLimit: int := 4095

  /** The MV_REFERENCE_FRAME values the routine compares against, and the size of ref_frame_side. */
  const NoneFrame: int := -1
  const IntraFrame: int := 0
  const RefFrames: nat := 8

  /** A motion vector (as_mv: row and column in 1/8 sample units). */
  datatype Mv = Mv(row: int, col: int)

  /** One cell of the motion field: MV_REF. */
  datatype MvRef = MvRef(refFrame: int, mv: Mv)

  /** The fields of the block's mode info the routine reads: ref_frame[2] and mv[2]. */
  datatype BlockMi = BlockMi(refFrame: seq<int>, mv: seq<Mv>)

  /** The value every covered cell starts from: NONE_FRAME and mv.as_int = 0. */
  const EmptyCell: MvRef := MvRef(NoneFrame, Mv(0, 0))

  function Abs(v: int): nat
  {
    if v < 0 then -v else v
  }

  /** ROUND_POWER_OF_TWO(v, 1): v halved, rounded up. */
  function HalfUp(v: nat): (r: nat)
    ensures v <= 2 * r <= v + 1
  {
    (v + 1) / 2
  }

  /**
   * Two references, each NONE_FRAME, INTRA_FRAME or one of the seven
   * inter frames; ref_frame_side has one entry per frame.
   */
  predicate ValidMi(mi: BlockMi, side: seq<int>)
  {
    && |mi.refFrame| == 2 && |mi.mv| == 2 && |side| == RefFrames
    && forall i :: 0 <= i < 2 ==> NoneFrame <= mi.refFrame[i] < RefFrames
  }

  /**
   * Reference idx is stored: it is an inter frame, it lies on side 0
   * (ref_frame_side[rf] == 0), and neither vector component exceeds the limit.
   */
  predicate Stored(mi: BlockMi, side: seq<int>, idx: nat)
    requires ValidMi(mi, side) && idx < 2
  {
    var rf := mi.refFrame[idx];
    && rf > IntraFrame
    && side[rf] == 0
    && Abs(mi.mv[idx].row) <= RefmvsLimit
    && Abs(mi.mv[idx].col) <= RefmvsLimit
  }

  /** The cell reference idx would write. */
  function RefCell(mi: BlockMi, idx: nat): MvRef
    requires |mi.refFrame| == 2 && |mi.mv| == 2 && idx < 2
  {
    MvRef(mi.refFrame[idx], mi.mv[idx])
  }

  /**
   * A cell after the first n passes of the idx loop. It is still empty
   * exactly when none of those references is stored; otherwise it holds
   * the last stored one.
   */
  function CellAfter(mi: BlockMi, side: seq<int>, n: nat): (r: MvRef)
    requires ValidMi(mi, side) && n <= 2
    ensures (r == EmptyCell) <==> (forall i :: 0 <= i < n ==> !Stored(mi, side, i))
    ensures forall i :: 0 <= i < n && Stored(mi, side, i) && (forall j :: i < j < n ==> !Stored(mi, side, j)) ==>
              r == RefCell(mi, i)
  {
    if n == 0 then EmptyCell
    else if Stored(mi, side, n - 1) then RefCell(mi, n - 1)
    else CellAfter(mi, side, n - 1)
  }

  /** The value av1_copy_frame_mvs writes into every cell the block covers. */
  function CellValue(mi: BlockMi, side: seq<int>): MvRef
    requires ValidMi(mi, side)
  {
    CellAfter(mi, side, 2)
  }

  /**
   * The stored cell is the later stored reference, else the earlier one,
   * else empty; whatever it holds is an inter frame on side 0
   * with a vector inside the limit.
   */
  lemma CellValueLaterWins(mi: BlockMi, side: seq<int>)
    requires ValidMi(mi, side)
    ensures CellValue(mi, side) ==
      if Stored(mi, side, 1) then RefCell(mi, 1)
      else if Stored(mi, side, 0) then RefCell(mi, 0)
      else EmptyCell
    ensures var r := CellValue(mi, side);
      r == EmptyCell || (r.refFrame > IntraFrame && side[r.refFrame] == 0 &&
                         Abs(r.mv.row) <= RefmvsLimit && Abs(r.mv.col) <= RefmvsLimit)
  {
    var r := CellValue(mi, side);
    if Stored(mi, side, 1) {
      assert r == RefCell(mi, 1);
    } else if Stored(mi, side, 0) {
      assert r == RefCell(mi, 0);
    } else {
      assert r == EmptyCell;
    }
  }

  /** The idx loop for one cell: start empty, then let each stored reference overwrite the cell. */
  method StoreCell(mi: BlockMi, side: seq<int>) returns (cell: MvRef)
    requires ValidMi(mi, side)
    ensures cell == CellValue(mi, side)
  {
    cell := MvRef(NoneFrame, Mv(0, 0));
    for idx := 0 to 2
      invariant cell == CellAfter(mi, side, idx)
    {
      var rf := mi.refFrame[idx];
      if rf > IntraFrame {
        var refIdx := side[rf];
        if refIdx != 0 {
          continue;
        }
        if Abs(mi.mv[idx].row) > RefmvsLimit || Abs(mi.mv[idx].col) > RefmvsLimit {
          continue;
        }
        cell := MvRef(rf, mi.mv[idx]);
      }
    }
  }

  /**
   * The block at (mi_row, mi_col) covering x_mis by y_mis mode-info units
   * inside a frame of mi_rows by mi_cols units covers, in the half-
   * resolution grid, rows from mi_row >> 1 and columns from mi_col >> 1,
   * ROUND_POWER_OF_TWO(y_mis, 1) by ROUND_POWER_OF_TWO(x_mis, 1) cells, all
   * inside the grid.
   */
  lemma RegionInsideGrid(miPos: nat, mis: nat, miCount: nat)
    requires miPos + mis <= miCount
    ensures miPos / 2 + HalfUp(mis) <= HalfUp(miCount)
  {
  }

  /** Cell (r, c) of the grid lies in the block's region. */
  predicate InRegion(miRow: nat, miCol: nat, xMis: nat, yMis: nat, r: int, c: int)
  {
    miRow / 2 <= r < miRow / 2 + HalfUp(yMis) && miCol / 2 <= c < miCol / 2 + HalfUp(xMis)
  }

  /**
   * av1_copy_frame_mvs on the motion field mvs, a grid of
   * ROUND_POWER_OF_TWO(mi_rows, 1) rows whose row pitch is
   * frame_mvs_stride = ROUND_POWER_OF_TWO(mi_cols, 1): every cell of the
   * block's region gets CellValue, every other cell is unchanged.
   */
  method CopyFrameMvs(mi: BlockMi, side: seq<int>, miRows: nat, miCols: nat,
                      miRow: nat, miCol: nat, xMis: nat, yMis: nat, mvs: array2<MvRef>)
    requires ValidMi(mi, side)
    requires mvs.Length0 == HalfUp(miRows) && mvs.Length1 == HalfUp(miCols)
    requires miRow + yMis <= miRows && miCol + xMis <= miCols
    modifies mvs
    ensures forall r, c :: 0 <= r < mvs.Length0 && 0 <= c < mvs.Length1 ==>
      mvs[r, c] == if InRegion(miRow, miCol, xMis, yMis, r, c) then CellValue(mi, side) else old(mvs[r, c])
  {
    var row0 := miRow / 2;
    var col0 := miCol / 2;
    var xm := HalfUp(xMis);
    var ym := HalfUp(yMis);
    RegionInsideGrid(miRow, yMis, miRows);
    RegionInsideGrid(miCol, xMis, miCols);
    ghost var v := CellValue(mi, side);
    var h := 0;
    while h < ym
      invariant 0 <= h <= ym
      invariant forall r, c :: 0 <= r < mvs.Length0 && 0 <= c < mvs.Length1 ==>
        mvs[r, c] == if row0 <= r < row0 + h && col0 <= c < col0 + xm then v else old(mvs[r, c])
    {
      var w := 0;
      while w < xm
        invariant 0 <= w <= xm
        invariant forall r, c :: 0 <= r < mvs.Length0 && 0 <= c < mvs.Length1 ==>
          mvs[r, c] == if (row0 <= r < row0 + h && col0 <= c < col0 + xm) || (r == row0 + h && col0 <= c < col0 + w)
                       then v else old(mvs[r, c])
      {
        var cell := StoreCell(mi, side);
        mvs[row0 + h, col0 + w] := cell;
        w := w + 1;
      }
      h := h + 1;
    }
  }
}
