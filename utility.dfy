/*
 * Block-size subsampling table, depth-offset tables and integer helper
 * macros of the SVT-AV1 common utility header (EbUtility.h).
 *
 * Expression macros are functions; the macros that update their argument
 * step by step (FLOOR_POW2, CEIL_POW2, SWAP, UNSIGNED_DEC) and
 * gcc_right_shift are methods on 32-bit bit-vectors.
 */
module Utility {

  /* ------------------------------------------------------------------ */
  /*  Block sizes and the plane subsampling table (ss_size_lookup)       */
  /* ------------------------------------------------------------------ */

  /** The 22 AV1 block sizes in their enumeration order, plus BLOCK_INVALID. */
  datatype BlockSize =
    | Block4x4 | Block4x8 | Block8x4 | Block8x8 | Block8x16 | Block16x8
    | Block16x16 | Block16x32 | Block32x16 | Block32x32 | Block32x64
    | Block64x32 | Block64x64 | Block64x128 | Block128x64 | Block128x128
    | Block4x16 | Block16x4 | Block8x32 | Block32x8 | Block16x64 | Block64x16
    | BlockInvalid

  /** Width in luma samples (0 for BLOCK_INVALID). */
  function Width(b: BlockSize): nat
  {
    match b
    case Block4x4 => 4     case Block4x8 => 4     case Block8x4 => 8
    case Block8x8 => 8     case Block8x16 => 8    case Block16x8 => 16
    case Block16x16 => 16  case Block16x32 => 16  case Block32x16 => 32
    case Block32x32 => 32  case Block32x64 => 32  case Block64x32 => 64
    case Block64x64 => 64  case Block64x128 => 64 case Block128x64 => 128
    case Block128x128 => 128
    case Block4x16 => 4    case Block16x4 => 16   case Block8x32 => 8
    case Block32x8 => 32   case Block16x64 => 16  case Block64x16 => 64
    case BlockInvalid => 0
  }

  /** Height in luma samples (0 for BLOCK_INVALID). */
  function Height(b: BlockSize): nat
  {
    match b
    case Block4x4 => 4     case Block4x8 => 8     case Block8x4 => 4
    case Block8x8 => 8     case Block8x16 => 16   case Block16x8 => 8
    case Block16x16 => 16  case Block16x32 => 32  case Block32x16 => 16
    case Block32x32 => 32  case Block32x64 => 64  case Block64x32 => 32
    case Block64x64 => 64  case Block64x128 => 128 case Block128x64 => 64
    case Block128x128 => 128
    case Block4x16 => 16   case Block16x4 => 4    case Block8x32 => 32
    case Block32x8 => 8    case Block16x64 => 64  case Block64x16 => 16
    case BlockInvalid => 0
  }

  /**
   * One row of ss_size_lookup, in the table's column order:
   * (ss_x 0, ss_y 0), (ss_x 0, ss_y 1), (ss_x 1, ss_y 0), (ss_x 1, ss_y 1).
   */
  function SsSizeRow(b: BlockSize): (BlockSize, BlockSize, BlockSize, BlockSize)
    requires b != BlockInvalid
  {
    match b
    case Block4x4 => (Block4x4, Block4x4, Block4x4, Block4x4)
    case Block4x8 => (Block4x8, Block4x4, BlockInvalid, Block4x4)
    case Block8x4 => (Block8x4, BlockInvalid, Block4x4, Block4x4)
    case Block8x8 => (Block8x8, Block8x4, Block4x8, Block4x4)
    case Block8x16 => (Block8x16, Block8x8, BlockInvalid, Block4x8)
    case Block16x8 => (Block16x8, BlockInvalid, Block8x8, Block8x4)
    case Block16x16 => (Block16x16, Block16x8, Block8x16, Block8x8)
    case Block16x32 => (Block16x32, Block16x16, BlockInvalid, Block8x16)
    case Block32x16 => (Block32x16, BlockInvalid, Block16x16, Block16x8)
    case Block32x32 => (Block32x32, Block32x16, Block16x32, Block16x16)
    case Block32x64 => (Block32x64, Block32x32, BlockInvalid, Block16x32)
    case Block64x32 => (Block64x32, BlockInvalid, Block32x32, Block32x16)
    case Block64x64 => (Block64x64, Block64x32, Block32x64, Block32x32)
    case Block64x128 => (Block64x128, Block64x64, BlockInvalid, Block32x64)
    case Block128x64 => (Block128x64, BlockInvalid, Block64x64, Block64x32)
    case Block128x128 => (Block128x128, Block128x64, Block64x128, Block64x64)
    case Block4x16 => (Block4x16, Block4x8, BlockInvalid, Block4x8)
    case Block16x4 => (Block16x4, BlockInvalid, Block8x4, Block8x4)
    case Block8x32 => (Block8x32, Block8x16, BlockInvalid, Block4x16)
    case Block32x8 => (Block32x8, BlockInvalid, Block16x8, Block16x4)
    case Block16x64 => (Block16x64, Block16x32, BlockInvalid, Block8x32)
    case Block64x16 => (Block64x16, BlockInvalid, Block32x16, Block32x8)
  }

  function Max(a: int, b: int): int { if a >= b then a else b }

  /**
   * get_plane_block_size: the size of a block's footprint in a plane
   * subsampled by (ssX, ssY). Each dimension is halved where subsampled,
   * with 4 as the floor; the result is BLOCK_INVALID exactly when the input
   * is, or when halving only the longer side of a non-square block would
   * make it an unsupported shape.
   */
  function GetPlaneBlockSize(b: BlockSize, ssX: int, ssY: int): (r: BlockSize)
    requires 0 <= ssX <= 1 && 0 <= ssY <= 1
    ensures b == BlockInvalid ==> r == BlockInvalid
    ensures ssX == 0 && ssY == 0 ==> r == b
    ensures r == BlockInvalid <==>
              b == BlockInvalid
              || (ssX == 1 && ssY == 0 && Height(b) > Width(b))
              || (ssX == 0 && ssY == 1 && Width(b) > Height(b))
    ensures r != BlockInvalid ==>
              Width(r) == Max(4, Width(b) / (ssX + 1)) && Height(r) == Max(4, Height(b) / (ssY + 1))
  {
    if b == BlockInvalid then BlockInvalid
    else
      var row := SsSizeRow(b);
      if ssX == 0 then (if ssY == 0 then row.0 else row.1)
      else (if ssY == 0 then row.2 else row.3)
  }

  /* ------------------------------------------------------------------ */
  /*  Depth-offset tables of the flattened block quad-tree               */
  /* ------------------------------------------------------------------ */

  /** GEOM_0: 64x64 down to 8x8 without NSQ; GEOM_1: 64x64 to 4x4; GEOM_2: 128x128 to 4x4. */
  datatype GeomIndex = Geom0 | Geom1 | Geom2

  const NotUsedValue: nat := 0
  const DepthCount: nat := 6

  /** Index distance from the last quadrant child back to its parent square. */
  function ParentDepthOffset(g: GeomIndex, d: nat): nat
    requires d < DepthCount
  {
    match g
    case Geom0 => [NotUsedValue, 64, 16, 4, NotUsedValue, NotUsedValue][d]
    case Geom1 => [NotUsedValue, 832, 208, 52, 8, NotUsedValue][d]
    case Geom2 => [NotUsedValue, 3320, 832, 208, 52, 8][d]
  }

  /** Index distance to the next quadrant sibling (skips a whole subtree). */
  function NsDepthOffset(g: GeomIndex, d: nat): nat
    requires d < DepthCount
  {
    match g
    case Geom0 => [85, 21, 5, 1, NotUsedValue, NotUsedValue][d]
    case Geom1 => [1101, 269, 61, 9, 1, NotUsedValue][d]
    case Geom2 => [4421, 1101, 269, 61, 9, 1][d]
  }

  /** Index distance from a square to its first quadrant child. */
  function D1DepthOffset(g: GeomIndex, d: nat): nat
    requires d < DepthCount
  {
    match g
    case Geom0 => [1, 1, 1, 1, 1, NotUsedValue][d]
    case Geom1 => [25, 25, 25, 5, 1, NotUsedValue][d]
    case Geom2 => [17, 25, 25, 25, 5, 1][d]
  }

  /** A depth is in use in a geometry when blocks of that depth exist, i.e. its sibling offset is set. */
  predicate DepthInUse(g: GeomIndex, d: nat)
  {
    d < DepthCount && NsDepthOffset(g, d) != NotUsedValue
  }

  function NsDepthOffsetBelow(g: GeomIndex, d: nat): nat
    requires d < DepthCount
  {
    if d + 1 < DepthCount then NsDepthOffset(g, d + 1) else 0
  }

  /**
   * The subtree of a square at an in-use depth is the square's own d1
   * blocks followed by its four quadrant subtrees, so skipping the whole
   * subtree (ns) equals skipping the d1 blocks and then four child subtrees.
   * A check of the tables' construction: it holds at every in-use depth of
   * both geometries, so the solver confirms it entry by entry.
   */
  lemma NsDepthOffsetRecurrence(g: GeomIndex, d: nat)
    requires DepthInUse(g, d)
    ensures NsDepthOffset(g, d) == D1DepthOffset(g, d) + 4 * NsDepthOffsetBelow(g, d)
  {
  }

  /**
   * From the last (fourth) quadrant child at depth d the parent is reached by
   * stepping back over the three earlier sibling subtrees and the parent's own
   * d1 blocks. Like the recurrence above, a check of the tables' construction.
   */
  lemma ParentDepthOffsetRelation(g: GeomIndex, d: nat)
    requires 1 <= d < DepthCount && DepthInUse(g, d)
    ensures ParentDepthOffset(g, d) == 3 * NsDepthOffset(g, d) + D1DepthOffset(g, d - 1)
  {
  }

  /** In-use depths form a prefix starting at depth 0, and unused depths have no parent offset. */
  lemma UnusedDepths(g: GeomIndex, d: nat)
    requires d < DepthCount && !DepthInUse(g, d)
    ensures d > 0 && ParentDepthOffset(g, d) == NotUsedValue
    ensures d + 1 < DepthCount ==> !DepthInUse(g, d + 1)
  {
  }

  /* ------------------------------------------------------------------ */
  /*  Expression macros                                                  */
  /* ------------------------------------------------------------------ */

  /** CLIP3(lo, hi, a). */
  function Clip3(lo: int, hi: int, a: int): (r: int)
    ensures lo <= hi ==> lo <= r <= hi
    ensures lo <= a <= hi ==> r == a
    ensures r == a || r == lo || r == hi
  {
    if a < lo then lo else if a > hi then hi else a
  }

  /** Clipping twice changes nothing, and clipping is monotone in its argument. */
  lemma Clip3IdempotentMonotone(lo: int, hi: int, a: int, b: int)
    requires lo <= hi
    ensures Clip3(lo, hi, Clip3(lo, hi, a)) == Clip3(lo, hi, a)
    ensures a <= b ==> Clip3(lo, hi, a) <= Clip3(lo, hi, b)
  {
  }

  /** C integer division, which truncates toward zero. */
  function CDiv(a: int, b: int): int
    requires b != 0
  {
    if a >= 0 then a / b
    else if b > 0 then -((-a) / b)
    else (-a) / (-b)
  }

  /** r is a non-negative multiple of base: base added to itself some number of times. */
  predicate IsMultipleOf(r: int, base: int)
    requires base > 0
    decreases if r < 0 then 0 else r
  {
    r == 0 || (r >= base && IsMultipleOf(r - base, base))
  }

  lemma {:induction false} ProductIsMultiple(q: nat, base: int)
    requires base > 0
    ensures IsMultipleOf(q * base, base)
  {
    if q > 0 {
      ProductIsMultiple(q - 1, base);
      assert q * base == (q - 1) * base + base;
    }
  }

  /** CEILING(x, base): x rounded up to a multiple of base. */
  function Ceiling(x: int, base: int): (r: int)
    requires base > 0
    ensures x >= 0 ==> IsMultipleOf(r, base) && x <= r < x + base
  {
    var q := CDiv(x + base - 1, base);
    if x >= 0 then ProductIsMultiple(q, base); q * base else q * base
  }

  /** CIRCULAR_ADD(x, max): brings an index that left [0, max) by less than max back into it. */
  function CircularAdd(x: int, max: int): (r: int)
    ensures 0 < max && -max <= x < 2 * max ==> 0 <= r < max && (x - r) % max == 0
  {
    if x >= max then x - max else if x < 0 then max + x else x
  }

  /** Largest power of two not above n, for the LOG2F_8 bound statements. */
  function Pow2(k: nat): (p: nat)
    ensures p >= 1
  {
    if k == 0 then 1 else 2 * Pow2(k - 1)
  }

  /** LOG2F_8(x): floor(log2 x) on [1, 64), 0 below, saturating at 6. */
  function Log2f8(x: nat): (r: nat)
    ensures r <= 6
    ensures x < 2 ==> r == 0
    ensures 1 <= x < 64 ==> Pow2(r) <= x < Pow2(r + 1)
    ensures x >= 64 ==> r == 6
  {
    if x < 0x0002 then 0
    else if x < 0x0004 then 1
    else if x < 0x0008 then 2
    else if x < 0x0010 then 3
    else if x < 0x0020 then 4
    else if x < 0x0040 then 5
    else 6
  }

  /**
   * MAX_CU_COUNT(n) = ((1 << n) * (1 << n) - 1) / 3 on 32-bit signed ints;
   * n <= 15 keeps the product below 2^31.
   */
  function MaxCuCount(n: nat): int
    requires n <= 15
  {
    (Pow2(n) * Pow2(n) - 1) / 3
  }

  /** Sum over k = 1..n of 4^(k-1): the number of squares in a quad-tree of n depths. */
  function QuadTreeNodes(n: nat): nat
  {
    if n == 0 then 0 else QuadTreeNodes(n - 1) + Pow2(n - 1) * Pow2(n - 1)
  }

  lemma {:induction false} Pow2Square(n: nat)
    ensures Pow2(n) * Pow2(n) == 3 * QuadTreeNodes(n) + 1
  {
    if n > 0 {
      Pow2Square(n - 1);
      var p := Pow2(n - 1);
      assert Pow2(n) * Pow2(n) == 4 * (p * p);
    }
  }

  /** MAX_CU_COUNT(n) is the geometric sum its comment promises. */
  lemma {:induction false} MaxCuCountIsQuadTreeNodes(n: nat)
    requires n <= 15
    ensures MaxCuCount(n) == QuadTreeNodes(n)
  {
    Pow2Square(n);
  }

  /**
   * Four depths (64x64 down to 8x8) give 85 squares, which is the GEOM_0
   * block count: a check that the closed form and the table agree.
   */
  lemma MaxCuCountMatchesGeom0()
    ensures MaxCuCount(4) == 85 == NsDepthOffset(Geom0, 0)
  {
    MaxCuCountIsQuadTreeNodes(4);
  }

  /* ------------------------------------------------------------------ */
  /*  Bit-vector macros                                                  */
  /* ------------------------------------------------------------------ */

  const SignBit: bv32 := 0x8000_0000

  predicate IsPow2(p: bv32)
  {
    p != 0 && p & (p - 1) == 0
  }

  /** p is the highest set bit of v: a power of two with p <= v < 2p. */
  predicate HighestBit(v: bv32, p: bv32)
  {
    IsPow2(p) && v & !(p - 1) == p
  }

  /**
   * m is 2^k - 1 for the least k with v < 2^k: a run of low ones that covers
   * every bit of v and whose top bit is v's highest set bit.
   */
  predicate LowMaskOf(m: bv32, v: bv32)
  {
    m & (m + 1) == 0 && v & !m == 0 && (m != 0 ==> v & !(m >> 1) != 0)
  }

  /** ROUND_UP_MULT(x, mult) on unsigned 32-bit values. */
  function RoundUpMult(x: bv32, mult: bv32): bv32
  {
    x + ((mult - (x & (mult - 1))) & (mult - 1))
  }

  lemma RoundUpMultAligned(x: bv32, mult: bv32)
    requires IsPow2(mult)
    ensures RoundUpMult(x, mult) & (mult - 1) == 0
  {
  }

  lemma RoundUpMultClose(x: bv32, mult: bv32)
    requires IsPow2(mult)
    ensures (RoundUpMult(x, mult) - x) & !(mult - 1) == 0
  {
  }

  /**
   * For a power-of-two mult, ROUND_UP_MULT gives a multiple of mult reached
   * from x by adding less than mult (modulo 2^32): the added amount has no
   * bit at or above mult's.
   */
  lemma RoundUpMultBound(x: bv32, mult: bv32)
    requires IsPow2(mult)
    ensures RoundUpMult(x, mult) & (mult - 1) == 0
    ensures (RoundUpMult(x, mult) - x) & !(mult - 1) == 0
  {
    RoundUpMultAligned(x, mult);
    RoundUpMultClose(x, mult);
  }

  /**
   * ROUND_UP_MUL_8(x) is ROUND_UP_MULT with mult = 8: a multiple of 8
   * reached from x by adding less than 8 (modulo 2^32).
   */
  function RoundUpMul8(x: bv32): (r: bv32)
    ensures r == RoundUpMult(x, 8)
    ensures r & 7 == 0 && r - x < 8
  {
    RoundUpMultBound(x, 8);
    x + ((8 - (x & 0x7)) & 0x7)
  }

  /**
   * The five OR-shift steps shared by FLOOR_POW2 and CEIL_POW2: every bit
   * below the highest set bit gets set.
   */
  method SmearRight(x0: bv32) returns (x: bv32)
    ensures LowMaskOf(x, x0)
  {
    x := x0;
    x := x | (x >> 1);
    x := x | (x >> 2);
    x := x | (x >> 4);
    x := x | (x >> 8);
    x := x | (x >> 16);
  }

  /** Removing the lower half of a low mask leaves its top bit, the highest bit of v. */
  lemma FloorOfMask(m: bv32, v: bv32)
    requires LowMaskOf(m, v)
    ensures v == 0 ==> m - (m >> 1) == 0
    ensures v != 0 ==> HighestBit(v, m - (m >> 1))
  {
  }

  /** One past a low mask is the next power of two above v; half of it is v's highest bit. */
  lemma CeilOfMask(m: bv32, v: bv32)
    requires LowMaskOf(m, v) && v != 0 && v & SignBit == 0
    ensures IsPow2(m + 1) && HighestBit(v, (m + 1) >> 1)
  {
  }

  lemma CeilOfMaskEdge(m: bv32, v: bv32)
    requires LowMaskOf(m, v)
    ensures v == 0 ==> m + 1 == 1
    ensures v & SignBit != 0 ==> m + 1 == 0
  {
  }

  /** FLOOR_POW2(x): the largest power of two not above x (0 stays 0). */
  method FloorPow2(x0: bv32) returns (x: bv32)
    ensures x0 == 0 ==> x == 0
    ensures x0 != 0 ==> HighestBit(x0, x)
  {
    x := SmearRight(x0);
    FloorOfMask(x, x0);
    x := x - (x >> 1);
  }

  /**
   * CEIL_POW2(x): the smallest power of two not below x, for 0 < x <= 2^31.
   * For x > 1 that power p satisfies p/2 <= x - 1 < p; 0 and values above
   * 2^31 wrap around to 0.
   */
  method CeilPow2(x0: bv32) returns (x: bv32)
    ensures x0 == 0 || x0 > SignBit ==> x == 0
    ensures x0 == 1 ==> x == 1
    ensures 1 < x0 <= SignBit ==> IsPow2(x) && HighestBit(x0 - 1, x >> 1)
  {
    x := x0 - 1;
    x := SmearRight(x);
    CeilOfMaskEdge(x, x0 - 1);
    if 1 < x0 <= SignBit {
      CeilOfMask(x, x0 - 1);
    }
    x := x + 1;
  }

  /** Bitwise exclusive-or of two 32-bit words, the operator SWAP is built from. */
  function BitXor(x: bv32, y: bv32): bv32 { x ^ y }

  /** Exclusive-or cancels: the second and third steps of SWAP restore the other operand. */
  lemma XorSwapSteps(a: bv32, b: bv32)
    ensures BitXor(b, BitXor(a, b)) == a
    ensures BitXor(BitXor(a, b), a) == b
  {
  }

  /** SWAP(a, b) by three exclusive-ors: the two variables exchange their values. */
  method Swap(a0: bv32, b0: bv32) returns (a: bv32, b: bv32)
    ensures a == b0 && b == a0
  {
    XorSwapSteps(a0, b0);
    a, b := a0, b0;
    a := BitXor(a, b);
    b := BitXor(b, a);
    a := BitXor(a, b);
  }

  /** UNSIGNED_DEC(x): decrement that stops at zero instead of wrapping. */
  method UnsignedDec(x0: bv32) returns (x: bv32)
    ensures x0 != 0 ==> x + 1 == x0
    ensures x0 == 0 ==> x == 0
  {
    x := if x0 > 0 then x0 - 1 else 0;
  }

  /* ------------------------------------------------------------------ */
  /*  gcc_right_shift, on the bits of a 32-bit int                       */
  /* ------------------------------------------------------------------ */

  const WordBits: nat := 32

  /** A 32-bit two's-complement int as its bits, the sign bit first. */
  predicate IsWord(w: seq<bool>)
  {
    |w| == WordBits
  }

  predicate Negative(w: seq<bool>)
    requires IsWord(w)
  {
    w[0]
  }

  function ZeroWord(): (z: seq<bool>)
    ensures IsWord(z) && forall i :: 0 <= i < WordBits ==> !z[i]
  {
    seq(WordBits, _ => false)
  }

  /** `sbit >> k`: only bit k, counted from the sign bit, is set. */
  function SignBitShr(k: nat): (w: seq<bool>)
    requires k < WordBits
    ensures IsWord(w) && forall i :: 0 <= i < WordBits ==> w[i] == (i == k)
  {
    seq(WordBits, i => i == k)
  }

  /** `(unsigned)w >> s`: zeros move in at the top. */
  function LogicalShr(w: seq<bool>, s: nat): (r: seq<bool>)
    requires IsWord(w) && s < WordBits
    ensures IsWord(r)
    ensures forall i :: 0 <= i < s ==> !r[i]
    ensures forall i :: s <= i < WordBits ==> r[i] == w[i - s]
  {
    seq(WordBits, i requires 0 <= i < WordBits => if i < s then false else w[i - s])
  }

  /** The arithmetic shift gcc performs on a signed int: copies of the sign bit move in at the top. */
  function ArithShr(w: seq<bool>, s: nat): (r: seq<bool>)
    requires IsWord(w) && s < WordBits
    ensures IsWord(r)
    ensures forall i :: 0 <= i < s ==> r[i] == w[0]
    ensures forall i :: s <= i < WordBits ==> r[i] == w[i - s]
  {
    seq(WordBits, i requires 0 <= i < WordBits => if i < s then w[0] else w[i - s])
  }

  function Or(x: seq<bool>, y: seq<bool>): (r: seq<bool>)
    requires IsWord(x) && IsWord(y)
    ensures IsWord(r) && forall i :: 0 <= i < WordBits ==> r[i] == (x[i] || y[i])
  {
    seq(WordBits, i requires 0 <= i < WordBits => x[i] || y[i])
  }

  function Xor(x: seq<bool>, y: seq<bool>): (r: seq<bool>)
    requires IsWord(x) && IsWord(y)
    ensures IsWord(r) && forall i :: 0 <= i < WordBits ==> r[i] == (x[i] != y[i])
  {
    seq(WordBits, i requires 0 <= i < WordBits => x[i] != y[i])
  }

  /**
   * gcc_right_shift as written: zero stays zero, a positive value is
   * shifted, and a negative one is shifted logically, has bits shift .. 1
   * set one at a time by the loop, and has its sign bit flipped. For
   * shift == 0 the loop does nothing and the flip clears the sign bit.
   */
  method GccRightShift(a: seq<bool>, shift: nat) returns (r: seq<bool>)
    requires IsWord(a) && shift < WordBits
    ensures IsWord(r)
    ensures shift != 0 || !Negative(a) ==> r == ArithShr(a, shift)
    ensures shift == 0 && Negative(a) ==> r == Xor(a, SignBitShr(0))
  {
    if a == ZeroWord() {
      r := ZeroWord();
      assert forall i :: 0 <= i < WordBits ==> r[i] == ArithShr(a, shift)[i];
      return;
    }
    if !Negative(a) {
      r := LogicalShr(a, shift);
      assert forall i :: 0 <= i < WordBits ==> r[i] == ArithShr(a, shift)[i];
      return;
    }
    var x := LogicalShr(a, shift);
    var k: nat := shift;
    while k > 0
      invariant k <= shift && IsWord(x)
      invariant forall i :: 0 <= i < WordBits ==> x[i] == if i < shift then k < i else a[i - shift]
    {
      x := Or(x, SignBitShr(k));
      k := k - 1;
    }
    r := Xor(x, SignBitShr(0));
    if shift != 0 {
      forall i | 0 <= i < WordBits
        ensures r[i] == ArithShr(a, shift)[i]
      {
        if i < shift {
          assert x[i] == (0 < i);
        } else {
          assert x[i] == a[i - shift];
        }
      }
    } else {
      assert forall i :: 0 <= i < WordBits ==> x[i] == a[i];
    }
  }

  /**
   * For every negative input, a zero shift makes gcc_right_shift return a
   * non-negative value, although an arithmetic shift by 0 is the identity.
   */
  lemma GccRightShiftZeroShiftFlipsSign(a: seq<bool>)
    requires IsWord(a) && Negative(a)
    ensures ArithShr(a, 0) == a
    ensures !Negative(Xor(a, SignBitShr(0))) && Xor(a, SignBitShr(0)) != a
  {
    assert forall i :: 0 <= i < WordBits ==> ArithShr(a, 0)[i] == a[i];
    assert Xor(a, SignBitShr(0))[0] != a[0];
  }

  /** The input -1 with shift 0: gcc_right_shift yields INT_MAX (0x7FFFFFFF) instead of -1. */
  lemma GccRightShiftMinusOneByZero()
    ensures var minusOne := seq(WordBits, _ => true);
      Xor(minusOne, SignBitShr(0)) == [false] + seq(WordBits - 1, _ => true)
  {
    var minusOne := seq(WordBits, _ => true);
    var intMax := [false] + seq(WordBits - 1, _ => true);
    assert forall i :: 0 <= i < WordBits ==> Xor(minusOne, SignBitShr(0))[i] == intMax[i];
  }

  /** gcc_right_shift with the zero shift answered by the input itself. */
  method GccRightShiftCorrected(a: seq<bool>, shift: nat) returns (r: seq<bool>)
    requires IsWord(a) && shift < WordBits
    ensures r == ArithShr(a, shift)
  {
    if shift == 0 {
      r := a;
      assert forall i :: 0 <= i < WordBits ==> r[i] == ArithShr(a, shift)[i];
      return;
    }
    r := GccRightShift(a, shift);
  }
}
