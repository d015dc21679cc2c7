/**
 * The cursor walk over a superblock's flattened quad-tree, shared by the
 * encode/decode pass and the update pass. The cursor starts at md-scan
 * index 0. A node that is not allowed, or that MD split, is skipped by its
 * d1_depth_offset. Otherwise the ns_blk_num[part] d1 blocks starting at
 * cursor + ns_blk_offset[part] are coded and the cursor moves on by the
 * ns_depth_offset of the last of them (the geometry the d1 loop leaves
 * behind), counted from the node's own index.
 */
module Traversal {
  import opened Geometry

  /**
   * What the walk reads for each md-scan index below max_block_cnt: the
   * block geometry, the block_is_allowed flag and the partition MD chose.
   */
  datatype Scan = Scan(geom: seq<BlockGeom>, allowed: seq<bool>, parts: seq<Partition>)

  predicate Shaped(s: Scan)
  {
    |s.allowed| == |s.geom| && |s.parts| == |s.geom|
  }

  /** The node at cursor c has its d1 blocks coded. */
  predicate Coded(s: Scan, c: nat)
    requires Shaped(s) && c < |s.geom|
  {
    s.allowed[c] && s.parts[c] != PartitionSplit
  }

  /** First d1 block of the node at c: blk_it + ns_blk_offset[part]. */
  function D1Start(s: Scan, c: nat): nat
    requires Shaped(s) && c < |s.geom|
  {
    c + NsBlkOffset(s.parts[c])
  }

  /** Number of d1 blocks of the node at c: ns_blk_num[part]. */
  function D1Num(s: Scan, c: nat): nat
    requires Shaped(s) && c < |s.geom|
  {
    NsBlkNum(s.parts[c])
  }

  /**
   * The geometry table is built so that the walk makes progress: both depth
   * offsets are positive, the d1 blocks of a coded node are inside the
   * block array, and the ns_depth_offset of the last of them steps past
   * all of them.
   */
  predicate WellFormed(s: Scan)
  {
    && Shaped(s)
    && forall c :: 0 <= c < |s.geom| ==>
         && s.geom[c].d1DepthOffset > 0
         && s.geom[c].nsDepthOffset > 0
         && (Coded(s, c) ==> D1Start(s, c) + D1Num(s, c) <= |s.geom|)
         && (Coded(s, c) && D1Start(s, c) + D1Num(s, c) <= |s.geom| ==>
               NsBlkOffset(s.parts[c]) + D1Num(s, c) <= s.geom[D1Start(s, c) + D1Num(s, c) - 1].nsDepthOffset)
  }

  /** Index of the last d1 block of a coded node, whose geometry decides the next step. */
  function LastD1(s: Scan, c: nat): (l: nat)
    requires WellFormed(s) && c < |s.geom| && Coded(s, c)
    ensures c <= D1Start(s, c) <= l < |s.geom|
  {
    D1Start(s, c) + D1Num(s, c) - 1
  }

  /**
   * The cursor after the node at c. It always moves forward, and past the
   * d1 blocks it has just coded.
   */
  function Next(s: Scan, c: nat): (n: nat)
    requires WellFormed(s) && c < |s.geom|
    ensures n > c
    ensures Coded(s, c) ==> n > LastD1(s, c)
  {
    if Coded(s, c) then c + s.geom[LastD1(s, c)].nsDepthOffset
    else c + s.geom[c].d1DepthOffset
  }

  /** The successive values of blk_it from c until the loop ends. */
  function Cursors(s: Scan, c: nat): seq<nat>
    requires WellFormed(s)
    decreases |s.geom| - c
  {
    if c >= |s.geom| then [] else [c] + Cursors(s, Next(s, c))
  }

  /** The n consecutive md-scan indices from start on. */
  function Range(start: nat, n: nat): (r: seq<nat>)
    ensures |r| == n && forall k :: 0 <= k < n ==> r[k] == start + k
  {
    seq(n, k => start + k)
  }

  /** One more index at the end of a range. */
  lemma RangeSnoc(start: nat, n: nat)
    requires n > 0
    ensures Range(start, n) == Range(start, n - 1) + [start + n - 1]
  {
    assert Range(start, n)[..n - 1] == Range(start, n - 1);
  }

  /** An index is in a range exactly when it lies between its ends. */
  lemma RangeMembership(start: nat, n: nat, x: nat)
    ensures x in Range(start, n) <==> start <= x < start + n
  {
    if start <= x < start + n {
      assert Range(start, n)[x - start] == x;
    }
  }

  /** The d1 blocks coded for the node at c, in the order of the d1 loop. */
  function BlocksOf(s: Scan, c: nat): seq<nat>
    requires WellFormed(s) && c < |s.geom|
  {
    if Coded(s, c) then Range(D1Start(s, c), D1Num(s, c)) else []
  }

  /** All d1 blocks coded from cursor c on, in coding order. */
  function D1Blocks(s: Scan, c: nat): seq<nat>
    requires WellFormed(s)
    decreases |s.geom| - c
  {
    if c >= |s.geom| then [] else BlocksOf(s, c) + D1Blocks(s, Next(s, c))
  }

  predicate Increasing(xs: seq<nat>)
  {
    forall i, j :: 0 <= i < j < |xs| ==> xs[i] < xs[j]
  }

  predicate Within(xs: seq<nat>, lo: nat, hi: nat)
  {
    forall i :: 0 <= i < |xs| ==> lo <= xs[i] < hi
  }

  lemma ConcatIncreasing(xs: seq<nat>, ys: seq<nat>, lo: nat, mid: nat, hi: nat)
    requires lo <= mid <= hi
    requires Increasing(xs) && Within(xs, lo, mid)
    requires Increasing(ys) && Within(ys, mid, hi)
    ensures Increasing(xs + ys) && Within(xs + ys, lo, hi)
  {
    var zs := xs + ys;
    forall i, j | 0 <= i < j < |zs|
      ensures zs[i] < zs[j]
    {
      if j < |xs| {
      } else if i >= |xs| {
        assert zs[i] == ys[i - |xs|] && zs[j] == ys[j - |xs|];
      } else {
        assert zs[j] == ys[j - |xs|];
      }
    }
    forall i | 0 <= i < |zs|
      ensures lo <= zs[i] < hi
    {
      if i >= |xs| {
        assert zs[i] == ys[i - |xs|];
      } else {
        assert zs[i] == xs[i];
      }
    }
  }

  /**
   * The cursor visits md-scan indices in strictly increasing order, from c
   * on and below max_block_cnt, so the loop ends.
   */
  lemma {:induction false} CursorsIncreasing(s: Scan, c: nat)
    requires WellFormed(s)
    ensures Increasing(Cursors(s, c))
    ensures Within(Cursors(s, c), c, |s.geom|)
    decreases |s.geom| - c
  {
    if c < |s.geom| {
      var n := Next(s, c);
      var mid := if n < |s.geom| then n else |s.geom|;
      CursorsIncreasing(s, n);
      ConcatIncreasing([c], Cursors(s, n), c, mid, |s.geom|);
    }
  }

  /**
   * The coded d1 blocks come in strictly increasing md-scan order, so no
   * block is coded twice, and all of them lie in [c, max_block_cnt).
   */
  lemma {:induction false} D1BlocksIncreasing(s: Scan, c: nat)
    requires WellFormed(s)
    ensures Increasing(D1Blocks(s, c))
    ensures Within(D1Blocks(s, c), c, |s.geom|)
    decreases |s.geom| - c
  {
    if c < |s.geom| {
      var n := Next(s, c);
      D1BlocksIncreasing(s, n);
      var mid := if n < |s.geom| then n else |s.geom|;
      if Coded(s, c) {
        assert Within(BlocksOf(s, c), c, mid);
      }
      ConcatIncreasing(BlocksOf(s, c), D1Blocks(s, n), c, mid, |s.geom|);
    }
  }

  /**
   * Block x is coded exactly when it is one of the ns_blk_num[part]
   * consecutive d1 blocks of some visited node that is allowed and not
   * split; a skipped node contributes none.
   */
  lemma {:induction false} D1BlocksMembership(s: Scan, c: nat, x: nat)
    requires WellFormed(s)
    ensures x in D1Blocks(s, c) <==>
      exists y :: y in Cursors(s, c) && y < |s.geom| && Coded(s, y) && D1Start(s, y) <= x < D1Start(s, y) + D1Num(s, y)
    decreases |s.geom| - c
  {
    if c < |s.geom| {
      var n := Next(s, c);
      D1BlocksMembership(s, n, x);
      assert Cursors(s, c) == [c] + Cursors(s, n);
      assert D1Blocks(s, c) == BlocksOf(s, c) + D1Blocks(s, n);
      if Coded(s, c) && D1Start(s, c) <= x < D1Start(s, c) + D1Num(s, c) {
        assert BlocksOf(s, c)[x - D1Start(s, c)] == x;
      }
    }
  }
}
