/** How the pieces of `large_local_to_cloud` fit together for one worker:
    the volume extents come from the pyramid descriptor, the batches from
    the generator over the whole stack, and the write loop fills every mip
    level `j < scale` with the stride-2^j subsampling of the converted
    stack. */
module Conversion {
  import opened Common
  import opened Grid
  import opened Pyramid
  import opened Generator
  import opened Writer

  /** `volume_size` of mip level `j` of a pyramid over an `x * y * z` base. */
  function LevelExtent(x: nat, y: nat, z: nat, j: nat): Extent
  {
    Extent(HalveTimes(x, j), HalveTimes(y, j), HalveTimes(z, j))
  }

  /** The extents of a store whose levels follow the pyramid descriptor. */
  predicate IsPyramid(shape: seq<Extent>, x: nat, y: nat, z: nat)
  {
    forall j :: 0 <= j < |shape| ==> shape[j] == LevelExtent(x, y, z, j)
  }

  /** Level `j` floor-halves level `j - 1` on every axis. */
  predicate HalvesAt(shape: seq<Extent>, j: nat)
    requires 0 < j < |shape|
  {
    shape[j] == Extent(shape[j - 1].x / 2, shape[j - 1].y / 2, shape[j - 1].z / 2)
  }

  /** Each level floor-halves the previous one. */
  predicate Halving(shape: seq<Extent>)
  {
    forall j :: 0 < j < |shape| ==> HalvesAt(shape, j)
  }

  /** The extent recorded in one scale of the descriptor. */
  function ExtentOf(s: Scale): Extent
    requires |s.size| == 3 && s.size[0] >= 0 && s.size[1] >= 0 && s.size[2] >= 0
  {
    Extent(s.size[0], s.size[1], s.size[2])
  }

  /** The descriptor built from a base scale of size `[x, y, z]` describes
      exactly the pyramid extents, level by level. */
  lemma DescriptorExtents(s0: Scale, k: int, x: nat, y: nat, z: nat, j: nat)
    requires s0.size == [x, y, z]
    requires j < |[s0] + NewLevels(s0, k)|
    ensures var s := ([s0] + NewLevels(s0, k))[j];
            |s.size| == 3 && s.size[0] >= 0 && s.size[1] >= 0 && s.size[2] >= 0 &&
            ExtentOf(s) == LevelExtent(x, y, z, j)
  {
    if j == 0 {
      ZeroLevelIdentity(s0.size);
    } else {
      assert ([s0] + NewLevels(s0, k))[j] == Level(s0, j);
      HalveTimesIsDiv(x, j);
      HalveTimesIsDiv(y, j);
      HalveTimesIsDiv(z, j);
    }
  }

  /** The pyramid extents start at the base and halve level by level. */
  lemma PyramidHalves(shape: seq<Extent>, x: nat, y: nat, z: nat)
    requires IsPyramid(shape, x, y, z)
    ensures Halving(shape)
    ensures |shape| > 0 ==> shape[0] == Extent(x, y, z)
  {
    forall j | 0 < j < |shape| ensures HalvesAt(shape, j) {
      assert shape[j - 1] == LevelExtent(x, y, z, j - 1);
      assert shape[j] == LevelExtent(x, y, z, j);
    }
    if |shape| > 0 {
      assert shape[0] == LevelExtent(x, y, z, 0);
    }
  }

  /** Number of planes of the level-`j` data of a batch with `n` planes. */
  function Depth(n: nat, shape: seq<Extent>, j: nat): nat
    requires j < |shape|
  {
    if j == 0 then n else Min(shape[j].z, (Depth(n, shape, j - 1) + 1) / 2)
  }

  /** Level data keeps the full X and Y extent of the level and has
      `Depth` planes. */
  lemma {:induction false} LevelDataShape(d: Grid3, shape: seq<Extent>, n: nat, j: nat)
    requires Halving(shape) && j < |shape| && IsBox(d, shape[0].x, shape[0].y, n)
    ensures IsBox(LevelData(d, shape, j), shape[j].x, shape[j].y, Depth(n, shape, j))
  {
    if j > 0 {
      LevelDataShape(d, shape, n, j - 1);
      assert HalvesAt(shape, j);
      DecimateCropShape(LevelData(d, shape, j - 1), shape[j - 1], shape[j], Depth(n, shape, j - 1));
    }
  }

  /** One decimate-and-crop step onto the next, halved, level keeps that
      level's X and Y extents. */
  lemma DecimateCropShape(p: Grid3, q: Extent, e: Extent, depth: nat)
    requires IsBox(p, q.x, q.y, depth) && e == Extent(q.x / 2, q.y / 2, q.z / 2)
    ensures IsBox(Crop(Decimate(p), e.x, e.y, e.z), e.x, e.y, Min(e.z, (depth + 1) / 2))
  {
    DecimateSpec(p, q.x, q.y, depth);
    CropSpec(Decimate(p), (q.x + 1) / 2, (q.y + 1) / 2, (depth + 1) / 2, e.x, e.y, e.z);
  }

  /** One step of the level data: element `(a, b, c)` of the decimated and
      cropped block is element `(2a, 2b, 2c)` of the block before. */
  lemma DecimateCropAt(p: Grid3, px: nat, py: nat, pd: nat, e: Extent, a: nat, b: nat, c: nat)
    requires IsBox(p, px, py, pd)
    requires a < e.x && a < (px + 1) / 2 && b < e.y && b < (py + 1) / 2 && c < e.z && c < (pd + 1) / 2
    ensures 2 * a < px && 2 * b < py && 2 * c < pd
    ensures IsBox(Crop(Decimate(p), e.x, e.y, e.z), Min(e.x, (px + 1) / 2), Min(e.y, (py + 1) / 2), Min(e.z, (pd + 1) / 2))
    ensures Crop(Decimate(p), e.x, e.y, e.z)[a][b][c] == p[2 * a][2 * b][2 * c]
  {
    DecimateSpec(p, px, py, pd);
    CropSpec(Decimate(p), (px + 1) / 2, (py + 1) / 2, (pd + 1) / 2, e.x, e.y, e.z);
  }

  /** Element `(a, b, c)` of the level-`j` data is element
      `(a 2^j, b 2^j, c 2^j)` of the batch: decimating `j` times samples
      every 2^j-th voxel along each axis. */
  lemma {:induction false} LevelDataAt(d: Grid3, shape: seq<Extent>, n: nat, j: nat, a: nat, b: nat, c: nat)
    requires Halving(shape) && j < |shape| && IsBox(d, shape[0].x, shape[0].y, n)
    requires a < shape[j].x && b < shape[j].y && c < Depth(n, shape, j)
    ensures 0 <= Stride(a, j) < shape[0].x && 0 <= Stride(b, j) < shape[0].y && 0 <= Stride(c, j) < n
    ensures InBox(LevelData(d, shape, j), a, b, c)
    ensures LevelData(d, shape, j)[a][b][c] == d[Stride(a, j)][Stride(b, j)][Stride(c, j)]
    decreases j
  {
    StrideBounds(shape, n, j, a, b, c);
    if j == 0 {
      assert InBox(d, a, b, c);
    } else {
      assert HalvesAt(shape, j);
      LevelDataAt(d, shape, n, j - 1, 2 * a, 2 * b, 2 * c);
      LevelDataStepAt(d, shape, n, j, a, b, c);
      StrideDouble(a, j);
      StrideDouble(b, j);
      StrideDouble(c, j);
    }
  }

  /** One level up, element `(a, b, c)` is element `(2a, 2b, 2c)` of the
      level below. */
  lemma LevelDataStepAt(d: Grid3, shape: seq<Extent>, n: nat, j: nat, a: nat, b: nat, c: nat)
    requires Halving(shape) && 0 < j < |shape| && IsBox(d, shape[0].x, shape[0].y, n)
    requires a < shape[j].x && b < shape[j].y && c < Depth(n, shape, j)
    ensures 2 * a < shape[j - 1].x && 2 * b < shape[j - 1].y && 2 * c < Depth(n, shape, j - 1)
    ensures InBox(LevelData(d, shape, j - 1), 2 * a, 2 * b, 2 * c) && InBox(LevelData(d, shape, j), a, b, c)
    ensures LevelData(d, shape, j)[a][b][c] == LevelData(d, shape, j - 1)[2 * a][2 * b][2 * c]
  {
    LevelDataShape(d, shape, n, j - 1);
    assert HalvesAt(shape, j);
    DecimateCropAt(LevelData(d, shape, j - 1), shape[j - 1].x, shape[j - 1].y, Depth(n, shape, j - 1), shape[j], a, b, c);
  }

  /** A level-`j` position maps back, at stride 2^j, to a position of the
      batch. */
  lemma {:induction false} StrideBounds(shape: seq<Extent>, n: nat, j: nat, a: nat, b: nat, c: nat)
    requires Halving(shape) && j < |shape|
    requires a < shape[j].x && b < shape[j].y && c < Depth(n, shape, j)
    ensures 0 <= Stride(a, j) < shape[0].x && 0 <= Stride(b, j) < shape[0].y && 0 <= Stride(c, j) < n
    decreases j
  {
    if j > 0 {
      assert HalvesAt(shape, j);
      StrideBounds(shape, n, j - 1, 2 * a, 2 * b, 2 * c);
      StrideDouble(a, j);
      StrideDouble(b, j);
      StrideDouble(c, j);
    }
  }

  /** Under halving, level `j` is the base extent floor-halved `j` times. */
  lemma {:induction false} HalvingClosed(shape: seq<Extent>, j: nat)
    requires Halving(shape) && j < |shape|
    ensures shape[j] == LevelExtent(shape[0].x, shape[0].y, shape[0].z, j)
  {
    if j > 0 {
      HalvingClosed(shape, j - 1);
      assert HalvesAt(shape, j);
    }
  }

  /** The level-`j` data of a batch of `n <= z` planes holds at least the
      first `n` floor-halved `j` times planes. */
  lemma {:induction false} DepthLowerBound(n: nat, shape: seq<Extent>, j: nat)
    requires Halving(shape) && j < |shape| && n <= shape[0].z
    ensures HalveTimes(n, j) <= Depth(n, shape, j)
  {
    if j > 0 {
      DepthLowerBound(n, shape, j - 1);
      HalvingClosed(shape, j);
      HalveMono(n, shape[0].z, j);
    }
  }

  /** The batch shape the generator delivers for the window `[0, z)` of the
      volume: `n` planes starting at `i`, a full `z_step` unless fewer
      planes are left before `z`. */
  predicate RegularBatch(i: int, n: nat, zStep: int, z: nat)
  {
    0 <= i && zStep > 0 && n == Min(zStep, z - i)
  }

  /** For a regular batch the level-0 clamp of lines 149-150 yields exactly
      the batch's plane count. */
  lemma ClampIsDepth(i: int, n: nat, zStep: int, z: nat)
    requires RegularBatch(i, n, zStep, z)
    ensures ClampedStep(i, zStep, z) == n
  {
  }

  /** A regular batch on a halving store fits every level: the slab of
      `n` planes from `i`, both floor-halved `j` times, lies within the
      level's Z extent and the level data covers it. */
  lemma BatchFitsAt(shape: seq<Extent>, i: int, d: Grid3, n: nat, zStep: int, j: nat)
    requires Halving(shape) && j < |shape| && IsBox(d, shape[0].x, shape[0].y, n)
    requires RegularBatch(i, n, zStep, shape[0].z)
    ensures ZLen(i, zStep, FirstZ(shape), j) == HalveTimes(n, j)
    ensures Fits(shape[j], ZStart(i, j), ZLen(i, zStep, FirstZ(shape), j), LevelData(d, shape, j))
  {
    ClampIsDepth(i, n, zStep, shape[0].z);
    HalvingClosed(shape, j);
    HalveSumLe(i, n, j);
    HalveMono(i + n, shape[0].z, j);
    LevelDataShape(d, shape, n, j);
    DepthLowerBound(n, shape, j);
  }

  /** With the batch start and `z_step` multiples of `cz 2^j`, the level-`j`
      slab of a regular batch starts on the chunk grid and ends on it or at
      the level's end (the last, clamped batch). */
  lemma BatchOnGrid(shape: seq<Extent>, cz: nat, i: int, n: nat, zStep: int, j: nat)
    requires Halving(shape) && j < |shape| && RegularBatch(i, n, zStep, shape[0].z)
    requires GridAligned(i, cz, j) && GridAligned(zStep, cz, j)
    ensures OnChunkGrid(shape[j], cz, ZStart(i, j), HalveTimes(n, j))
  {
    if n == zStep {
      ModSum(HalveTimes(i, j), HalveTimes(zStep, j), cz);
    } else {
      HalvingClosed(shape, j);
      HalveAligned(i, n, j);
    }
  }

  /** Such a batch is accepted at every level: it fits, and it stays on
      the chunk grid. */
  lemma BatchAcceptedAt(shape: seq<Extent>, cz: nat, i: int, d: Grid3, n: nat, zStep: int, j: nat)
    requires Halving(shape) && j < |shape| && IsBox(d, shape[0].x, shape[0].y, n)
    requires RegularBatch(i, n, zStep, shape[0].z) && GridAligned(i, cz, j) && GridAligned(zStep, cz, j)
    ensures Accepts(shape[j], cz, ZStart(i, j), ZLen(i, zStep, FirstZ(shape), j), LevelData(d, shape, j))
  {
    BatchFitsAt(shape, i, d, n, zStep, j);
    BatchOnGrid(shape, cz, i, n, zStep, j);
  }

  /** One batch whose every level is accepted: the run succeeds, level `l`
      for `j <= l < scale` receives its slab and all other levels are as
      they were. */
  lemma {:induction false} RunLevelsAccepted(mips: seq<Grid3>, shape: seq<Extent>, cz: nat, i: int, ds: seq<Grid3>,
                                             zStep: int, scale: int, j: nat)
    requires Conforms(mips, shape) && scale <= |shape| && |ds| == |shape|
    requires forall l :: j <= l < scale ==> LevelAccepted(shape, cz, i, ds, zStep, l)
    ensures RunLevels(mips, shape, cz, i, ds, zStep, scale, j).1
    ensures |RunLevels(mips, shape, cz, i, ds, zStep, scale, j).0| == |mips|
    ensures forall l :: j <= l < scale ==>
              RunLevels(mips, shape, cz, i, ds, zStep, scale, j).0[l] == WrittenLevel(mips[l], shape, cz, i, ds, zStep, l)
    ensures forall l :: 0 <= l < |mips| && !(j <= l < scale) ==>
              RunLevels(mips, shape, cz, i, ds, zStep, scale, j).0[l] == mips[l]
    decreases scale - j
  {
    if j < scale {
      var m := LevelStep(mips, shape, cz, i, ds, zStep, scale, j);
      RunLevelsAccepted(m, shape, cz, i, ds, zStep, scale, j + 1);
    }
  }

  /** An accepted write of level `j` replaces that level alone, and the run
      goes on from the next level. */
  lemma LevelStep(mips: seq<Grid3>, shape: seq<Extent>, cz: nat, i: int, ds: seq<Grid3>,
                  zStep: int, scale: int, j: nat) returns (m: seq<Grid3>)
    requires Conforms(mips, shape) && j < scale <= |shape| && |ds| == |shape|
    requires LevelAccepted(shape, cz, i, ds, zStep, j)
    ensures Conforms(m, shape) && |m| == |mips| && m[j] == WrittenLevel(mips[j], shape, cz, i, ds, zStep, j)
    ensures forall l :: 0 <= l < |mips| && l != j ==> m[l] == mips[l]
    ensures RunLevels(mips, shape, cz, i, ds, zStep, scale, j) == RunLevels(m, shape, cz, i, ds, zStep, scale, j + 1)
  {
    m := mips[j := WrittenLevel(mips[j], shape, cz, i, ds, zStep, j)];
  }

  /** A regular batch writes every level `j < scale` and nothing else. */
  lemma RegularBatchRun(mips: seq<Grid3>, shape: seq<Extent>, cz: nat, i: int, d: Grid3, n: nat, zStep: int, scale: int)
    requires Conforms(mips, shape) && scale <= |shape| && 0 < |shape| && Halving(shape)
    requires IsBox(d, shape[0].x, shape[0].y, n) && RegularBatch(i, n, zStep, shape[0].z)
    requires forall l :: 0 <= l < scale ==> GridAligned(i, cz, l) && GridAligned(zStep, cz, l)
    ensures forall l :: 0 <= l < scale ==> LevelAccepted(shape, cz, i, Levels(d, shape), zStep, l)
    ensures RunLevels(mips, shape, cz, i, Levels(d, shape), zStep, scale, 0).1
    ensures forall l :: 0 <= l < scale ==>
              RunLevels(mips, shape, cz, i, Levels(d, shape), zStep, scale, 0).0[l] ==
              WrittenLevel(mips[l], shape, cz, i, Levels(d, shape), zStep, l)
    ensures forall l :: 0 <= l < |shape| && scale <= l ==> RunLevels(mips, shape, cz, i, Levels(d, shape), zStep, scale, 0).0[l] == mips[l]
  {
    forall l | 0 <= l < scale ensures LevelAccepted(shape, cz, i, Levels(d, shape), zStep, l) {
      BatchAcceptedAt(shape, cz, i, d, n, zStep, l);
    }
    RunLevelsAccepted(mips, shape, cz, i, Levels(d, shape), zStep, scale, 0);
  }

  /** With `scale <= 0` the loop over levels is empty and nothing is written. */
  lemma {:induction false} NoScaleNoWrite(mips: seq<Grid3>, shape: seq<Extent>, cz: nat, batches: seq<(int, Grid3)>,
                                          zStep: int, scale: int)
    requires Conforms(mips, shape) && scale <= 0
    ensures RunBatches(mips, shape, cz, batches, zStep, scale) == (mips, true)
    decreases |batches|
  {
    if batches != [] {
      NoScaleNoWrite(mips, shape, cz, batches[1..], zStep, scale);
    }
  }

  /** The transformed voxel `(a 2^j, b 2^j)` of slice `c 2^j`, the sample
      that voxel `(a, b, c)` of mip level `j` holds; 0 off the stack. */
  function Sample(stack: Stack, binarize: bool, j: nat, a: int, b: int, c: int): int
  {
    if InBox(stack, Stride(c, j), Stride(a, j), Stride(b, j))
    then Voxel(stack[Stride(c, j)][Stride(a, j)][Stride(b, j)], binarize)
    else 0
  }

  /** Mip level `j` of the converted stack: the stack sampled at stride 2^j
      on every axis, with the slice axis moved last. */
  function TargetLevel(stack: Stack, binarize: bool, j: nat): (r: Grid3)
    requires Uniform(stack)
    ensures IsBox(r, HalveTimes(Rows(stack), j), HalveTimes(Cols(stack), j), HalveTimes(|stack|, j))
  {
    var x, y, z := HalveTimes(Rows(stack), j), HalveTimes(Cols(stack), j), HalveTimes(|stack|, j);
    seq(x, a requires 0 <= a < x =>
      seq(y, b requires 0 <= b < y =>
        seq(z, c requires 0 <= c < z => Sample(stack, binarize, j, a, b, c))))
  }

  /** Every voxel of level `j` comes from a voxel that is on the stack. */
  lemma TargetAt(stack: Stack, binarize: bool, j: nat, a: int, b: int, c: int)
    requires Uniform(stack)
    requires 0 <= a < HalveTimes(Rows(stack), j) && 0 <= b < HalveTimes(Cols(stack), j) && 0 <= c < HalveTimes(|stack|, j)
    ensures 0 <= Stride(a, j) < Rows(stack) && 0 <= Stride(b, j) < Cols(stack) && 0 <= Stride(c, j) < |stack|
    ensures IsRect(stack[Stride(c, j)], Rows(stack), Cols(stack))
    ensures TargetLevel(stack, binarize, j)[a][b][c] == Sample(stack, binarize, j, a, b, c)
                                                    == Voxel(stack[Stride(c, j)][Stride(a, j)][Stride(b, j)], binarize)
  {
    TargetBounds(stack, j, a, b, c);
  }

  lemma TargetBounds(stack: Stack, j: nat, a: int, b: int, c: int)
    requires Uniform(stack)
    requires 0 <= a < HalveTimes(Rows(stack), j) && 0 <= b < HalveTimes(Cols(stack), j) && 0 <= c < HalveTimes(|stack|, j)
    ensures 0 <= Stride(a, j) < Rows(stack) && 0 <= Stride(b, j) < Cols(stack) && 0 <= Stride(c, j) < |stack|
    ensures IsRect(stack[Stride(c, j)], Rows(stack), Cols(stack))
    ensures InBox(stack, Stride(c, j), Stride(a, j), Stride(b, j))
  {
    StrideBelow(a, Rows(stack), j);
    StrideBelow(b, Cols(stack), j);
    StrideBelow(c, |stack|, j);
  }

  /** Levels `j < scale` hold the converted stack on every plane below
      `h` floor-halved `j` times: after the batches up to slice `h`, those planes are final. */
  predicate FilledBelow(mips: seq<Grid3>, shape: seq<Extent>, stack: Stack, binarize: bool, scale: int, h: nat)
    requires Conforms(mips, shape) && Uniform(stack) && IsPyramid(shape, Rows(stack), Cols(stack), |stack|)
  {
    forall j, a, b, c ::
      0 <= j < scale && j < |shape| && 0 <= a < shape[j].x && 0 <= b < shape[j].y &&
      0 <= c < shape[j].z && c < HalveTimes(h, j) ==>
        mips[j][a][b][c] == Sample(stack, binarize, j, a, b, c)
  }

  /** Plane `c` of the level-`j` data of batch `[lo, hi)` samples slice
      `lo + c 2^j` of the stack. */
  lemma BatchLevelAt(stack: Stack, binarize: bool, shape: seq<Extent>, lo: int, hi: int, d: Grid3,
                     j: nat, a: nat, b: nat, c: nat)
    requires Uniform(stack) && Halving(shape) && j < |shape|
    requires shape[0] == Extent(Rows(stack), Cols(stack), |stack|) && 0 <= lo <= hi <= |stack|
    requires BatchOf(d, stack, lo, hi, binarize)
    requires a < shape[j].x && b < shape[j].y && c < Depth(hi - lo, shape, j)
    ensures InBox(LevelData(d, shape, j), a, b, c)
    ensures 0 <= Stride(a, j) < Rows(stack) && 0 <= Stride(b, j) < Cols(stack) && 0 <= Stride(c, j) < hi - lo
    ensures IsRect(stack[lo + Stride(c, j)], Rows(stack), Cols(stack))
    ensures LevelData(d, shape, j)[a][b][c] == Voxel(stack[lo + Stride(c, j)][Stride(a, j)][Stride(b, j)], binarize)
  {
    LevelDataAt(d, shape, hi - lo, j, a, b, c);
  }

  /** A plane `c` of the slab from `i` to `hi`, both floor-halved `j` times,
      for `i` a multiple of 2^j, is plane `c - i'` of the level data of the
      batch (`i'` the halved start), and both sample the same slice. */
  lemma SlabPlane(i: nat, hi: nat, z: nat, j: nat, c: int)
    requires i <= hi <= z && Aligned(i, j) && HalveTimes(i, j) <= c < HalveTimes(hi, j)
    ensures 0 <= c - HalveTimes(i, j) < HalveTimes(hi - i, j)
    ensures i + Stride(c - HalveTimes(i, j), j) == Stride(c, j)
    ensures c < HalveTimes(z, j)
  {
    HalveAligned(i, hi - i, j);
    StrideAdd(HalveTimes(i, j), c - HalveTimes(i, j), j);
    HalveMono(hi, z, j);
  }

  /** Inside the slab of batch `[lo, hi)` at level `j`, the written voxel
      is the target voxel: plane `c'` of the level data and plane `c` of
      the level sample the same slice. */
  lemma SlabVoxel(stack: Stack, binarize: bool, shape: seq<Extent>, lo: int, hi: int, d: Grid3,
                  j: nat, a: nat, b: nat, c: nat, c': nat)
    requires Uniform(stack) && Halving(shape) && j < |shape|
    requires shape[0] == Extent(Rows(stack), Cols(stack), |stack|) && 0 <= lo <= hi <= |stack|
    requires BatchOf(d, stack, lo, hi, binarize)
    requires a < shape[j].x && b < shape[j].y && c' < Depth(hi - lo, shape, j)
    requires a < HalveTimes(Rows(stack), j) && b < HalveTimes(Cols(stack), j) && c < HalveTimes(|stack|, j)
    requires lo + Stride(c', j) == Stride(c, j)
    ensures InBox(LevelData(d, shape, j), a, b, c')
    ensures LevelData(d, shape, j)[a][b][c'] == Sample(stack, binarize, j, a, b, c)
  {
    BatchLevelAt(stack, binarize, shape, lo, hi, d, j, a, b, c');
    TargetBounds(stack, j, a, b, c);
    SampleShifted(stack, binarize, lo, j, a, b, c, c');
  }

  /** A slice reached from the batch start is the slice the sample reads. */
  lemma SampleShifted(stack: Stack, binarize: bool, lo: int, j: nat, a: int, b: int, c: int, c': int)
    requires InBox(stack, Stride(c, j), Stride(a, j), Stride(b, j)) && lo + Stride(c', j) == Stride(c, j)
    ensures Voxel(stack[lo + Stride(c', j)][Stride(a, j)][Stride(b, j)], binarize) == Sample(stack, binarize, j, a, b, c)
  {
  }

  /** One voxel of level `j` after a regular batch `[i, hi)` whose start is
      a multiple of 2^j: below the batch's slab it is what the earlier
      batches wrote, inside the slab it is the sample. */
  lemma FilledVoxel(mips: seq<Grid3>, shape: seq<Extent>, cz: nat, stack: Stack, binarize: bool,
                    zStep: int, scale: int, i: nat, d: Grid3, j: nat, a: nat, b: nat, c: nat)
    requires Uniform(stack) && IsPyramid(shape, Rows(stack), Cols(stack), |stack|) && Conforms(mips, shape)
    requires j < scale <= |shape| && i < |stack| && zStep > 0 && GridAligned(i, cz, j) && GridAligned(zStep, cz, j)
    requires BatchOf(d, stack, i, BatchEnd(i, |stack|, zStep), binarize)
    requires FilledBelow(mips, shape, stack, binarize, scale, i)
    requires a < shape[j].x && b < shape[j].y && c < shape[j].z && c < HalveTimes(BatchEnd(i, |stack|, zStep), j)
    ensures LevelAccepted(shape, cz, i, Levels(d, shape), zStep, j)
    ensures WrittenLevel(mips[j], shape, cz, i, Levels(d, shape), zStep, j)[a][b][c] == Sample(stack, binarize, j, a, b, c)
  {
    var z := |stack|;
    assert LevelAccepted(shape, cz, i, Levels(d, shape), zStep, j) by {
      PyramidHalves(shape, Rows(stack), Cols(stack), z);
      BatchAcceptedAt(shape, cz, i, d, BatchEnd(i, z, zStep) - i, zStep, j);
    }
    var s, t, dj := ZStart(i, j), ZLen(i, zStep, FirstZ(shape), j), Levels(d, shape)[j];
    if c < s {
      AssignSpec(mips[j], shape[j], s, t, dj, a, b, c);
      assert mips[j][a][b][c] == Sample(stack, binarize, j, a, b, c);
    } else {
      SlabWritten(stack, binarize, shape, cz, zStep, i, d, mips[j], j, a, b, c);
    }
  }

  /** Inside the slab, the written level holds the sample. */
  lemma SlabWritten(stack: Stack, binarize: bool, shape: seq<Extent>, cz: nat, zStep: int, i: nat, d: Grid3,
                    v: Grid3, j: nat, a: nat, b: nat, c: nat)
    requires Uniform(stack) && IsPyramid(shape, Rows(stack), Cols(stack), |stack|)
    requires j < |shape| && i < |stack| && zStep > 0 && Aligned(i, j)
    requires BatchOf(d, stack, i, BatchEnd(i, |stack|, zStep), binarize)
    requires a < shape[j].x && b < shape[j].y && HalveTimes(i, j) <= c < HalveTimes(BatchEnd(i, |stack|, zStep), j)
    requires IsBox(v, shape[j].x, shape[j].y, shape[j].z) && LevelAccepted(shape, cz, i, Levels(d, shape), zStep, j) && c < shape[j].z
    ensures WrittenLevel(v, shape, cz, i, Levels(d, shape), zStep, j)[a][b][c] == Sample(stack, binarize, j, a, b, c)
  {
    assert Fits(shape[j], ZStart(i, j), ZLen(i, zStep, FirstZ(shape), j), Levels(d, shape)[j]);
    InSlab(stack, binarize, shape, zStep, i, d, j, a, b, c);
    assert Levels(d, shape)[j] == LevelData(d, shape, j);
    AssignIn(v, shape[j], ZStart(i, j), ZLen(i, zStep, FirstZ(shape), j), Levels(d, shape)[j], a, b, c,
             Sample(stack, binarize, j, a, b, c));
  }

  lemma AssignIn(v: Grid3, e: Extent, s: nat, t: nat, d: Grid3, a: nat, b: nat, c: nat, w: int)
    requires IsBox(v, e.x, e.y, e.z) && Fits(e, s, t, d)
    requires a < e.x && b < e.y && c < e.z && s <= c < s + t && InBox(d, a, b, c - s) && d[a][b][c - s] == w
    ensures Assign(v, e, s, t, d)[a][b][c] == w
  {
    AssignSpec(v, e, s, t, d, a, b, c);
  }

  /** Inside the slab of a regular batch whose start is a multiple of 2^j,
      level `j` of the batch holds the sample. */
  lemma InSlab(stack: Stack, binarize: bool, shape: seq<Extent>, zStep: int, i: nat, d: Grid3,
               j: nat, a: nat, b: nat, c: nat)
    requires Uniform(stack) && IsPyramid(shape, Rows(stack), Cols(stack), |stack|)
    requires j < |shape| && i < |stack| && zStep > 0 && Aligned(i, j)
    requires BatchOf(d, stack, i, BatchEnd(i, |stack|, zStep), binarize)
    requires a < shape[j].x && b < shape[j].y && HalveTimes(i, j) <= c < HalveTimes(BatchEnd(i, |stack|, zStep), j)
    ensures ZStart(i, j) <= c < ZStart(i, j) + ZLen(i, zStep, FirstZ(shape), j)
    ensures InBox(LevelData(d, shape, j), a, b, c - ZStart(i, j))
    ensures LevelData(d, shape, j)[a][b][c - ZStart(i, j)] == Sample(stack, binarize, j, a, b, c)
  {
    var z := |stack|;
    var hi := BatchEnd(i, z, zStep);
    PyramidHalves(shape, Rows(stack), Cols(stack), z);
    InSlabCursors(shape, zStep, i, z, j, c);
    DepthLowerBound(hi - i, shape, j);
    assert shape[j] == LevelExtent(Rows(stack), Cols(stack), z, j);
    SlabVoxel(stack, binarize, shape, i, hi, d, j, a, b, c, c - ZStart(i, j));
  }

  /** The cursor half of `InSlab`: a plane `c` of the level-`j` slab lies
      in the written range and maps back at stride 2^j to a slice the
      batch holds. */
  lemma InSlabCursors(shape: seq<Extent>, zStep: int, i: nat, z: nat, j: nat, c: int)
    requires |shape| > 0 && shape[0].z == z && i < z && zStep > 0 && Aligned(i, j)
    requires HalveTimes(i, j) <= c < HalveTimes(BatchEnd(i, z, zStep), j)
    ensures FirstZ(shape) == z
    ensures ZStart(i, j) <= c < ZStart(i, j) + ZLen(i, zStep, FirstZ(shape), j)
    ensures 0 <= c - ZStart(i, j) < HalveTimes(BatchEnd(i, z, zStep) - i, j)
    ensures i + Stride(c - ZStart(i, j), j) == Stride(c, j) && c < HalveTimes(z, j)
  {
    SlabCursors(i, zStep, z, j, c);
    SlabPlane(i, BatchEnd(i, z, zStep), z, j, c);
  }

  /** The cursors of lines 145-158 for a batch at `i`, a multiple of 2^j:
      every plane of the level-`j` slab of `[i, BatchEnd)` lies in the
      written range `[curr_z_start, curr_z_start + curr_z_step)`. */
  lemma SlabCursors(i: nat, zStep: int, z: nat, j: nat, c: int)
    requires i < z && zStep > 0 && Aligned(i, j)
    requires HalveTimes(i, j) <= c < HalveTimes(BatchEnd(i, z, zStep), j)
    ensures ZStart(i, j) <= c < ZStart(i, j) + ZLen(i, zStep, z, j)
  {
    var hi := BatchEnd(i, z, zStep);
    assert ClampedStep(i, zStep, z) == hi - i;
    HalveAligned(i, hi - i, j);
  }

  /** One batch `[i, BatchEnd)` of the generator, with `i` a multiple of
      2^(scale-1), extends the filled planes of every level `j < scale` from
      `i` to `BatchEnd`, each floor-halved `j` times, succeeds, and leaves the levels from
      `scale` on untouched. */
  lemma BatchFills(mips: seq<Grid3>, shape: seq<Extent>, cz: nat, stack: Stack, binarize: bool,
                   zStep: int, scale: int, i: nat, d: Grid3)
    requires Uniform(stack) && IsPyramid(shape, Rows(stack), Cols(stack), |stack|) && Conforms(mips, shape)
    requires 0 < scale <= |shape| && i < |stack| && zStep > 0
    requires GridAligned(i, cz, scale - 1) && GridAligned(zStep, cz, scale - 1)
    requires BatchOf(d, stack, i, BatchEnd(i, |stack|, zStep), binarize)
    requires FilledBelow(mips, shape, stack, binarize, scale, i)
    ensures RunLevels(mips, shape, cz, i, Levels(d, shape), zStep, scale, 0).1
    ensures FilledBelow(RunLevels(mips, shape, cz, i, Levels(d, shape), zStep, scale, 0).0, shape, stack, binarize, scale,
                        BatchEnd(i, |stack|, zStep))
    ensures forall l :: scale <= l < |shape| ==> RunLevels(mips, shape, cz, i, Levels(d, shape), zStep, scale, 0).0[l] == mips[l]
  {
    var z := |stack|;
    var hi := BatchEnd(i, z, zStep);
    forall j: nat | j < scale ensures GridAligned(i, cz, j) && GridAligned(zStep, cz, j) {
      GridAlignedBelow(i, cz, j, scale - 1);
      GridAlignedBelow(zStep, cz, j, scale - 1);
    }
    PyramidHalves(shape, Rows(stack), Cols(stack), z);
    RegularBatchRun(mips, shape, cz, i, d, hi - i, zStep, scale);
    var r := RunLevels(mips, shape, cz, i, Levels(d, shape), zStep, scale, 0);
    forall j, a, b, c | 0 <= j < scale && j < |shape| && 0 <= a < shape[j].x && 0 <= b < shape[j].y &&
                        0 <= c < shape[j].z && c < HalveTimes(hi, j)
      ensures r.0[j][a][b][c] == Sample(stack, binarize, j, a, b, c)
    {
      FilledVoxel(mips, shape, cz, stack, binarize, zStep, scale, i, d, j, a, b, c);
    }
  }

  /** The generator resumed at `i`, a multiple of 2^(scale-1), with a
      `z_step` that is one too: the remaining batches all succeed, fill
      every level `j < scale` completely and touch no other level. */
  lemma {:induction false} RunFills(mips: seq<Grid3>, shape: seq<Extent>, cz: nat, stack: Stack, binarize: bool,
                                    zStep: int, scale: int, i: nat)
    requires Uniform(stack) && IsPyramid(shape, Rows(stack), Cols(stack), |stack|) && Conforms(mips, shape)
    requires 0 < scale <= |shape| && zStep > 0 && GridAligned(i, cz, scale - 1) && GridAligned(zStep, cz, scale - 1)
    requires FilledBelow(mips, shape, stack, binarize, scale, Min(i, |stack|))
    ensures RunBatches(mips, shape, cz, Gen(stack, i, |stack|, zStep, binarize).batches, zStep, scale).1
    ensures FilledBelow(RunBatches(mips, shape, cz, Gen(stack, i, |stack|, zStep, binarize).batches, zStep, scale).0,
                        shape, stack, binarize, scale, |stack|)
    ensures forall l :: scale <= l < |shape| ==>
              RunBatches(mips, shape, cz, Gen(stack, i, |stack|, zStep, binarize).batches, zStep, scale).0[l] == mips[l]
    decreases |stack| - i
  {
    if i < |stack| {
      assert Min(i, |stack|) == i;
      var m := FillStep(mips, shape, cz, stack, binarize, zStep, scale, i);
      GridAlignedSum(i, zStep, cz, scale - 1);
      assert Min(i + zStep, |stack|) == BatchEnd(i, |stack|, zStep);
      RunFills(m, shape, cz, stack, binarize, zStep, scale, i + zStep);
    }
  }

  /** The first batch of a generator resumed at `i`: the run continues from
      the levels `m` it writes, which are filled up to the batch's end. */
  lemma FillStep(mips: seq<Grid3>, shape: seq<Extent>, cz: nat, stack: Stack, binarize: bool,
                 zStep: int, scale: int, i: nat) returns (m: seq<Grid3>)
    requires Uniform(stack) && IsPyramid(shape, Rows(stack), Cols(stack), |stack|) && Conforms(mips, shape)
    requires 0 < scale <= |shape| && zStep > 0 && i < |stack|
    requires GridAligned(i, cz, scale - 1) && GridAligned(zStep, cz, scale - 1)
    requires FilledBelow(mips, shape, stack, binarize, scale, i)
    ensures Conforms(m, shape) && FilledBelow(m, shape, stack, binarize, scale, BatchEnd(i, |stack|, zStep))
    ensures forall l :: scale <= l < |shape| ==> m[l] == mips[l]
    ensures RunBatches(mips, shape, cz, Gen(stack, i, |stack|, zStep, binarize).batches, zStep, scale) ==
            RunBatches(m, shape, cz, Gen(stack, i + zStep, |stack|, zStep, binarize).batches, zStep, scale)
  {
    var z := |stack|;
    var hi := BatchEnd(i, z, zStep);
    var d := BatchData(stack, i, hi, binarize);
    var rest := Gen(stack, i + zStep, z, zStep, binarize).batches;
    GenStep(stack, i, zStep, binarize);
    BatchDataIsBatch(stack, i, hi, binarize);
    BatchFills(mips, shape, cz, stack, binarize, zStep, scale, i, d);
    m := RunLevels(mips, shape, cz, i, Levels(d, shape), zStep, scale, 0).0;
    assert ([(i, d)] + rest)[1..] == rest;
  }

  /** A generator resumed inside the stack yields the batch at `i` first. */
  lemma GenStep(stack: Stack, i: nat, zStep: int, binarize: bool)
    requires Uniform(stack) && i < |stack| && zStep > 0
    ensures Gen(stack, i, |stack|, zStep, binarize).batches ==
            [(i, BatchData(stack, i, BatchEnd(i, |stack|, zStep), binarize))] + Gen(stack, i + zStep, |stack|, zStep, binarize).batches
  {
    assert ReadStack(stack, i, BatchEnd(i, |stack|, zStep)).Success?;
  }

  /** A level filled on all of its planes is the target level. */
  lemma LevelComplete(mips: seq<Grid3>, shape: seq<Extent>, stack: Stack, binarize: bool, scale: int, j: nat)
    requires Conforms(mips, shape) && Uniform(stack) && IsPyramid(shape, Rows(stack), Cols(stack), |stack|)
    requires FilledBelow(mips, shape, stack, binarize, scale, |stack|) && j < scale && j < |shape|
    ensures mips[j] == TargetLevel(stack, binarize, j)
  {
    var e, t := shape[j], TargetLevel(stack, binarize, j);
    assert e == LevelExtent(Rows(stack), Cols(stack), |stack|, j);
    forall a, b, c | 0 <= a < e.x && 0 <= b < e.y && 0 <= c < e.z ensures mips[j][a][b][c] == t[a][b][c] {
      assert t[a][b][c] == Sample(stack, binarize, j, a, b, c);
    }
    BoxEq(mips[j], t, e.x, e.y, e.z);
  }

  /** Nothing is filled below plane 0. */
  lemma FilledNothing(mips: seq<Grid3>, shape: seq<Extent>, stack: Stack, binarize: bool, scale: int)
    requires Conforms(mips, shape) && Uniform(stack) && IsPyramid(shape, Rows(stack), Cols(stack), |stack|)
    ensures FilledBelow(mips, shape, stack, binarize, scale, 0)
  {
  }

  /** The conversion theorem: when the chunk Z extent `cz` times
      2^(scale-1) divides `z_step`, feeding every batch of the stack to the
      write loop succeeds, leaves level `j < scale` holding the converted
      stack sampled at stride 2^j, and leaves the other levels alone. */
  lemma ConversionFillsPyramid(mips: seq<Grid3>, shape: seq<Extent>, cz: nat, stack: Stack, binarize: bool,
                               zStep: int, scale: int)
    requires Uniform(stack) && IsPyramid(shape, Rows(stack), Cols(stack), |stack|) && Conforms(mips, shape)
    requires 0 < scale <= |shape| && cz > 0 && zStep > 0 && zStep % (cz * Pow2(scale - 1)) == 0
    ensures var r := RunBatches(mips, shape, cz, Gen(stack, 0, |stack|, zStep, binarize).batches, zStep, scale);
            r.1 && (forall j :: 0 <= j < scale ==> r.0[j] == TargetLevel(stack, binarize, j)) &&
            forall l :: scale <= l < |shape| ==> r.0[l] == mips[l]
  {
    MulMono(1, cz, Pow2(scale - 1));
    DivUnique(0, cz * Pow2(scale - 1), 0, 0);
    GridAlignedOfMod(0, cz, scale - 1);
    GridAlignedOfMod(zStep, cz, scale - 1);
    FilledNothing(mips, shape, stack, binarize, scale);
    RunFills(mips, shape, cz, stack, binarize, zStep, scale, 0);
    var r := RunBatches(mips, shape, cz, Gen(stack, 0, |stack|, zStep, binarize).batches, zStep, scale);
    forall j | 0 <= j < scale ensures r.0[j] == TargetLevel(stack, binarize, j) {
      LevelComplete(r.0, shape, stack, binarize, scale, j);
    }
  }

  /** The `z_step` that `main` picks when none is given, for `scale >= 1`:
      the chunk's X extent, `chunk_size[0]`, times 2^(scale-1). */
  function DefaultZStep(chunkX: int, scale: int): (r: int)
    requires scale >= 1
    ensures r == Stride(chunkX, scale - 1)
  {
    StrideIsMul(chunkX, scale - 1);
    chunkX * Pow2(scale - 1)
  }

  /** The default `z_step` meets the conversion theorem's condition when
      the chunk's X extent is a positive multiple of its Z extent: it is
      positive and a multiple of `chunkZ` 2^(scale-1). */
  lemma DefaultZStepAligned(chunkX: int, chunkZ: int, scale: int)
    requires scale >= 1 && chunkZ > 0 && chunkX > 0 && chunkX % chunkZ == 0
    ensures DefaultZStep(chunkX, scale) > 0 && DefaultZStep(chunkX, scale) % (chunkZ * Pow2(scale - 1)) == 0
  {
    var q := chunkX / chunkZ;
    assert chunkX == chunkZ * q;
    MulMono(1, chunkX, Pow2(scale - 1));
    MulMono(1, chunkZ, Pow2(scale - 1));
    assert DefaultZStep(chunkX, scale) == (chunkZ * Pow2(scale - 1)) * q;
    DivUnique(DefaultZStep(chunkX, scale), chunkZ * Pow2(scale - 1), q, 0);
  }

  /** The default `z_step` taken from the chunk's X extent makes the
      conversion fail when the chunk's Z extent is larger. With chunks of
      32 x 32 x 64 voxels, one level and a stack of 128 slices, `z_step` is
      32, and the very first write, planes [0, 32), ends off the 64-plane
      chunk grid before the level's end of 128: the backend refuses it, so
      the run stops there with nothing written. */
  lemma DefaultZStepOffGrid(stack: Stack, mips: seq<Grid3>, binarize: bool)
    requires Uniform(stack) && |stack| == 128
    requires Conforms(mips, [Extent(Rows(stack), Cols(stack), 128)])
    ensures DefaultZStep(32, 1) == 32
    ensures !Accepts(Extent(Rows(stack), Cols(stack), 128), 64, ZStart(0, 0), ZLen(0, DefaultZStep(32, 1), 128, 0),
                     BatchData(stack, 0, 32, binarize))
    ensures RunBatches(mips, [Extent(Rows(stack), Cols(stack), 128)], 64,
                       Gen(stack, 0, 128, DefaultZStep(32, 1), binarize).batches, DefaultZStep(32, 1), 1) == (mips, false)
  {
    var shape := [Extent(Rows(stack), Cols(stack), 128)];
    var zStep := DefaultZStep(32, 1);
    assert zStep == 32 by {
      StrideIsMul(32, 0);
    }
    GenStep(stack, 0, zStep, binarize);
    var bs := Gen(stack, 0, 128, zStep, binarize).batches;
    assert bs[0].0 == 0 && bs[0].1 == BatchData(stack, 0, 32, binarize);
    assert ZStart(0, 0) == 0 && ZLen(0, zStep, FirstZ(shape), 0) == 32;
    assert !LevelAccepted(shape, 64, 0, Levels(bs[0].1, shape), zStep, 0);
    assert RunLevels(mips, shape, 64, 0, Levels(bs[0].1, shape), zStep, 1, 0) == (mips, false);
  }

  /** A default `z_step` taken from the chunk's Z extent instead: the
      chunk Z extent times 2^(scale-1). */
  function ChunkZStep(chunkZ: int, scale: int): int
    requires scale >= 1
  {
    chunkZ * Pow2(scale - 1)
  }

  /** For every positive chunk Z extent it meets the conversion theorem's
      condition, whatever the X extent. */
  lemma ChunkZStepAligned(chunkZ: int, scale: int)
    requires scale >= 1 && chunkZ > 0
    ensures ChunkZStep(chunkZ, scale) > 0 && ChunkZStep(chunkZ, scale) % (chunkZ * Pow2(scale - 1)) == 0
  {
    MulMono(1, chunkZ, Pow2(scale - 1));
    DivUnique(ChunkZStep(chunkZ, scale), chunkZ * Pow2(scale - 1), 1, 0);
  }

  /** `data_type` of `large_local_to_cloud`: the caller's dtype, or the
      first slice's own dtype `native` when the caller's is falsy (None or
      the empty string). */
  function DataType(dtype: Option<string>, native: string): (r: Option<string>)
    ensures r.Some?
    ensures dtype != None && dtype != Some("") ==> r == dtype
  {
    if dtype == None || dtype == Some("") then Some(native) else dtype
  }

  /** The dtype decides binarization only through `data_type`: without a
      caller's dtype a stack stored as uint32 is binarized too. */
  lemma DataTypeBinarize(dtype: Option<string>, native: string, multi: bool)
    ensures BinarizeMode(DataType(dtype, native), multi) <==>
            !multi && (if dtype == None || dtype == Some("") then native == "uint32" else dtype == Some("uint32"))
  {
  }

  /** `large_local_to_cloud` for the one worker of a run without MPI over a
      stack of `len` slices starting at slice 0, whose first slice is
      stored as `native`: the generator over `range(0, len, z_step)` feeds
      the write loop, which succeeds and leaves mip level `j < scale` of
      the volume holding the converted stack sampled at stride 2^j. */
  method ConvertStack(store: Store, stack: Stack, dtype: Option<string>, native: string, multi: bool,
                      zStep: int, scale: int) returns (ok: bool)
    requires Uniform(stack) && store.Valid() && IsPyramid(store.shape, Rows(stack), Cols(stack), |stack|)
    requires 0 < scale <= |store.shape| && store.chunkZ > 0 && zStep > 0
    requires zStep % (store.chunkZ * Pow2(scale - 1)) == 0
    modifies store
    ensures store.Valid() && ok
    ensures forall j :: 0 <= j < scale ==>
              store.mips[j] == TargetLevel(stack, BinarizeMode(DataType(dtype, native), multi), j)
    ensures forall l :: scale <= l < |store.shape| ==> store.mips[l] == old(store.mips)[l]
  {
    var dataType := DataType(dtype, native);
    var binarize := BinarizeMode(dataType, multi);
    var g := LargeDataGenerator(stack, 0, |stack|, zStep, dataType, multi);
    GenCount(stack, 0, |stack|, zStep, binarize);
    ConversionFillsPyramid(store.mips, store.shape, store.chunkZ, stack, binarize, zStep, scale);
    ok := LargeLocalToCloud(store, g.batches, g.error, zStep, scale);
  }
}
