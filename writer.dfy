/** The per-batch pyramid write loop of `large_local_to_cloud`: for every
    yielded batch and every mip level `j < scale`, the batch is written into
    the level's volume at Z planes `[curr_z_start, curr_z_start + curr_z_step)`,
    after which both cursors are floor-halved and the data is decimated and
    cropped for the next level. The chunked volume backend is modelled as an
    in-memory block per mip level. */
module Writer {
  import opened Common
  import opened Grid

  /** `volume_size` of one mip level. */
  datatype Extent = Extent(x: nat, y: nat, z: nat)

  /** Each level's block has its level's extent. */
  predicate Conforms(mips: seq<Grid3>, shape: seq<Extent>)
  {
    |mips| == |shape| &&
    forall j :: 0 <= j < |shape| ==> IsBox(mips[j], shape[j].x, shape[j].y, shape[j].z)
  }

  /** The shape half of `vol[:, :, s:s+t] = d[:, :, :t]`: the slab lies
      inside the level's extent and the data has exactly the level's X and
      Y extents and at least `t` planes. */
  predicate Fits(e: Extent, s: int, t: int, d: Grid3)
  {
    0 <= s && 0 <= t && s + t <= e.z && |d| == e.x &&
    (forall a :: 0 <= a < e.x ==> |d[a]| == e.y) &&
    (forall a, b :: 0 <= a < e.x && 0 <= b < e.y ==> t <= |d[a][b]|)
  }

  /** The chunk-grid half: a volume opened without `non_aligned_writes`
      takes a slab only when its Z range, widened to whole chunks of `cz`
      planes and clamped to the level, is the range itself; so the start
      is on the grid and the end is on the grid or at the level's end. The
      X and Y ranges always span the whole level and so always pass. */
  predicate OnChunkGrid(e: Extent, cz: nat, s: int, t: int)
  {
    cz > 0 && s % cz == 0 && ((s + t) % cz == 0 || s + t == e.z)
  }

  /** The backend takes the assignment exactly when both halves hold. */
  predicate Accepts(e: Extent, cz: nat, s: int, t: int, d: Grid3)
  {
    Fits(e, s, t, d) && OnChunkGrid(e, cz, s, t)
  }

  /** The block after an accepted slab assignment. */
  function Assign(v: Grid3, e: Extent, s: nat, t: nat, d: Grid3): (r: Grid3)
    requires IsBox(v, e.x, e.y, e.z) && Fits(e, s, t, d)
    ensures IsBox(r, e.x, e.y, e.z)
  {
    var p := TakeZ(d, t);
    assert forall a, b :: 0 <= a < e.x && 0 <= b < e.y ==> |p[a][b]| == t;
    PasteZ(v, e.x, e.y, e.z, s, p)
  }

  /** An accepted assignment writes planes `[s, s+t)` from the first `t`
      planes of `d` and leaves every other voxel of the level as it was. */
  lemma AssignSpec(v: Grid3, e: Extent, s: nat, t: nat, d: Grid3, a: nat, b: nat, c: nat)
    requires IsBox(v, e.x, e.y, e.z) && Fits(e, s, t, d)
    requires a < e.x && b < e.y && c < e.z
    ensures Assign(v, e, s, t, d)[a][b][c] == if s <= c < s + t then d[a][b][c - s] else v[a][b][c]
  {
    var p := TakeZ(d, t);
    assert IsBox(p, e.x, e.y, t);
    PasteZSpec(v, e.x, e.y, e.z, s, t, p);
  }

  /** A block of zeros of the given extent. */
  function Blank(e: Extent): (r: Grid3)
    ensures IsBox(r, e.x, e.y, e.z)
  {
    seq(e.x, a => seq(e.y, b => seq(e.z, c => 0)))
  }

  /** The chunked volume: one block per mip level, of fixed extents, and
      the Z extent of a chunk, which every level shares because the
      descriptor builder copies scale 0's chunk sizes to every level. */
  class Store {
    const shape: seq<Extent>
    const chunkZ: nat
    var mips: seq<Grid3>

    ghost predicate Valid()
      reads this
    {
      Conforms(mips, shape)
    }

    /** A freshly created volume with every level blank. */
    constructor (shape: seq<Extent>, chunkZ: nat)
      ensures Valid() && this.shape == shape && this.chunkZ == chunkZ
      ensures |mips| == |shape| && forall j :: 0 <= j < |shape| ==> mips[j] == Blank(shape[j])
    {
      this.shape := shape;
      this.chunkZ := chunkZ;
      mips := seq(|shape|, j requires 0 <= j < |shape| => Blank(shape[j]));
    }

    /** `CloudVolume(..., mip=j)[:, :, s:s+t] = d[:, :, :t]`: a missing mip
        level or a refused slab (wrong shape, or off the chunk grid) raises
        and leaves the volume as it was. */
    method WriteSlab(j: int, s: int, t: int, d: Grid3) returns (ok: bool)
      requires Valid()
      modifies this
      ensures Valid()
      ensures ok <==> 0 <= j < |shape| && Accepts(shape[j], chunkZ, s, t, d)
      ensures ok ==> mips == old(mips)[j := Assign(old(mips)[j], shape[j], s, t, d)]
      ensures !ok ==> mips == old(mips)
    {
      ok := 0 <= j < |shape| && Accepts(shape[j], chunkZ, s, t, d);
      if ok {
        mips := mips[j := Assign(mips[j], shape[j], s, t, d)];
      }
    }
  }

  /** The level-0 write length: `z_step`, clamped to the planes left before
      the volume's Z extent `z0` (lines 149-150). */
  function ClampedStep(i: int, zStep: int, z0: int): (r: int)
    ensures i + r <= z0 || r == zStep
    ensures i + zStep < z0 ==> r == zStep
    ensures i + zStep >= z0 ==> i + r == z0
  {
    if i + zStep >= z0 then z0 - i else zStep
  }

  /** `curr_z_start` at level `j`: the batch start floor-halved `j` times. */
  function ZStart(i: int, j: nat): (r: int)
    ensures i >= 0 ==> 0 <= r <= i
    ensures j == 0 ==> r == i
  {
    HalveTimes(i, j)
  }

  /** `curr_z_step` at level `j`: the clamped length floor-halved `j` times. */
  function ZLen(i: int, zStep: int, z0: int, j: nat): (r: int)
    ensures ClampedStep(i, zStep, z0) >= 0 ==> 0 <= r <= ClampedStep(i, zStep, z0)
    ensures j == 0 ==> r == ClampedStep(i, zStep, z0)
  {
    HalveTimes(ClampedStep(i, zStep, z0), j)
  }

  /** The cursors at level `j` are the level-0 values floor-divided by 2^j,
      so every level stays aligned under 2x downsampling. */
  lemma CursorsAtLevel(i: int, zStep: int, z0: int, j: nat)
    ensures ZStart(i, j) == i / Pow2(j)
    ensures ZLen(i, zStep, z0, j) == ClampedStep(i, zStep, z0) / Pow2(j)
    ensures ZStart(i, 0) == i && ZLen(i, zStep, z0, 0) == ClampedStep(i, zStep, z0)
  {
    HalveTimesIsDiv(i, j);
    HalveTimesIsDiv(ClampedStep(i, zStep, z0), j);
  }

  /** The data written at level `j`: the batch at level 0, then at each
      coarser level the previous level's data decimated by 2 on every axis
      and cropped to the level's extent (lines 151-153). */
  function LevelData(d: Grid3, shape: seq<Extent>, j: nat): (r: Grid3)
    requires j < |shape|
    ensures j == 0 ==> r == d
  {
    if j == 0 then d
    else Crop(Decimate(LevelData(d, shape, j - 1)), shape[j].x, shape[j].y, shape[j].z)
  }

  function FirstZ(shape: seq<Extent>): int
  {
    if |shape| > 0 then shape[0].z else 0
  }

  /** The data of one batch at every level of the store. */
  function Levels(d: Grid3, shape: seq<Extent>): (r: seq<Grid3>)
    ensures |r| == |shape|
  {
    seq(|shape|, j requires 0 <= j < |shape| => LevelData(d, shape, j))
  }

  /** The backend takes the write of level `l` of the batch at `i` whose
      level data are `ds`. */
  predicate LevelAccepted(shape: seq<Extent>, cz: nat, i: int, ds: seq<Grid3>, zStep: int, l: nat)
    requires l < |shape| && |ds| == |shape|
  {
    Accepts(shape[l], cz, ZStart(i, l), ZLen(i, zStep, FirstZ(shape), l), ds[l])
  }

  /** Level `l` of the store after that write. */
  function WrittenLevel(v: Grid3, shape: seq<Extent>, cz: nat, i: int, ds: seq<Grid3>, zStep: int, l: nat): Grid3
    requires l < |shape| && |ds| == |shape| && IsBox(v, shape[l].x, shape[l].y, shape[l].z)
    requires LevelAccepted(shape, cz, i, ds, zStep, l)
  {
    Assign(v, shape[l], ZStart(i, l), ZLen(i, zStep, FirstZ(shape), l), ds[l])
  }

  /** Levels `j .. scale-1` of one batch at start `i` with level data `ds`:
      each accepted write updates only its own level; the first refused one
      stops the batch with `false`, keeping the writes before it. */
  function RunLevels(mips: seq<Grid3>, shape: seq<Extent>, cz: nat, i: int, ds: seq<Grid3>,
                     zStep: int, scale: int, j: nat): (r: (seq<Grid3>, bool))
    requires Conforms(mips, shape) && scale <= |shape| && |ds| == |shape|
    ensures Conforms(r.0, shape)
    decreases scale - j
  {
    if j >= scale then (mips, true)
    else if LevelAccepted(shape, cz, i, ds, zStep, j)
    then RunLevels(mips[j := WrittenLevel(mips[j], shape, cz, i, ds, zStep, j)], shape, cz, i, ds, zStep, scale, j + 1)
    else (mips, false)
  }

  /** All batches in order; a batch that stops early stops the run. */
  function RunBatches(mips: seq<Grid3>, shape: seq<Extent>, cz: nat, batches: seq<(int, Grid3)>,
                      zStep: int, scale: int): (r: (seq<Grid3>, bool))
    requires Conforms(mips, shape) && scale <= |shape|
    ensures Conforms(r.0, shape)
    decreases |batches|
  {
    if batches == [] then (mips, true)
    else
      var first := RunLevels(mips, shape, cz, batches[0].0, Levels(batches[0].1, shape), zStep, scale, 0);
      if !first.1 then first
      else RunBatches(first.0, shape, cz, batches[1..], zStep, scale)
  }

  /** The inner loop of lines 143-158 for one batch `(i, data)`. */
  method WriteBatch(store: Store, i: int, data: Grid3, zStep: int, scale: int) returns (ok: bool)
    requires store.Valid() && scale <= |store.shape|
    modifies store
    ensures store.Valid()
    ensures (store.mips, ok) == RunLevels(old(store.mips), store.shape, store.chunkZ, i, Levels(data, store.shape), zStep, scale, 0)
  {
    var currZStart := i;
    var currZStep := zStep;
    var d := data;
    var j := 0;
    ok := true;
    while j < scale
      invariant store.Valid() && 0 <= j <= Max(scale, 0)
      invariant RunLevels(store.mips, store.shape, store.chunkZ, i, Levels(data, store.shape), zStep, scale, j) ==
                RunLevels(old(store.mips), store.shape, store.chunkZ, i, Levels(data, store.shape), zStep, scale, 0)
      invariant currZStart == ZStart(i, j)
      invariant j == 0 ==> currZStep == zStep && d == data
      invariant j > 0 ==> currZStep == ZLen(i, zStep, FirstZ(store.shape), j) &&
                          d == LevelData(data, store.shape, j - 1)
      decreases scale - j
    {
      var e := store.shape[j];
      if j == 0 && i + currZStep >= e.z {
        currZStep := e.z - currZStart;
      }
      if j > 0 {
        d := Decimate(d);
        d := Crop(d, e.x, e.y, e.z);
      }
      assert currZStep == ZLen(i, zStep, FirstZ(store.shape), j);
      assert d == LevelData(data, store.shape, j) == Levels(data, store.shape)[j];
      ok := store.WriteSlab(j, currZStart, currZStep, d);
      if !ok {
        return;
      }
      currZStart := currZStart / 2;
      currZStep := currZStep / 2;
      j := j + 1;
    }
  }

  /** The outer loop of line 142: every yielded batch is written in order;
      the run fails when a write is refused or the generator raised. */
  method LargeLocalToCloud(store: Store, batches: seq<(int, Grid3)>, error: Option<Error>,
                           zStep: int, scale: int) returns (ok: bool)
    requires store.Valid() && scale <= |store.shape|
    modifies store
    ensures store.Valid()
    ensures store.mips == RunBatches(old(store.mips), store.shape, store.chunkZ, batches, zStep, scale).0
    ensures ok == (RunBatches(old(store.mips), store.shape, store.chunkZ, batches, zStep, scale).1 && error == None)
  {
    var k := 0;
    while k < |batches|
      invariant store.Valid() && k <= |batches|
      invariant RunBatches(store.mips, store.shape, store.chunkZ, batches[k..], zStep, scale) ==
                RunBatches(old(store.mips), store.shape, store.chunkZ, batches, zStep, scale)
    {
      var (i, data) := batches[k];
      assert batches[k..][1..] == batches[k + 1..];
      var written := WriteBatch(store, i, data, zStep, scale);
      if !written {
        return false;
      }
      k := k + 1;
    }
    return error == None;
  }
}
