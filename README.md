# Raw TIFF stack to precomputed pyramid: a verified model

`autoem/util/raw_to_precomputed_MPI.py` converts a stack of TIFF slices into a
multi-resolution volume in a chunked store. It streams the stack in batches of
`z_step` slices. Each batch is written to mip level 0 and then, decimated by two on
every axis, to each coarser level up to `scale - 1`. This project models the
integer and array logic that surrounds the library calls:

* `allocate_mpi_subsets_cont_chunk`: the contiguous task partitioner
  (module `Partition`). It is an imperative loop proved against the closed-form
  partition `Partition(n, size)`.
* `build_pyramid_info`: the pyramid descriptor builder (module `Pyramid`). It is
  an imperative loop proved against the closed form `Level(s0, i)` of each
  appended scale.
* `large_data_generator`: the batch reader and label transform (modules
  `Generator` and `Grid`). It is pure. The TIFF stack is a sequence of 2D slices,
  and the generator is a function that returns the batches it yields together with
  the exception that ended it, if any.
* The write loop of `large_local_to_cloud`, lines 142-158 (module `Writer`). The
  chunked volume is a `Store` class that holds one in-memory block per mip level
  behind a `WriteSlab` method. The batch loop and the level loop are imperative
  methods. Each method is proved equal to a pure run function: `RunLevels` for
  one batch, `RunBatches` for all of them.
* The composition of all of these (module `Conversion`). For one worker that holds
  the whole stack, it proves that every mip level `j < scale` ends up as the
  stride-2^j sample of the converted stack, and that no other level changes. This
  needs the volume extents of the descriptor and a `z_step` that is a multiple of
  the chunk's Z extent times 2^(scale-1). Then every halved slab starts on the
  chunk grid of its level, and it ends on that grid or at the level's end.

Module `Common` holds the error outcomes, `Result`/`Option`, and the integer facts
about repeated floor halving. `HalveTimes` is `x //= 2` applied `n` times, and
`Stride` is `c * 2^n` written as doublings. Python's `//` and `%` by a positive
divisor agree with Dafny's `/` and `%`. The model only halves by 2 and partitions
by a positive `size`, so no rewrite of the operators is needed.

Some inputs have no meaningful reading, and there the model does what the code
does:

* A worker count below one is not a sensible input, but the code still handles
  it. It raises `ZeroDivisionError` for `size == 0` at `n_task/size` (line 47)
  and returns an empty list for `size < 0`, and so does the model.
* Line 27 calls `comm.Get_rank()` on an undefined name, so the bare `except` always
  installs the single-process fallback: rank 0, size 1.
* Line 116 reads an undefined `gen_S_list`. The end-to-end theorem therefore binds
  the one worker to the whole stack, `range(0, len(stack), z_step)`.

## Model

| member | source | states |
|---|---|---|
| Partition.AllocateContiguous | autoem/util/raw_to_precomputed_MPI.py:44-58 | `size == 0` raises (division by zero); `size < 0` gives no ranges; otherwise the result is exactly `Partition(n_task, size)`: range `k` starts at `k * (n // size) + min(k, n % size)` and is the floor share long, plus one for `k < n % size` |
| Partition.PartStartSucc | autoem/util/raw_to_precomputed_MPI.py:56-57 | each range starts where the previous one ends (`start = start + length`) |
| Partition.PartStartMono | autoem/util/raw_to_precomputed_MPI.py:56-57 | range starts never decrease with the range index |
| Partition.PartStartEnd | autoem/util/raw_to_precomputed_MPI.py:47-57 | the start after the last range is exactly `n_task` |
| Partition.PartEndBounded | autoem/util/raw_to_precomputed_MPI.py:56 | every range ends at or before `n_task`, so the slice of `range(n_task)` is never clamped |
| Partition.PartitionContiguous | autoem/util/raw_to_precomputed_MPI.py:44-58 | exactly `size` ranges, the first starting at 0, the last ending at `n_task`, each starting where the previous one ended |
| Partition.PartitionBalanced | autoem/util/raw_to_precomputed_MPI.py:47-55 | every range has length `n // size` or `n // size + 1`, and the longer length goes to exactly the ranges with index below `n % size` |
| Partition.PartitionDisjoint | autoem/util/raw_to_precomputed_MPI.py:51-57 | ranges of different partitions do not overlap |
| Partition.PartitionCovers | autoem/util/raw_to_precomputed_MPI.py:44-58 | a task lies in some range if and only if it lies in `[0, n_task)` |
| Partition.OwnerOf | autoem/util/raw_to_precomputed_MPI.py:51-57 | every task of `[0, n_task)` at or after the start of range `k` lies in range `k` or a later one |
| Partition.PartitionTotal | autoem/util/raw_to_precomputed_MPI.py:47-57 | the range lengths add up to `n_task` |
| Partition.PrefixTotal | autoem/util/raw_to_precomputed_MPI.py:51-57 | the first `k` ranges hold exactly the tasks before the start of range `k` |
| Pyramid.BuildPyramidInfo | autoem/util/raw_to_precomputed_MPI.py:61-81 | `scale_up_to == 0` returns the descriptor unchanged; an empty scale list raises (index out of range); otherwise the existing scales are kept and levels `1 .. scale_up_to - 1` are appended in order, level `i` being `Level(scale0, i)` |
| Pyramid.Level | autoem/util/raw_to_precomputed_MPI.py:66-76 | a new level copies the encoding, the chunk sizes and the voxel offset of scale 0, is keyed by its own resolution and has as many resolution and size components as scale 0 |
| Pyramid.NewLevels | autoem/util/raw_to_precomputed_MPI.py:66-80 | a call with `scale_up_to == k` appends `max(k - 1, 0)` levels, the `n`-th being `Level(scale0, n + 1)` |
| Pyramid.ZeroLevelIdentity | autoem/util/raw_to_precomputed_MPI.py:64-65 | doubling or halving zero times leaves a vector as it is, so the loop starts from scale 0's resolution and size |
| Pyramid.DoubledSucc | autoem/util/raw_to_precomputed_MPI.py:67 | doubling the level-`i` resolution gives the level-`i + 1` resolution |
| Pyramid.HalvedSucc | autoem/util/raw_to_precomputed_MPI.py:68 | floor-halving the level-`i` size gives the level-`i + 1` size |
| Pyramid.PyramidDepth | autoem/util/raw_to_precomputed_MPI.py:66-80 | a descriptor with one base scale grows to exactly `k` scales for `k >= 1`, and scale 0 stays first |
| Pyramid.LevelFromBase | autoem/util/raw_to_precomputed_MPI.py:67-75 | the size of level `i` is the base size floor-halved `i` times on each axis; level 0 is the base |
| Pyramid.LevelAlignment | autoem/util/raw_to_precomputed_MPI.py:67-68 | one level to the next doubles every resolution component and floor-halves every size component |
| Pyramid.KeysDistinct | autoem/util/raw_to_precomputed_MPI.py:72 | with a positive resolution component, two levels never share a key |
| Grid.Binarize | autoem/util/raw_to_precomputed_MPI.py:90 | binarization keeps every extent of the block |
| Grid.BinarizeShape | autoem/util/raw_to_precomputed_MPI.py:89-90 | a binarized block has its input's shape and holds only 0 and 1 |
| Grid.BinarizeIdempotent | autoem/util/raw_to_precomputed_MPI.py:90 | binarizing twice is binarizing once |
| Grid.MoveAxis | autoem/util/raw_to_precomputed_MPI.py:93 | `np.moveaxis(data, 0, 2)` maps shape `(n, x, y)` to `(x, y, n)` |
| Grid.MoveAxisBack | autoem/util/raw_to_precomputed_MPI.py:93 | the inverse move maps shape `(x, y, n)` to `(n, x, y)` |
| Grid.MoveAxisRoundTrip | autoem/util/raw_to_precomputed_MPI.py:93 | moving the axis back restores the input: no voxel is lost or reordered |
| Grid.Decimate | autoem/util/raw_to_precomputed_MPI.py:152 | `data[::2, ::2, ::2]` has `(n + 1) // 2` planes along the first axis for `n` input planes |
| Grid.DecimateSpec | autoem/util/raw_to_precomputed_MPI.py:152 | `data[::2, ::2, ::2]` has the ceiling halves of the extents, and element `(i, j, k)` is input element `(2i, 2j, 2k)` |
| Grid.Crop | autoem/util/raw_to_precomputed_MPI.py:153 | `data[0:x, ...]` keeps `min(x, n)` of `n` rows: a bound beyond the end clamps |
| Grid.CropSpec | autoem/util/raw_to_precomputed_MPI.py:153 | `data[0:x, 0:y, 0:z]` clamps every extent to the bound and keeps the elements it keeps |
| Grid.TakeZ | autoem/util/raw_to_precomputed_MPI.py:156 | `data[:, :, :t]` keeps every row |
| Grid.TakeZSpec | autoem/util/raw_to_precomputed_MPI.py:156 | `data[:, :, :t]` is the first `t` planes |
| Grid.PasteZ | autoem/util/raw_to_precomputed_MPI.py:156 | a slab assignment keeps the block's shape |
| Grid.PasteZSpec | autoem/util/raw_to_precomputed_MPI.py:156 | after `v[:, :, s:s+t] = p` the slab holds `p` and every voxel outside the slab is unchanged |
| Generator.ReadStack | autoem/util/raw_to_precomputed_MPI.py:86-88 | a read succeeds if and only if it asks for a non-empty range of existing slices |
| Generator.BinarizeMode | autoem/util/raw_to_precomputed_MPI.py:89 | a batch is binarized exactly when `multi` is false and the dtype is `uint32` |
| Generator.BatchEnd | autoem/util/raw_to_precomputed_MPI.py:85-88 | a batch ends at `i + step`, or at `end` when that would pass it; from a start inside the window it never passes `end` and reads at most `step` slices |
| Generator.Gen | autoem/util/raw_to_precomputed_MPI.py:84-94 | the generator ends with no exception or with a failed read, and yields nothing for a negative step |
| Generator.LargeDataGenerator | autoem/util/raw_to_precomputed_MPI.py:83-94 | the generator raises the zero-step error (yielding nothing) exactly when `step == 0` |
| Generator.Transform | autoem/util/raw_to_precomputed_MPI.py:89-93 | the transformed batch has shape `(x, y, n)` for `n` slices of shape `(x, y)` |
| Generator.TransformSpec | autoem/util/raw_to_precomputed_MPI.py:89-93 | output voxel `(a, b, c)` is slice `c`, row `a`, column `b` of the input, binarized (`> 0` to 1, otherwise 0) exactly in single-label `uint32` mode and passed through otherwise |
| Generator.WindowUniform | autoem/util/raw_to_precomputed_MPI.py:86-88 | a run of slices of one stack is a block of the stack's shape |
| Generator.BatchData | autoem/util/raw_to_precomputed_MPI.py:84-93 | the batch for slices `[lo, hi)` has the slice shape and `hi - lo` planes |
| Generator.BatchDataAt | autoem/util/raw_to_precomputed_MPI.py:84-93 | voxel `(a, b, c)` of the batch for `[lo, hi)` is voxel `(a, b)` of slice `lo + c`, transformed |
| Generator.BatchDataIsBatch | autoem/util/raw_to_precomputed_MPI.py:84-93 | the yielded batch meets the voxel-wise description of a batch |
| Generator.BatchCountStep | autoem/util/raw_to_precomputed_MPI.py:84 | a non-empty `range(begin, end, step)` has one element more than the range from `begin + step` |
| Generator.GenBatch | autoem/util/raw_to_precomputed_MPI.py:84-94 | batch `k` starts at `begin + k * step` and is the transformed slices `[start, min(start + step, end))`, at most `step` of them |
| Generator.GenCount | autoem/util/raw_to_precomputed_MPI.py:84-94 | over a window inside the stack the generator raises nothing and yields exactly `ceil((end - begin) / step)` batches |
| Generator.GenFailsOutsideStack | autoem/util/raw_to_precomputed_MPI.py:84-88 | a positive-step run over a non-empty window raises nothing if and only if the window lies inside the stack |
| Generator.NegativeStep | autoem/util/raw_to_precomputed_MPI.py:84-88 | with a negative step nothing is yielded, and the run raises exactly when `range(begin, end, step)` is non-empty |
| Generator.GenStarts | autoem/util/raw_to_precomputed_MPI.py:84 | batch `k` that the generator yields starts at `begin + k * step`, the `k`-th element of the range |
| Generator.StartsIncrease | autoem/util/raw_to_precomputed_MPI.py:84 | the starts of the yielded batches strictly increase, consecutive ones exactly `step` apart |
| Generator.GenCovered | autoem/util/raw_to_precomputed_MPI.py:84-94 | the batches yielded over a window inside the stack read `end - begin` slices in all, each from its start to its clamped end: they tile the window |
| Generator.BinarizeExample | autoem/util/raw_to_precomputed_MPI.py:89-93 | labels `0, 3, 0, 7` in single-label `uint32` mode are yielded as `0, 1, 0, 1`, with the slice axis last |
| Writer.Assign | autoem/util/raw_to_precomputed_MPI.py:156 | an accepted slab assignment keeps the level's extent |
| Writer.AssignSpec | autoem/util/raw_to_precomputed_MPI.py:156 | an accepted assignment writes planes `[s, s+t)` from the first `t` planes of the data and leaves every other voxel as it was |
| Writer.Store.constructor | autoem/util/raw_to_precomputed_MPI.py:122-130 | a new volume has the given level extents and chunk Z extent, and every level is blank |
| Writer.Store.WriteSlab | autoem/util/raw_to_precomputed_MPI.py:146-156 | the write succeeds if and only if the mip level exists and the backend accepts the slab: it fits the level, and its Z range starts on the chunk grid and ends on it or at the level's end; on success only that level changes, to the assigned block; on failure nothing changes |
| Writer.ClampedStep | autoem/util/raw_to_precomputed_MPI.py:149-150 | the level-0 length is `z_step` while the batch ends before the volume's Z extent, and otherwise exactly reaches it |
| Writer.ZStart | autoem/util/raw_to_precomputed_MPI.py:157 | `curr_z_start` is the batch start at level 0 and, for a start `>= 0`, never grows past it |
| Writer.ZLen | autoem/util/raw_to_precomputed_MPI.py:149-158 | `curr_z_step` is the clamped length at level 0 and, for a non-negative length, never grows past it |
| Writer.CursorsAtLevel | autoem/util/raw_to_precomputed_MPI.py:143-158 | at level `j` the cursors are the level-0 start and the clamped level-0 length, each floor-divided by 2^j |
| Writer.LevelData | autoem/util/raw_to_precomputed_MPI.py:151-153 | the level-0 data is the batch itself |
| Writer.Levels | autoem/util/raw_to_precomputed_MPI.py:151-153 | a batch has one data block per mip level |
| Writer.RunLevels | autoem/util/raw_to_precomputed_MPI.py:145-158 | the levels of one batch keep every level's extent |
| Writer.RunBatches | autoem/util/raw_to_precomputed_MPI.py:142-158 | a run over all batches keeps every level's extent |
| Writer.WriteBatch | autoem/util/raw_to_precomputed_MPI.py:143-158 | the level loop with its cursor updates, clamp, decimation and crop leaves the volume and the outcome that `RunLevels` gives |
| Writer.LargeLocalToCloud | autoem/util/raw_to_precomputed_MPI.py:142-158 | the batch loop leaves the volume that `RunBatches` gives, and succeeds exactly when every write was accepted and the generator did not raise |
| Conversion.DescriptorExtents | autoem/util/raw_to_precomputed_MPI.py:61-81 | scale `j` of the built descriptor records the base extent floor-halved `j` times per axis |
| Conversion.PyramidHalves | autoem/util/raw_to_precomputed_MPI.py:68 | pyramid extents start at the base and halve level by level |
| Conversion.HalvingClosed | autoem/util/raw_to_precomputed_MPI.py:68 | on halving extents, level `j` is the base extent floor-halved `j` times |
| Conversion.LevelDataShape | autoem/util/raw_to_precomputed_MPI.py:151-153 | the level data keeps the level's X and Y extents and has `Depth` planes |
| Conversion.DecimateCropShape | autoem/util/raw_to_precomputed_MPI.py:152-153 | one decimate-and-crop step onto the next, halved, level keeps that level's X and Y extents |
| Conversion.DecimateCropAt | autoem/util/raw_to_precomputed_MPI.py:152-153 | one decimate-and-crop step maps element `(a, b, c)` to element `(2a, 2b, 2c)` of the block before |
| Conversion.LevelDataStepAt | autoem/util/raw_to_precomputed_MPI.py:151-153 | element `(a, b, c)` of level `j` data is element `(2a, 2b, 2c)` of level `j - 1` data |
| Conversion.LevelDataAt | autoem/util/raw_to_precomputed_MPI.py:151-153 | element `(a, b, c)` of level `j` data is element `(a 2^j, b 2^j, c 2^j)` of the batch |
| Conversion.StrideBounds | autoem/util/raw_to_precomputed_MPI.py:152 | a level-`j` position maps back at stride 2^j to a position inside the batch |
| Conversion.DepthLowerBound | autoem/util/raw_to_precomputed_MPI.py:152-153 | level-`j` data of an `n`-plane batch has at least `n` floor-halved `j` times planes |
| Conversion.ClampIsDepth | autoem/util/raw_to_precomputed_MPI.py:149-150 | for a batch the generator delivers, the level-0 clamp gives exactly the batch's plane count |
| Conversion.BatchFitsAt | autoem/util/raw_to_precomputed_MPI.py:143-158 | a batch the generator delivers fits every level: the halved slab lies inside the level's Z extent and the level data covers it |
| Conversion.BatchOnGrid | autoem/util/raw_to_precomputed_MPI.py:149-158 | with a batch start and `z_step` that are multiples of the chunk's Z extent times 2^j, the level-`j` slab starts on the chunk grid and ends on it or, for the clamped last batch, at the level's end |
| Conversion.BatchAcceptedAt | autoem/util/raw_to_precomputed_MPI.py:143-158 | such a batch is accepted at every level: it fits and stays on the chunk grid |
| Conversion.RunLevelsAccepted | autoem/util/raw_to_precomputed_MPI.py:145-158 | when every level from `j` is accepted, the run succeeds, each of those levels receives its slab and every other level is unchanged |
| Conversion.LevelStep | autoem/util/raw_to_precomputed_MPI.py:156 | one accepted level write replaces that level alone |
| Conversion.RegularBatchRun | autoem/util/raw_to_precomputed_MPI.py:143-158 | a batch the generator delivers writes every level below `scale` and no other level |
| Conversion.NoScaleNoWrite | autoem/util/raw_to_precomputed_MPI.py:145 | with `scale <= 0` no write is issued and the volume is unchanged |
| Conversion.TargetLevel | autoem/util/raw_to_precomputed_MPI.py:152-153 | the intended level `j` has the base extents floor-halved `j` times |
| Conversion.TargetAt | autoem/util/raw_to_precomputed_MPI.py:89-93 | each voxel of the intended level `j` is the transformed stack voxel at stride 2^j |
| Conversion.TargetBounds | autoem/util/raw_to_precomputed_MPI.py:152 | every position of level `j` maps at stride 2^j onto the stack |
| Conversion.BatchLevelAt | autoem/util/raw_to_precomputed_MPI.py:151-153 | plane `c` of the level-`j` data of batch `[lo, hi)` samples slice `lo + c 2^j` |
| Conversion.SlabPlane | autoem/util/raw_to_precomputed_MPI.py:157-158 | for a start that is a multiple of 2^j, a plane of the halved slab sits at the offset whose slice the batch holds |
| Conversion.SlabVoxel | autoem/util/raw_to_precomputed_MPI.py:151-156 | inside the slab, the written voxel is the intended sample |
| Conversion.SampleShifted | autoem/util/raw_to_precomputed_MPI.py:156 | a slice reached from the batch start is the slice the sample reads |
| Conversion.SlabCursors | autoem/util/raw_to_precomputed_MPI.py:149-158 | for a start that is a multiple of 2^j, the level-`j` planes of the batch lie inside the written range `[curr_z_start, curr_z_start + curr_z_step)` |
| Conversion.InSlabCursors | autoem/util/raw_to_precomputed_MPI.py:149-158 | a plane of the level-`j` slab lies in the written range and maps back at stride 2^j to a slice the batch holds |
| Conversion.InSlab | autoem/util/raw_to_precomputed_MPI.py:143-158 | inside the slab, level `j` of the batch holds the intended sample |
| Conversion.AssignIn | autoem/util/raw_to_precomputed_MPI.py:156 | a voxel inside an accepted slab takes the data's value |
| Conversion.SlabWritten | autoem/util/raw_to_precomputed_MPI.py:156 | after the write, every voxel inside the slab is the intended sample |
| Conversion.FilledVoxel | autoem/util/raw_to_precomputed_MPI.py:156 | after one batch, a voxel below the batch's slab keeps what earlier batches wrote, and one inside the slab is the sample |
| Conversion.BatchFills | autoem/util/raw_to_precomputed_MPI.py:142-158 | one batch extends the finished planes of every level below `scale` to the batch's end, succeeds, and leaves higher levels alone |
| Conversion.GenStep | autoem/util/raw_to_precomputed_MPI.py:84-94 | a generator resumed inside the stack yields the batch at `i` first |
| Conversion.FillStep | autoem/util/raw_to_precomputed_MPI.py:142-158 | the run after the first batch goes on from the levels that batch wrote |
| Conversion.RunFills | autoem/util/raw_to_precomputed_MPI.py:142-158 | from an aligned start, the remaining batches succeed, finish every level below `scale` and leave the others alone |
| Conversion.FilledNothing | autoem/util/raw_to_precomputed_MPI.py:142 | before any batch, no plane is claimed finished |
| Conversion.LevelComplete | autoem/util/raw_to_precomputed_MPI.py:145-158 | a level finished on all of its planes is the intended level |
| Conversion.ConversionFillsPyramid | autoem/util/raw_to_precomputed_MPI.py:110-158 | for pyramid extents and a `z_step` that is a multiple of the chunk's Z extent times 2^(scale-1), every write succeeds, each level `j < scale` becomes the stride-2^j sample of the converted stack whatever it held before, and higher levels are untouched |
| Conversion.DefaultZStep | autoem/util/raw_to_precomputed_MPI.py:183 | the default `z_step` is the chunk's X extent doubled `scale - 1` times |
| Conversion.DefaultZStepAligned | autoem/util/raw_to_precomputed_MPI.py:182-183 | when the chunk's X extent is a positive multiple of its Z extent, the default `z_step` is positive and a multiple of the chunk's Z extent times 2^(scale-1), so the conversion theorem applies |
| Conversion.DefaultZStepOffGrid | autoem/util/raw_to_precomputed_MPI.py:142-183 | with chunks of 32 x 32 x 64 voxels, one level and 128 slices, the default `z_step` is 32; the first write, planes [0, 32), is refused because it ends off the chunk grid before the level's end, and the run fails with the volume unchanged |
| Conversion.ChunkZStepAligned | autoem/util/raw_to_precomputed_MPI.py:183 | a default taken from the chunk's Z extent is positive and a multiple of that extent times 2^(scale-1) for every chunk shape |
| Conversion.DataType | autoem/util/raw_to_precomputed_MPI.py:112-115 | the dtype in force is the caller's when that is truthy, and otherwise the first slice's own dtype; it is never missing |
| Conversion.DataTypeBinarize | autoem/util/raw_to_precomputed_MPI.py:112-117 | a batch is binarized exactly when `multi` is false and the dtype in force is `uint32`: the caller's dtype if given, otherwise the stack's own |
| Conversion.ConvertStack | autoem/util/raw_to_precomputed_MPI.py:96-158 | with the dtype in force taken from the caller or the first slice, the generator feeding the write loop succeeds, leaves each level `j < scale` holding the converted stack sampled at stride 2^j, and leaves the other levels as they were |
| Common.HalveTimes | autoem/util/raw_to_precomputed_MPI.py:157-158 | halving a non-negative cursor any number of times keeps it between 0 and its value |
| Common.HalveTimesIsDiv | autoem/util/raw_to_precomputed_MPI.py:157-158 | floor-halving `n` times is floor division by 2^n |
| Common.GridAlignedOfMod | autoem/util/raw_to_precomputed_MPI.py:149-158 | a multiple of `c * 2^k` stays a multiple of `c` after `k` halvings, with no remainder lost |
| Common.GridAlignedBelow | autoem/util/raw_to_precomputed_MPI.py:157-158 | such a value stays a grid multiple after fewer halvings |
| Common.GridAlignedSum | autoem/util/raw_to_precomputed_MPI.py:142-158 | the sum of two such values is one too, so every batch start of an aligned `z_step` is |

## Left out

- MPI setup (lines 24-41): process identity and concurrency. Because of the undefined `comm`, the code always runs as rank 0 of 1, and that is the only case modelled.
- Line 116 (`gen_S_list[mpi_rank]`) reads an undefined name. Its worker-to-range binding is not modelled. The end-to-end theorem uses start 0 and length `len(stack)`.
- The stack probe of lines 102-106 (`check_stack_len`, the falsy `begin`/`end` test, `print`), `dxchange.read_tiff` and the `X, Y` of the first slice. These are foreign reads. The stack is a parameter, and its slice shape gives `X` and `Y`.
- `dxchange.read_tiff_stack` is modelled as slicing the stack. A read of an empty or out-of-range index list fails, which is an assumption about the foreign reader.
- `CloudVolume.create_new_info`, the `CloudVolume(...)` constructor and the on-disk chunk layout. These are an external library. Its slab assignment is the `Accepts` predicate, and any other assignment raises. `Fits` says the slab lies inside the level and the data matches its X and Y extents with at least `curr_z_step` planes. `OnChunkGrid` says the Z range starts on the chunk grid and ends on it or at the level's end, as a volume opened without `non_aligned_writes` requires. The X and Y ranges always span the whole level, so they always pass that test. Every level has the same chunk size, because `build_pyramid_info` copies `chunk_sizes`. A slab of zero planes is taken as an accepted assignment that changes nothing; this is an assumption about the library.
- `info['mesh']`, `os.makedirs`, `json.dump`, `pprint` and `print`. These are I/O and do not influence the written voxels.
- `np.nan_to_num` and `astype`. Voxels are unbounded integers, the cast is the identity and `nan` cannot occur, so only the `> 0` test of binarization is kept.
- The argparse and `literal_eval` parsing of `main`, and the truthiness of a `--multi` string. `multi` is a boolean here. The default `z_step` is modelled only for `scale >= 1`; for `scale == 0` it is the float `chunk_x * 2 ** -1`.
- The laziness of the generator: it is a function returning everything it yields. The write loop interleaves with it only through this sequence, so the written volume is the same.
- Unused imports (matplotlib, h5py, neuroglancer, zoom, tqdm, logging).
- Partition.AllocateContiguous: `n_task` is taken non-negative, since a task count below zero has no meaning for the caller.
- Partition.AllocateContiguous: line 47 takes the floor share as `np.floor` of the float quotient `n_task/size`. The model uses the exact integer quotient, which agrees while `n_task` and `size` are below 2^53, where floats are exact.
- Pyramid.BuildPyramidInfo: the key is kept as the list of resolution values rather than the string of them joined by `_`. Joining distinct integer lists with a separator gives distinct strings, so `KeysDistinct` carries over, but the string itself is not modelled. The `map(int, ...)` casts are the identity on the modelled integers. The source mutates `info` in place and returns it; the model returns the new descriptor, which is what the only caller keeps.
- Conversion.ConversionFillsPyramid: proved only for one worker over the whole stack from slice 0, with a positive `z_step` that is a multiple of the chunk's Z extent times 2^(scale-1), and volume extents from the descriptor. For any other `z_step` the model makes no claim. If it is not a multiple of 2^(scale-1), the halved cursors of consecutive batches can leave gaps at coarser levels. If it is off the chunk grid, a write is refused.
- Conversion.ConvertStack: same restriction as `ConversionFillsPyramid`.
- `main` passes `--chunk_size` on to the image conversion only; the label conversion keeps the default `(64, 64, 64)` while its `z_step` is still derived from `--chunk_size`. The model takes the chunk size of the volume being written.

## Findings

| source | as written | input that shows it | evidently intended | confidence | as-written member | corrected member |
|---|---|---|---|---|---|---|
| autoem/util/raw_to_precomputed_MPI.py:183 | the default `z_step` is `chunk_size[0]`, the chunk's X extent, times 2^(scale-1), although batches step along Z | chunk size `(32, 32, 64)`, `scale` 1, 128 slices: `z_step` is 32, and the first batch writes planes [0, 32), which end off the 64-plane chunk grid before the level's end, so a volume without `non_aligned_writes` refuses that first write and the conversion stops with nothing written | the chunk's Z extent `chunk_size[2]` times 2^(scale-1), which every level's chunk grid divides | medium, not executed | Conversion.DefaultZStepOffGrid | Conversion.ChunkZStepAligned |
