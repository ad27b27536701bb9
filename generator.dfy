/** The streaming slice reader `large_data_generator`: for `i` in
    `range(begin, end, step)` it reads slices `[i, min(i + step, end))` of the
    TIFF stack, binarizes them in single-label `uint32` mode, moves the slice
    axis last and yields `(i, batch)`. */
module Generator {
  import opened Common
  import opened Grid

  /** The TIFF stack: slice `z` of the files is `stack[z]`, a 2D grid. */
  type Stack = seq<Plane>

  function Rows(stack: Stack): nat { if |stack| == 0 then 0 else |stack[0]| }

  function Cols(stack: Stack): nat { if |stack| == 0 || |stack[0]| == 0 then 0 else |stack[0][0]| }

  /** All slices of a stack share one shape, as the slices of a TIFF stack do. */
  predicate Uniform(stack: Stack)
  {
    IsBox(stack, |stack|, Rows(stack), Cols(stack))
  }

  /** `dxchange.read_tiff_stack(stack, ind=range(lo, hi))`. The reader is
      asked only for existing slices; an empty or out-of-range index list
      is a read failure. */
  function ReadStack(stack: Stack, lo: int, hi: int): (r: Result<Grid3>)
    ensures r.Success? <==> 0 <= lo < hi <= |stack|
  {
    if 0 <= lo < hi <= |stack| then Success(stack[lo..hi]) else Failure(ReadFailed)
  }

  /** Whether a batch is binarized: `not multi and dtype == 'uint32'`. */
  function BinarizeMode(dtype: Option<string>, multi: bool): (r: bool)
    ensures multi ==> !r
    ensures dtype != Some("uint32") ==> !r
    ensures !multi && dtype == Some("uint32") ==> r
  {
    !multi && dtype == Some("uint32")
  }

  /** Value of one voxel after the element transform. */
  function Voxel(v: int, binarize: bool): int
  {
    if binarize && v > 0 then 1 else if binarize then 0 else v
  }

  /** The per-batch transform: optional binarization, then the axis move.
      The dtype cast is the identity on the modelled integers. */
  function Transform(raw: Grid3, x: nat, y: nat, binarize: bool): (r: Grid3)
    requires IsBox(raw, |raw|, x, y)
    ensures IsBox(r, x, y, |raw|)
  {
    var data := if binarize then Binarize(raw) else raw;
    BinarizeShape(raw, |raw|, x, y);
    MoveAxis(data, x, y)
  }

  /** Voxel `(a, b, c)` of a transformed batch is slice `c`, row `a`,
      column `b` of its input, binarized when asked to be. */
  lemma TransformSpec(raw: Grid3, x: nat, y: nat, binarize: bool, a: nat, b: nat, c: nat)
    requires IsBox(raw, |raw|, x, y) && a < x && b < y && c < |raw|
    ensures Transform(raw, x, y, binarize)[a][b][c] == Voxel(raw[c][a][b], binarize)
  {
    assert IsRect(raw[c], x, y);
  }

  /** Slices `[lo, hi)` of a uniform stack form a block of the stack's shape. */
  lemma WindowUniform(stack: Stack, lo: int, hi: int)
    requires Uniform(stack) && 0 <= lo <= hi <= |stack|
    ensures IsBox(stack[lo..hi], hi - lo, Rows(stack), Cols(stack))
  {
    forall z | 0 <= z < hi - lo ensures IsRect(stack[lo..hi][z], Rows(stack), Cols(stack)) {
      assert stack[lo..hi][z] == stack[lo + z];
    }
  }

  /** The batch yielded for slices `[lo, hi)`: read, transformed, slice
      axis last. */
  function BatchData(stack: Stack, lo: int, hi: int, binarize: bool): (r: Grid3)
    requires Uniform(stack) && 0 <= lo <= hi <= |stack|
    ensures IsBox(r, Rows(stack), Cols(stack), hi - lo)
  {
    WindowUniform(stack, lo, hi);
    Transform(stack[lo..hi], Rows(stack), Cols(stack), binarize)
  }

  /** Voxel `(a, b, c)` of a batch is voxel `(a, b)` of slice `lo + c`,
      binarized when asked to be. */
  lemma BatchDataAt(stack: Stack, lo: int, hi: int, binarize: bool, a: nat, b: nat, c: nat)
    requires Uniform(stack) && 0 <= lo <= hi <= |stack|
    requires a < Rows(stack) && b < Cols(stack) && c < hi - lo
    ensures IsRect(stack[lo + c], Rows(stack), Cols(stack))
    ensures BatchData(stack, lo, hi, binarize)[a][b][c] == Voxel(stack[lo + c][a][b], binarize)
  {
    WindowUniform(stack, lo, hi);
    TransformSpec(stack[lo..hi], Rows(stack), Cols(stack), binarize, a, b, c);
  }

  /** `d` is the batch for slices `[lo, hi)`, stated voxel by voxel. */
  predicate BatchOf(d: Grid3, stack: Stack, lo: int, hi: int, binarize: bool)
    requires Uniform(stack) && 0 <= lo <= hi <= |stack|
  {
    IsBox(d, Rows(stack), Cols(stack), hi - lo) &&
    forall a, b, c :: 0 <= a < Rows(stack) && 0 <= b < Cols(stack) && 0 <= c < hi - lo ==>
      IsRect(stack[lo + c], Rows(stack), Cols(stack)) && d[a][b][c] == Voxel(stack[lo + c][a][b], binarize)
  }

  lemma BatchDataIsBatch(stack: Stack, lo: int, hi: int, binarize: bool)
    requires Uniform(stack) && 0 <= lo <= hi <= |stack|
    ensures BatchOf(BatchData(stack, lo, hi, binarize), stack, lo, hi, binarize)
  {
    forall a, b, c | 0 <= a < Rows(stack) && 0 <= b < Cols(stack) && 0 <= c < hi - lo
      ensures IsRect(stack[lo + c], Rows(stack), Cols(stack)) &&
              BatchData(stack, lo, hi, binarize)[a][b][c] == Voxel(stack[lo + c][a][b], binarize)
    {
      BatchDataAt(stack, lo, hi, binarize, a, b, c);
    }
  }

  /** What the generator produced: the batches it yielded, in order, and the
      exception that ended it, if any. */
  datatype Yielded = Yielded(batches: seq<(int, Grid3)>, error: Option<Error>)

  /** The exclusive end of the batch read at `i`: a full step, or the end
      of the window when the step would pass it. */
  function BatchEnd(i: int, end: int, step: int): (r: int)
    ensures r == end || r == i + step
    ensures i <= end && step >= 0 ==> i <= r <= end && r - i <= step
    ensures i + step <= end ==> r == i + step
  {
    if i + step > end then end else i + step
  }

  /** The generator resumed at `i`: one read per element of
      `range(i, end, step)`, stopping at the first read that fails. */
  function Gen(stack: Stack, i: int, end: int, step: int, binarize: bool): (r: Yielded)
    requires Uniform(stack) && step != 0
    ensures r.error == None || r.error == Some(ReadFailed)
    ensures step < 0 ==> r.batches == []
    decreases if step > 0 then end - i else i - end
  {
    if (step > 0 && i >= end) || (step < 0 && i <= end) then Yielded([], None)
    else
      match ReadStack(stack, i, BatchEnd(i, end, step))
      case Failure(e) => Yielded([], Some(e))
      case Success(_) =>
        var rest := Gen(stack, i + step, end, step, binarize);
        Yielded([(i, BatchData(stack, i, BatchEnd(i, end, step), binarize))] + rest.batches, rest.error)
  }

  /** `large_data_generator(stack, begin, end, step, dtype, multi)`, run to
      exhaustion; `range` refuses a zero step. */
  function LargeDataGenerator(stack: Stack, begin: int, end: int, step: int,
                              dtype: Option<string>, multi: bool): (r: Yielded)
    requires Uniform(stack)
    ensures r.error == Some(ZeroStep) <==> step == 0
    ensures step == 0 ==> r.batches == []
  {
    if step == 0 then Yielded([], Some(ZeroStep))
    else Gen(stack, begin, end, step, BinarizeMode(dtype, multi))
  }

  /** Number of elements of `range(begin, end, step)` for `step > 0`:
      `ceil((end - begin) / step)`, or none. */
  function BatchCount(begin: int, end: int, step: int): nat
    requires step > 0
  {
    if end <= begin then 0 else (end - begin + step - 1) / step
  }

  /** Start of batch `k`. */
  function BatchStart(begin: int, step: int, k: nat): int
  {
    begin + k * step
  }

  lemma BatchCountStep(begin: int, end: int, step: int)
    requires step > 0 && begin < end
    ensures BatchCount(begin, end, step) == 1 + BatchCount(begin + step, end, step)
  {
    var a := end - begin + step - 1;
    assert a >= step;
    var q, m := (a - step) / step, (a - step) % step;
    DivUnique(a, step, q + 1, m);
    if end <= begin + step {
      assert a - step < step;
      DivUnique(a - step, step, 0, a - step);
    }
  }

  /** Batch `k` of the positive-step generator over an in-range window:
      it starts at `begin + k * step` and holds slices `[start, BatchEnd)`
      of the stack, at most `step` of them, transformed. */
  lemma {:induction false} GenBatch(stack: Stack, begin: int, end: int, step: int, binarize: bool, k: nat)
    requires Uniform(stack) && step > 0 && 0 <= begin && end <= |stack|
    requires k < BatchCount(begin, end, step)
    ensures var g := Gen(stack, begin, end, step, binarize);
            var lo := BatchStart(begin, step, k);
            var hi := BatchEnd(lo, end, step);
            k < |g.batches| && begin <= lo < hi <= end && hi - lo <= step &&
            g.batches[k] == (lo, BatchData(stack, lo, hi, binarize))
    decreases k
  {
    BatchCountStep(begin, end, step);
    var lo := BatchStart(begin, step, k);
    if k == 0 {
      assert lo == begin && begin < end;
    } else {
      GenBatch(stack, begin + step, end, step, binarize, k - 1);
      assert BatchStart(begin + step, step, k - 1) == lo;
    }
  }

  /** The positive-step generator raises nothing on an in-range window and
      yields exactly `ceil((end - begin) / step)` batches. */
  lemma {:induction false} GenCount(stack: Stack, begin: int, end: int, step: int, binarize: bool)
    requires Uniform(stack) && step > 0 && 0 <= begin && end <= |stack|
    ensures Gen(stack, begin, end, step, binarize).error == None
    ensures |Gen(stack, begin, end, step, binarize).batches| == BatchCount(begin, end, step)
    decreases end - begin
  {
    if begin < end {
      BatchCountStep(begin, end, step);
      GenCount(stack, begin + step, end, step, binarize);
    }
  }

  /** A positive-step run over a non-empty window raises exactly when the
      window leaves the stack: every read is in range if and only if
      `0 <= begin` and `end <= |stack|`. */
  lemma {:induction false} GenFailsOutsideStack(stack: Stack, begin: int, end: int, step: int, binarize: bool)
    requires Uniform(stack) && step > 0 && begin < end
    ensures Gen(stack, begin, end, step, binarize).error == None <==> 0 <= begin && end <= |stack|
    decreases end - begin
  {
    if 0 <= begin && end <= |stack| {
      GenCount(stack, begin, end, step, binarize);
    } else if begin < 0 || BatchEnd(begin, end, step) > |stack| {
    } else {
      GenFailsOutsideStack(stack, begin + step, end, step, binarize);
    }
  }

  /** With a negative step every read asks for an empty index range, so
      the generator fails at once unless `range(begin, end, step)` is empty. */
  lemma NegativeStep(stack: Stack, begin: int, end: int, step: int, binarize: bool)
    requires Uniform(stack) && step < 0
    ensures Gen(stack, begin, end, step, binarize).batches == []
    ensures Gen(stack, begin, end, step, binarize).error == if begin > end then Some(ReadFailed) else None
  {
  }

  /** Batch `k` of the positive-step generator starts at `begin + k * step`,
      whatever the window: the starts are the elements of `range`. */
  lemma {:induction false} GenStarts(stack: Stack, begin: int, end: int, step: int, binarize: bool, k: nat)
    requires Uniform(stack) && step > 0 && k < |Gen(stack, begin, end, step, binarize).batches|
    ensures Gen(stack, begin, end, step, binarize).batches[k].0 == BatchStart(begin, step, k)
    decreases k
  {
    if k > 0 {
      GenStarts(stack, begin + step, end, step, binarize, k - 1);
      assert BatchStart(begin + step, step, k - 1) == BatchStart(begin, step, k);
    }
  }

  /** The yielded batch starts strictly increase, consecutive ones exactly
      one step apart. */
  lemma StartsIncrease(stack: Stack, begin: int, end: int, step: int, binarize: bool, k1: nat, k2: nat)
    requires Uniform(stack) && step > 0 && k1 < k2 < |Gen(stack, begin, end, step, binarize).batches|
    ensures Gen(stack, begin, end, step, binarize).batches[k1].0 < Gen(stack, begin, end, step, binarize).batches[k2].0
    ensures Gen(stack, begin, end, step, binarize).batches[k1 + 1].0 == Gen(stack, begin, end, step, binarize).batches[k1].0 + step
  {
    GenStarts(stack, begin, end, step, binarize, k1);
    GenStarts(stack, begin, end, step, binarize, k1 + 1);
    GenStarts(stack, begin, end, step, binarize, k2);
    BatchStartStep(begin, step, k1, k2);
  }

  lemma BatchStartStep(begin: int, step: int, k1: nat, k2: nat)
    requires step > 0 && k1 < k2
    ensures BatchStart(begin, step, k1) < BatchStart(begin, step, k2)
    ensures BatchStart(begin, step, k1 + 1) == BatchStart(begin, step, k1) + step
  {
    MulMono(k1 + 1, k2, step);
  }

  /** The number of slices the batches `bs` read, each from its start to
      its clamped end. */
  function Covered(bs: seq<(int, Grid3)>, end: int, step: int): int
  {
    if bs == [] then 0 else (BatchEnd(bs[0].0, end, step) - bs[0].0) + Covered(bs[1..], end, step)
  }

  /** The yielded batches tile an in-range window: every slice of
      `[begin, end)` is read by exactly one batch, so together they read
      `end - begin` slices. */
  lemma {:induction false} GenCovered(stack: Stack, begin: int, end: int, step: int, binarize: bool)
    requires Uniform(stack) && step > 0 && 0 <= begin <= end <= |stack|
    ensures Covered(Gen(stack, begin, end, step, binarize).batches, end, step) == end - begin
    decreases end - begin
  {
    if begin < end {
      var g := Gen(stack, begin, end, step, binarize);
      var rest := Gen(stack, begin + step, end, step, binarize);
      assert g.batches[1..] == rest.batches;
      if begin + step <= end {
        GenCovered(stack, begin + step, end, step, binarize);
      } else {
        assert rest.batches == [];
      }
    }
  }

  /** Concrete check of the label union: labels {0, 3, 0, 7} in one row of
      one slice become {0, 1, 0, 1} in single-label `uint32` mode. */
  lemma BinarizeExample()
    ensures var stack: Stack := [[[0, 3, 0, 7]]];
            var g := LargeDataGenerator(stack, 0, 1, 64, Some("uint32"), false);
            g.error == None && |g.batches| == 1 && g.batches[0].0 == 0 &&
            g.batches[0].1 == [[[0], [1], [0], [1]]]
  {
    var stack: Stack := [[[0, 3, 0, 7]]];
    assert Uniform(stack) by {
      assert IsRect(stack[0], 1, 4);
    }
    var g := LargeDataGenerator(stack, 0, 1, 64, Some("uint32"), false);
    assert stack[0..1] == stack;
    assert ReadStack(stack, 0, 1) == Success(stack);
    assert Gen(stack, 64, 1, 64, true) == Yielded([], None);
    var t := Transform(stack, 1, 4, true);
    assert IsBox(t, 1, 4, 1);
    forall b | 0 <= b < 4 ensures t[0][b] == [Voxel(stack[0][0][b], true)] {
      TransformSpec(stack, 1, 4, true, 0, b, 0);
    }
    assert t[0] == [[0], [1], [0], [1]];
    assert t == [[[0], [1], [0], [1]]];
  }
}
