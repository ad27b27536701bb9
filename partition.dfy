/** The contiguous task partitioner `allocate_mpi_subsets_cont_chunk`:
    `[0, nTask)` is cut into `size` consecutive ranges whose lengths differ
    by at most one, the first `nTask % size` ranges taking the extra unit. */
module Partition {
  import opened Common

  /** A Python `range(lo, hi)` with step 1; empty when `hi <= lo`. */
  datatype Range = Range(lo: int, hi: int)

  function Len(r: Range): int { r.hi - r.lo }

  /** `range(n)[a:b]` for non-negative slice bounds. */
  function SliceOfRange(n: nat, a: nat, b: nat): Range
  {
    Range(Min(a, n), Min(b, n))
  }

  /** Number of tasks of partition `k`: the floor share, plus one for the
      first `n % size` partitions. */
  function PartLen(n: nat, size: nat, k: nat): nat
    requires size > 0
  {
    n / size + (if k < n % size then 1 else 0)
  }

  /** Where partition `k` begins: `k` floor shares plus one extra unit for
      every earlier partition that took one. */
  function PartStart(n: nat, size: nat, k: nat): nat
    requires size > 0
  {
    k * (n / size) + Min(k, n % size)
  }

  /** The intended partition of `[0, n)` into `size` ranges. */
  function Partition(n: nat, size: nat): seq<Range>
    requires size > 0
  {
    seq(size, k requires 0 <= k => Range(PartStart(n, size, k), PartStart(n, size, k) + PartLen(n, size, k)))
  }

  lemma PartStartSucc(n: nat, size: nat, k: nat)
    requires size > 0
    ensures PartStart(n, size, k + 1) == PartStart(n, size, k) + PartLen(n, size, k)
  {
    assert (k + 1) * (n / size) == k * (n / size) + n / size;
  }

  lemma {:induction false} PartStartMono(n: nat, size: nat, k1: nat, k2: nat)
    requires size > 0 && k1 <= k2
    ensures PartStart(n, size, k1) <= PartStart(n, size, k2)
  {
    if k1 < k2 {
      PartStartMono(n, size, k1, k2 - 1);
      PartStartSucc(n, size, k2 - 1);
    }
  }

  /** The last partition ends exactly at `n`. */
  lemma PartStartEnd(n: nat, size: nat)
    requires size > 0
    ensures PartStart(n, size, size) == n
  {
    assert n == (n / size) * size + n % size;
    assert n % size < size;
  }

  lemma PartEndBounded(n: nat, size: nat, k: nat)
    requires size > 0 && k < size
    ensures PartStart(n, size, k) + PartLen(n, size, k) <= n
  {
    PartStartSucc(n, size, k);
    PartStartMono(n, size, k + 1, size);
    PartStartEnd(n, size);
  }

  /** `allocate_mpi_subsets_cont_chunk(n_task, size)`. A zero `size` raises
      on the first division, `n_task / size`; a negative one iterates over an
      empty `range(size)`. The floor share is taken as `n_task / size` in
      integers, which is what `np.floor` of the float quotient gives while
      `n_task` is exactly representable as a float. */
  method AllocateContiguous(nTask: nat, size: int) returns (r: Result<seq<Range>>)
    ensures size == 0 ==> r == Failure(ZeroDivision)
    ensures size < 0 ==> r == Success([])
    ensures size > 0 ==> r == Success(Partition(nTask, size))
  {
    if size == 0 {
      return Failure(ZeroDivision);
    }
    if size < 0 {
      return Success([]);
    }
    var perRankFloor := nTask / size;
    var remainder := nTask % size;
    var start := 0;
    var sets: seq<Range> := [];
    for i := 0 to size
      invariant |sets| == i
      invariant forall k :: 0 <= k < i ==> sets[k] == Partition(nTask, size)[k]
      invariant start == PartStart(nTask, size, i)
      invariant remainder == Max(0, nTask % size - i)
    {
      var length := perRankFloor;
      if remainder > 0 {
        length := length + 1;
        remainder := remainder - 1;
      }
      assert length == PartLen(nTask, size, i);
      PartEndBounded(nTask, size, i);
      PartStartSucc(nTask, size, i);
      sets := sets + [SliceOfRange(nTask, start, start + length)];
      start := start + length;
    }
    assert sets == Partition(nTask, size);
    return Success(sets);
  }

  /** Exactly `size` ranges, laid end to end from 0 to `n`. */
  lemma PartitionContiguous(n: nat, size: nat)
    requires size > 0
    ensures |Partition(n, size)| == size
    ensures Partition(n, size)[0].lo == 0
    ensures Partition(n, size)[size - 1].hi == n
    ensures forall k :: 0 <= k < size - 1 ==> Partition(n, size)[k].hi == Partition(n, size)[k + 1].lo
  {
    PartStartSucc(n, size, size - 1);
    PartStartEnd(n, size);
    forall k | 0 <= k < size - 1
      ensures Partition(n, size)[k].hi == Partition(n, size)[k + 1].lo
    {
      PartStartSucc(n, size, k);
    }
  }

  /** Every partition holds the floor share or one more, and the one more
      goes to exactly the first `n % size` partitions. */
  lemma PartitionBalanced(n: nat, size: nat, k: nat)
    requires size > 0 && k < size
    ensures Len(Partition(n, size)[k]) == n / size || Len(Partition(n, size)[k]) == n / size + 1
    ensures Len(Partition(n, size)[k]) == n / size + 1 <==> k < n % size
  {
  }

  /** Ranges of different partitions do not overlap. */
  lemma PartitionDisjoint(n: nat, size: nat, k1: nat, k2: nat)
    requires size > 0 && k1 < k2 < size
    ensures Partition(n, size)[k1].hi <= Partition(n, size)[k2].lo
  {
    PartStartSucc(n, size, k1);
    PartStartMono(n, size, k1 + 1, k2);
  }

  /** The union of the ranges is exactly `[0, n)`: a task belongs to some
      partition if and only if it lies in `[0, n)`. */
  lemma PartitionCovers(n: nat, size: nat, t: int)
    requires size > 0
    ensures (0 <= t < n) <==>
            exists k :: 0 <= k < size && Partition(n, size)[k].lo <= t < Partition(n, size)[k].hi
  {
    var p := Partition(n, size);
    if 0 <= t < n {
      var k := OwnerOf(n, size, t, 0);
      assert p[k].lo <= t < p[k].hi;
    }
    forall k | 0 <= k < size && p[k].lo <= t < p[k].hi
      ensures 0 <= t < n
    {
      PartEndBounded(n, size, k);
    }
  }

  /** The partition, searched from `k`, that holds task `t`. */
  lemma {:induction false} OwnerOf(n: nat, size: nat, t: int, k: nat) returns (owner: nat)
    requires size > 0 && k < size && PartStart(n, size, k) <= t < n
    ensures k <= owner < size
    ensures PartStart(n, size, owner) <= t < PartStart(n, size, owner) + PartLen(n, size, owner)
    decreases size - k
  {
    PartStartSucc(n, size, k);
    if t < PartStart(n, size, k) + PartLen(n, size, k) {
      owner := k;
    } else {
      if k + 1 == size {
        PartStartEnd(n, size);
      }
      owner := OwnerOf(n, size, t, k + 1);
    }
  }

  /** Sum of the lengths of a list of ranges. */
  function TotalLen(rs: seq<Range>): int
  {
    if rs == [] then 0 else TotalLen(rs[..|rs| - 1]) + Len(rs[|rs| - 1])
  }

  /** The partition lengths add up to `n`: no task is lost or duplicated. */
  lemma PartitionTotal(n: nat, size: nat)
    requires size > 0
    ensures TotalLen(Partition(n, size)) == n
  {
    PrefixTotal(n, size, size);
    assert Partition(n, size)[..size] == Partition(n, size);
    PartStartEnd(n, size);
  }

  lemma {:induction false} PrefixTotal(n: nat, size: nat, k: nat)
    requires size > 0 && k <= size
    ensures TotalLen(Partition(n, size)[..k]) == PartStart(n, size, k)
  {
    var p := Partition(n, size);
    if k > 0 {
      PrefixTotal(n, size, k - 1);
      assert p[..k][..k - 1] == p[..k - 1];
      PartStartSucc(n, size, k - 1);
    }
  }
}
