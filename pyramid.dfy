/** The pyramid descriptor builder `build_pyramid_info`: from the first
    scale of a volume descriptor it appends coarser scales, each doubling
    the voxel resolution and floor-halving the extent of the previous one. */
module Pyramid {
  import opened Common

  /** One entry of `info['scales']`. The key, a string in the descriptor,
      is kept as the list of resolution values it joins with `_`. */
  datatype Scale = Scale(
    encoding: string,
    chunkSizes: seq<seq<int>>,
    key: seq<int>,
    resolution: seq<int>,
    voxelOffset: seq<int>,
    size: seq<int>)

  /** The volume descriptor; only the scale list is touched by the builder. */
  datatype Info = Info(dataType: string, layerType: string, numChannels: int, scales: seq<Scale>)

  /** Every component times 2^i. */
  function Doubled(v: seq<int>, i: nat): seq<int>
  {
    seq(|v|, a requires 0 <= a < |v| => v[a] * Pow2(i))
  }

  /** Every component floor-divided by 2^i. */
  function Halved(v: seq<int>, i: nat): seq<int>
  {
    seq(|v|, a requires 0 <= a < |v| => v[a] / Pow2(i))
  }

  /** The descriptor of pyramid level `i` derived from scale 0: resolution
      times 2^i, size floor-divided by 2^i, the key naming the resolution,
      everything else copied from scale 0. */
  function Level(s0: Scale, i: nat): (r: Scale)
    ensures r.encoding == s0.encoding && r.chunkSizes == s0.chunkSizes && r.voxelOffset == s0.voxelOffset
    ensures r.key == r.resolution
    ensures |r.resolution| == |s0.resolution| && |r.size| == |s0.size|
  {
    Scale(s0.encoding, s0.chunkSizes, Doubled(s0.resolution, i),
          Doubled(s0.resolution, i), s0.voxelOffset, Halved(s0.size, i))
  }

  /** The levels `1 .. k-1` that a call with `scale_up_to == k` appends. */
  function NewLevels(s0: Scale, k: int): (r: seq<Scale>)
    ensures |r| == Max(k - 1, 0)
    ensures forall n :: 0 <= n < |r| ==> r[n] == Level(s0, n + 1)
  {
    if k <= 1 then [] else seq(k - 1, n requires 0 <= n => Level(s0, n + 1))
  }

  lemma ZeroLevelIdentity(v: seq<int>)
    ensures Doubled(v, 0) == v && Halved(v, 0) == v
  {
    assert Pow2(0) == 1;
    assert forall a :: 0 <= a < |v| ==> Doubled(v, 0)[a] == v[a];
    assert forall a :: 0 <= a < |v| ==> Halved(v, 0)[a] == v[a];
  }

  lemma DoubledSucc(v: seq<int>, i: nat, a: nat)
    requires a < |v|
    ensures Doubled(v, i)[a] * 2 == Doubled(v, i + 1)[a]
  {
    assert v[a] * Pow2(i + 1) == v[a] * (2 * Pow2(i));
  }

  lemma HalvedSucc(v: seq<int>, i: nat, a: nat)
    requires a < |v|
    ensures Halved(v, i)[a] / 2 == Halved(v, i + 1)[a]
  {
    DivPow2Succ(v[a], i);
  }

  /** `build_pyramid_info(info, scale_up_to)`. The source appends to
      `info['scales']` in place and returns `info`; its only caller rebinds
      `info` to the result, so the updated descriptor is returned here. */
  method BuildPyramidInfo(info: Info, scaleUpTo: int) returns (r: Result<Info>)
    ensures scaleUpTo == 0 ==> r == Success(info)
    ensures scaleUpTo != 0 && info.scales == [] ==> r == Failure(IndexOutOfRange)
    ensures scaleUpTo != 0 && info.scales != [] ==>
              r == Success(info.(scales := info.scales + NewLevels(info.scales[0], scaleUpTo)))
  {
    if scaleUpTo == 0 {
      return Success(info);
    }
    if info.scales == [] {
      return Failure(IndexOutOfRange);
    }
    var scale0 := info.scales[0];
    var newResolution := scale0.resolution;
    var newSize := scale0.size;
    var scales := info.scales;
    var i := 1;
    ZeroLevelIdentity(scale0.resolution);
    ZeroLevelIdentity(scale0.size);
    while i < scaleUpTo
      invariant 1 <= i <= Max(scaleUpTo, 1)
      invariant newResolution == Doubled(scale0.resolution, i - 1)
      invariant newSize == Halved(scale0.size, i - 1)
      invariant scales == info.scales + NewLevels(scale0, i)
    {
      newResolution := seq(|newResolution|, a requires 0 <= a < |newResolution| => newResolution[a] * 2);
      newSize := seq(|newSize|, a requires 0 <= a < |newSize| => newSize[a] / 2);
      forall a | 0 <= a < |newResolution|
        ensures newResolution[a] == Doubled(scale0.resolution, i)[a]
      {
        DoubledSucc(scale0.resolution, i - 1, a);
      }
      forall a | 0 <= a < |newSize|
        ensures newSize[a] == Halved(scale0.size, i)[a]
      {
        HalvedSucc(scale0.size, i - 1, a);
      }
      var newScale := Scale(scale0.encoding, scale0.chunkSizes, newResolution,
                            newResolution, scale0.voxelOffset, newSize);
      assert newScale == Level(scale0, i);
      scales := scales + [newScale];
      assert NewLevels(scale0, i + 1) == NewLevels(scale0, i) + [Level(scale0, i)];
      i := i + 1;
    }
    return Success(info.(scales := scales));
  }

  /** A descriptor holding one base scale grows to exactly `k` scales for
      `k >= 1`, and scale 0 stays first. */
  lemma PyramidDepth(info: Info, k: int)
    requires |info.scales| == 1 && k >= 1
    ensures |info.scales + NewLevels(info.scales[0], k)| == k
    ensures (info.scales + NewLevels(info.scales[0], k))[0] == info.scales[0]
  {
  }

  /** Level `i` stands to level 0 as the closed forms say, per axis. */
  lemma {:induction false} LevelFromBase(s0: Scale, i: nat, a: nat)
    requires a < |s0.size|
    ensures HalveTimes(s0.size[a], i) == Level(s0, i).size[a]
    ensures Level(s0, 0).size == s0.size && Level(s0, 0).resolution == s0.resolution
  {
    HalveTimesIsDiv(s0.size[a], i);
    ZeroLevelIdentity(s0.resolution);
    ZeroLevelIdentity(s0.size);
  }

  /** Consecutive levels are aligned under 2x downsampling: the resolution
      doubles and the extent floor-halves per axis. */
  lemma LevelAlignment(s0: Scale, i: nat)
    ensures |Level(s0, i + 1).resolution| == |Level(s0, i).resolution|
    ensures |Level(s0, i + 1).size| == |Level(s0, i).size|
    ensures forall a :: 0 <= a < |s0.resolution| ==>
              Level(s0, i + 1).resolution[a] == 2 * Level(s0, i).resolution[a]
    ensures forall a :: 0 <= a < |s0.size| ==>
              Level(s0, i + 1).size[a] == Level(s0, i).size[a] / 2
  {
    forall a | 0 <= a < |s0.resolution|
      ensures Level(s0, i + 1).resolution[a] == 2 * Level(s0, i).resolution[a]
    {
      DoubledSucc(s0.resolution, i, a);
    }
    forall a | 0 <= a < |s0.size|
      ensures Level(s0, i + 1).size[a] == Level(s0, i).size[a] / 2
    {
      HalvedSucc(s0.size, i, a);
    }
  }

  /** With a positive resolution component, no two levels share a key, so
      each key names one scale of the pyramid. */
  lemma KeysDistinct(s0: Scale, i: nat, j: nat, a: nat)
    requires a < |s0.resolution| && s0.resolution[a] > 0 && i < j
    ensures Level(s0, i).key != Level(s0, j).key
  {
    Pow2Mono(i + 1, j);
    assert Pow2(i + 1) == 2 * Pow2(i);
    assert s0.resolution[a] * Pow2(i) < s0.resolution[a] * Pow2(j) by {
      MulMono(Pow2(i) + 1, Pow2(j), s0.resolution[a]);
      assert s0.resolution[a] * Pow2(i) < s0.resolution[a] * (Pow2(i) + 1);
      assert Pow2(j) * s0.resolution[a] == s0.resolution[a] * Pow2(j);
    }
    assert Level(s0, i).key[a] != Level(s0, j).key[a];
  }
}
