/** Dense integer voxel blocks as nested sequences, and the element-wise
    and slicing operations the conversion applies to them: label
    binarization, `np.moveaxis(data, 0, 2)`, stride-2 decimation
    `data[::2, ::2, ::2]`, cropping `data[0:x, 0:y, 0:z]`, the leading-plane
    slice `data[:, :, :t]` and the slab assignment `vol[:, :, s:s+t] = p`. */
module Grid {
  import opened Common

  /** A 2D slice, indexed `[row][column]`. */
  type Plane = seq<seq<int>>

  /** A 3D block, indexed `[axis 0][axis 1][axis 2]`. */
  type Grid3 = seq<seq<seq<int>>>

  predicate IsRect(m: Plane, a: nat, b: nat)
  {
    |m| == a && forall i :: 0 <= i < a ==> |m[i]| == b
  }

  /** `g` has shape `(a, b, c)`. */
  predicate IsBox(g: Grid3, a: nat, b: nat, c: nat)
  {
    |g| == a && forall i :: 0 <= i < a ==> IsRect(g[i], b, c)
  }

  /** `np.nan_to_num(data > 0)` cast back to an integer type: 1 where the
      label is positive, 0 elsewhere. */
  function Binarize(g: Grid3): (r: Grid3)
    ensures |r| == |g|
    ensures forall i :: 0 <= i < |g| ==> |r[i]| == |g[i]|
    ensures forall i, j :: 0 <= i < |g| && 0 <= j < |g[i]| ==> |r[i][j]| == |g[i][j]|
  {
    seq(|g|, i requires 0 <= i < |g| =>
      seq(|g[i]|, j requires 0 <= j < |g[i]| =>
        seq(|g[i][j]|, k requires 0 <= k < |g[i][j]| => if g[i][j][k] > 0 then 1 else 0)))
  }

  /** Binarized blocks keep their shape and hold only 0 and 1. */
  lemma BinarizeShape(g: Grid3, a: nat, b: nat, c: nat)
    requires IsBox(g, a, b, c)
    ensures IsBox(Binarize(g), a, b, c)
    ensures forall i, j, k :: 0 <= i < a && 0 <= j < b && 0 <= k < c ==>
              Binarize(g)[i][j][k] in {0, 1}
  {
  }

  /** Binarization is idempotent: a 0/1 block is its own binarization. */
  lemma BinarizeIdempotent(g: Grid3)
    ensures Binarize(Binarize(g)) == Binarize(g)
  {
    var r := Binarize(g);
    assert forall i, j :: 0 <= i < |g| && 0 <= j < |g[i]| ==> Binarize(r)[i][j] == r[i][j];
    assert forall i :: 0 <= i < |g| ==> Binarize(r)[i] == r[i];
  }

  /** `np.moveaxis(g, 0, 2)` for `g` of shape `(n, x, y)`: the leading slice
      axis becomes the trailing one, shape `(x, y, n)`. */
  function MoveAxis(g: Grid3, x: nat, y: nat): (r: Grid3)
    requires IsBox(g, |g|, x, y)
    ensures IsBox(r, x, y, |g|)
  {
    seq(x, a requires 0 <= a < x =>
      seq(y, b requires 0 <= b < y =>
        seq(|g|, c requires 0 <= c < |g| => g[c][a][b])))
  }

  /** `np.moveaxis(h, 2, 0)` for `h` of shape `(x, y, n)`, the inverse move. */
  function MoveAxisBack(h: Grid3, x: nat, y: nat, n: nat): (r: Grid3)
    requires IsBox(h, x, y, n)
    ensures IsBox(r, n, x, y)
  {
    seq(n, c requires 0 <= c < n =>
      seq(x, a requires 0 <= a < x =>
        seq(y, b requires 0 <= b < y => h[a][b][c])))
  }

  /** Moving the axis back undoes the move: no voxel is lost or reordered. */
  lemma MoveAxisRoundTrip(g: Grid3, x: nat, y: nat)
    requires IsBox(g, |g|, x, y)
    ensures MoveAxisBack(MoveAxis(g, x, y), x, y, |g|) == g
  {
    var back := MoveAxisBack(MoveAxis(g, x, y), x, y, |g|);
    forall c | 0 <= c < |g| ensures back[c] == g[c] {
      forall a | 0 <= a < x ensures back[c][a] == g[c][a] {
      }
    }
  }

  /** `g[::2, ::2, ::2]`: every second element along each axis, starting at
      0, so a length `n` becomes `(n + 1) / 2`. */
  function Decimate(g: Grid3): (r: Grid3)
    ensures |r| == (|g| + 1) / 2
  {
    seq((|g| + 1) / 2, i requires 0 <= i < (|g| + 1) / 2 =>
      seq((|g[2 * i]| + 1) / 2, j requires 0 <= j < (|g[2 * i]| + 1) / 2 =>
        seq((|g[2 * i][2 * j]| + 1) / 2, k requires 0 <= k < (|g[2 * i][2 * j]| + 1) / 2 =>
          g[2 * i][2 * j][2 * k])))
  }

  /** Decimation maps shape `(a, b, c)` to the ceiling halves, and element
      `(i, j, k)` of the result is element `(2i, 2j, 2k)` of the input. */
  lemma DecimateSpec(g: Grid3, a: nat, b: nat, c: nat)
    requires IsBox(g, a, b, c)
    ensures IsBox(Decimate(g), (a + 1) / 2, (b + 1) / 2, (c + 1) / 2)
    ensures forall i, j, k :: 0 <= i < (a + 1) / 2 && 0 <= j < (b + 1) / 2 && 0 <= k < (c + 1) / 2 ==>
              2 * i < a && 2 * j < b && 2 * k < c && Decimate(g)[i][j][k] == g[2 * i][2 * j][2 * k]
  {
  }

  /** `(a, b, c)` indexes a voxel of `g`. */
  predicate InBox(g: Grid3, a: int, b: int, c: int)
  {
    0 <= a < |g| && 0 <= b < |g[a]| && 0 <= c < |g[a][b]|
  }

  /** `g[0:x, 0:y, 0:z]`, Python slicing: bounds beyond the end clamp. */
  function Crop(g: Grid3, x: nat, y: nat, z: nat): (r: Grid3)
    ensures |r| == Min(x, |g|)
  {
    seq(Min(x, |g|), i requires 0 <= i < Min(x, |g|) =>
      seq(Min(y, |g[i]|), j requires 0 <= j < Min(y, |g[i]|) =>
        g[i][j][..Min(z, |g[i][j]|)]))
  }

  /** Cropping clamps every extent and keeps the elements it keeps. */
  lemma CropSpec(g: Grid3, a: nat, b: nat, c: nat, x: nat, y: nat, z: nat)
    requires IsBox(g, a, b, c)
    ensures IsBox(Crop(g, x, y, z), Min(x, a), Min(y, b), Min(z, c))
    ensures forall i, j, k :: 0 <= i < Min(x, a) && 0 <= j < Min(y, b) && 0 <= k < Min(z, c) ==>
              Crop(g, x, y, z)[i][j][k] == g[i][j][k]
  {
  }

  /** `g[:, :, :t]` for `t >= 0`: the first `t` planes along axis 2. */
  function TakeZ(g: Grid3, t: nat): (r: Grid3)
    ensures |r| == |g|
  {
    seq(|g|, i requires 0 <= i < |g| =>
      seq(|g[i]|, j requires 0 <= j < |g[i]| => g[i][j][..Min(t, |g[i][j]|)]))
  }

  lemma TakeZSpec(g: Grid3, a: nat, b: nat, c: nat, t: nat)
    requires IsBox(g, a, b, c) && t <= c
    ensures IsBox(TakeZ(g, t), a, b, t)
    ensures forall i, j, k :: 0 <= i < a && 0 <= j < b && 0 <= k < t ==> TakeZ(g, t)[i][j][k] == g[i][j][k]
  {
  }

  /** One column of the slab assignment: `col[s:s+|piece|] = piece`. */
  function PasteColumn(col: seq<int>, s: nat, piece: seq<int>): (r: seq<int>)
    requires s + |piece| <= |col|
    ensures |r| == |col|
  {
    col[..s] + piece + col[s + |piece|..]
  }

  /** `v[:, :, s:s+t] = p`: planes `[s, s+t)` along axis 2 are replaced by
      the planes of `p`, in order. */
  function PasteZ(v: Grid3, x: nat, y: nat, z: nat, s: nat, p: Grid3): (r: Grid3)
    requires IsBox(v, x, y, z)
    requires |p| == x && forall i :: 0 <= i < x ==> |p[i]| == y
    requires forall i, j :: 0 <= i < x && 0 <= j < y ==> s + |p[i][j]| <= z
    ensures IsBox(r, x, y, z)
  {
    seq(x, i requires 0 <= i < x =>
      seq(y, j requires 0 <= j < y =>
        assert IsRect(v[i], y, z);
        PasteColumn(v[i][j], s, p[i][j])))
  }

  /** After the assignment, the slab holds `p` and every voxel outside the
      slab is what it was. */
  lemma PasteZSpec(v: Grid3, x: nat, y: nat, z: nat, s: nat, t: nat, p: Grid3)
    requires IsBox(v, x, y, z) && IsBox(p, x, y, t) && s + t <= z
    ensures forall i, j, k :: 0 <= i < x && 0 <= j < y && 0 <= k < z ==>
              PasteZ(v, x, y, z, s, p)[i][j][k] == if s <= k < s + t then p[i][j][k - s] else v[i][j][k]
  {
    var r := PasteZ(v, x, y, z, s, p);
    forall i, j, k | 0 <= i < x && 0 <= j < y && 0 <= k < z
      ensures r[i][j][k] == if s <= k < s + t then p[i][j][k - s] else v[i][j][k]
    {
      assert IsRect(v[i], y, z) && IsRect(p[i], y, t);
      assert r[i][j] == v[i][j][..s] + p[i][j] + v[i][j][s + t..];
    }
  }

  /** Two blocks of one shape that agree voxel by voxel are equal. */
  lemma BoxEq(g: Grid3, h: Grid3, a: nat, b: nat, c: nat)
    requires IsBox(g, a, b, c) && IsBox(h, a, b, c)
    requires forall i, j, k :: 0 <= i < a && 0 <= j < b && 0 <= k < c ==> g[i][j][k] == h[i][j][k]
    ensures g == h
  {
    forall i | 0 <= i < a ensures g[i] == h[i] {
      forall j | 0 <= j < b ensures g[i][j] == h[i][j] {
        assert |g[i][j]| == c == |h[i][j]|;
      }
    }
  }
}
