/** Shared vocabulary of the conversion model: the error outcomes of the
    script, a result type, and the integer facts about floor division by
    powers of two that the pyramid levels rely on. */
module Common {

  /** The ways the modelled code can stop with an exception. */
  datatype Error =
    | ZeroDivision      // `n_task / size` with `size == 0`
    | IndexOutOfRange   // `info['scales'][0]` on an empty scale list
    | ZeroStep          // `range(begin, end, 0)`
    | ReadFailed        // the TIFF reader asked for an empty or missing index range

  datatype Option<+T> = None | Some(value: T)

  datatype Result<+T> = Success(value: T) | Failure(error: Error)

  function Min(a: int, b: int): int { if a <= b then a else b }

  function Max(a: int, b: int): int { if a <= b then b else a }

  /** 2^n. */
  function Pow2(n: nat): (r: nat)
    ensures r >= 1
  {
    if n == 0 then 1 else 2 * Pow2(n - 1)
  }

  /** Floor halving applied `n` times (Python `x //= 2`, `n` times); a
      non-negative value stays within `[0, x]`. */
  function HalveTimes(x: int, n: nat): (r: int)
    ensures x >= 0 ==> 0 <= r <= x
  {
    if n == 0 then x else HalveTimes(x, n - 1) / 2
  }

  /** Euclidean division by a positive divisor is determined by its quotient
      and remainder; Python's `//` (floor) agrees with it for `d > 0`. */
  lemma DivUnique(x: int, d: int, q: int, m: int)
    requires d > 0 && 0 <= m < d && x == q * d + m
    ensures x / d == q && x % d == m
  {
    var q', m' := x / d, x % d;
    assert x == q' * d + m';
    assert (q - q') * d == m' - m;
    if q' < q {
      MulMono(1, q - q', d);
    } else if q' > q {
      MulMono(1, q' - q, d);
    }
  }

  lemma MulMono(a: int, b: int, d: int)
    requires a <= b && d >= 0
    ensures a * d <= b * d
  {
    assert b * d - a * d == (b - a) * d;
  }

  /** Halving the quotient by 2^n once more is the quotient by 2^(n+1). */
  lemma DivPow2Succ(x: int, n: nat)
    ensures (x / Pow2(n)) / 2 == x / Pow2(n + 1)
  {
    var p := Pow2(n);
    var q, r := x / p, x % p;
    var a, b := q / 2, q % 2;
    assert x == q * p + r;
    assert q == 2 * a + b;
    calc {
      x;
      (2 * a + b) * p + r;
      a * (2 * p) + (b * p + r);
    }
    assert 0 <= b * p + r < 2 * p by {
      assert b == 0 || b == 1;
    }
    DivUnique(x, 2 * p, a, b * p + r);
  }

  /** Floor halving `n` times is floor division by 2^n. */
  lemma {:induction false} HalveTimesIsDiv(x: int, n: nat)
    ensures HalveTimes(x, n) == x / Pow2(n)
  {
    if n > 0 {
      HalveTimesIsDiv(x, n - 1);
      DivPow2Succ(x, n - 1);
    }
  }

  lemma Pow2Mono(a: nat, b: nat)
    requires a <= b
    ensures Pow2(a) <= Pow2(b)
  {
    if a < b { Pow2Mono(a, b - 1); }
  }

  /** `c * 2^j`, written as `j` doublings so that it stays linear. */
  function Stride(c: int, j: nat): int
  {
    if j == 0 then c else 2 * Stride(c, j - 1)
  }

  lemma {:induction false} StrideIsMul(c: int, j: nat)
    ensures Stride(c, j) == c * Pow2(j)
  {
    if j > 0 {
      StrideIsMul(c, j - 1);
      assert c * Pow2(j) == 2 * (c * Pow2(j - 1));
    }
  }

  lemma {:induction false} StrideDouble(c: int, j: nat)
    requires j > 0
    ensures Stride(2 * c, j - 1) == Stride(c, j)
  {
    if j > 1 {
      StrideDouble(c, j - 1);
    }
  }

  lemma {:induction false} StrideAdd(a: int, b: int, j: nat)
    ensures Stride(a + b, j) == Stride(a, j) + Stride(b, j)
  {
    if j > 0 {
      StrideAdd(a, b, j - 1);
    }
  }

  /** Repeated floor halving is monotone. */
  lemma {:induction false} HalveMono(a: int, b: int, n: nat)
    requires a <= b
    ensures HalveTimes(a, n) <= HalveTimes(b, n)
  {
    if n > 0 {
      HalveMono(a, b, n - 1);
    }
  }

  /** Repeated floor halving never gains on a sum. */
  lemma {:induction false} HalveSumLe(a: int, b: int, n: nat)
    ensures HalveTimes(a, n) + HalveTimes(b, n) <= HalveTimes(a + b, n)
  {
    if n > 0 {
      HalveSumLe(a, b, n - 1);
      HalveMono(HalveTimes(a, n - 1) + HalveTimes(b, n - 1), HalveTimes(a + b, n - 1), 1);
    }
  }

  /** A position below `x` halved `n` times maps back below `x` at stride 2^n. */
  lemma {:induction false} StrideBelow(c: int, x: int, n: nat)
    requires 0 <= c < HalveTimes(x, n)
    ensures 0 <= Stride(c, n) < x
    decreases n
  {
    if n > 0 {
      StrideBelow(2 * c, x, n - 1);
      StrideDouble(c, n);
    }
  }

  lemma {:induction false} StrideCompose(q: int, a: nat, b: nat)
    ensures Stride(Stride(q, a), b) == Stride(q, a + b)
  {
    if b > 0 {
      StrideCompose(q, a, b - 1);
    }
  }

  /** Halving `q 2^k` `j <= k` times leaves `q 2^(k-j)`. */
  lemma {:induction false} HalveStride(q: int, k: nat, j: nat)
    requires j <= k
    ensures HalveTimes(Stride(q, k), j) == Stride(q, k - j)
  {
    if j > 0 {
      HalveStride(q, k, j - 1);
    }
  }

  /** Halving `p 2^j + n` `j` times splits off `p`. */
  lemma {:induction false} HalveShift(p: int, n: int, j: nat)
    ensures HalveTimes(Stride(p, j) + n, j) == p + HalveTimes(n, j)
    decreases j
  {
    if j > 0 {
      HalveShift(2 * p, n, j - 1);
      StrideDouble(p, j);
    }
  }

  /** `i` is a multiple of 2^j: halving it `j` times loses nothing. */
  predicate Aligned(i: int, j: nat)
  {
    Stride(HalveTimes(i, j), j) == i
  }

  /** A value whose remainder by 2^k is zero is a multiple of 2^k. */
  lemma AlignedOfMod(i: int, k: nat)
    requires i % Pow2(k) == 0
    ensures Aligned(i, k)
  {
    var q := i / Pow2(k);
    assert i == q * Pow2(k);
    StrideIsMul(q, k);
    HalveStride(q, k, k);
  }

  /** A multiple of 2^k is a multiple of every smaller power of two. */
  lemma AlignedBelow(i: int, j: nat, k: nat)
    requires j <= k && Aligned(i, k)
    ensures Aligned(i, j)
  {
    var q := HalveTimes(i, k);
    HalveStride(q, k, j);
    StrideCompose(q, k - j, j);
  }

  /** A sum of multiples of 2^j is a multiple of 2^j. */
  lemma AlignedSum(i: int, k: int, j: nat)
    requires Aligned(i, j) && Aligned(k, j)
    ensures Aligned(i + k, j)
  {
    var p, q := HalveTimes(i, j), HalveTimes(k, j);
    StrideAdd(p, q, j);
    HalveStride(p + q, j, j);
  }

  /** For `i` a multiple of 2^j, halving `i + n` `j` times halves both
      parts separately. */
  lemma HalveAligned(i: int, n: int, j: nat)
    requires Aligned(i, j)
    ensures HalveTimes(i + n, j) == HalveTimes(i, j) + HalveTimes(n, j)
  {
    HalveShift(HalveTimes(i, j), n, j);
  }

  /** A sum of multiples of `c` is a multiple of `c`. */
  lemma ModSum(a: int, b: int, c: int)
    requires c > 0 && a % c == 0 && b % c == 0
    ensures (a + b) % c == 0
  {
    DivUnique(a + b, c, a / c + b / c, 0);
  }

  /** Doubling keeps a multiple of `c` a multiple of `c`. */
  lemma {:induction false} StrideMod(x: int, n: nat, c: int)
    requires c > 0 && x % c == 0
    ensures Stride(x, n) % c == 0
  {
    if n > 0 {
      StrideMod(x, n - 1, c);
      ModSum(Stride(x, n - 1), Stride(x, n - 1), c);
    }
  }

  /** `i` is a multiple of `c 2^j`: halving it `j` times loses nothing and
      leaves a multiple of `c`. */
  predicate GridAligned(i: int, c: nat, j: nat)
  {
    Aligned(i, j) && c > 0 && HalveTimes(i, j) % c == 0
  }

  /** A value whose remainder by `c 2^k` is zero is a multiple of `c 2^k`. */
  lemma GridAlignedOfMod(i: int, c: nat, k: nat)
    requires c > 0 && i % (c * Pow2(k)) == 0
    ensures GridAligned(i, c, k)
  {
    MulMono(1, c, Pow2(k));
    var q := i / (c * Pow2(k));
    assert i == (c * q) * Pow2(k);
    DivUnique(i, Pow2(k), c * q, 0);
    AlignedOfMod(i, k);
    HalveTimesIsDiv(i, k);
    DivUnique(c * q, c, q, 0);
  }

  /** A multiple of `c 2^k` is a multiple of `c 2^j` for every `j <= k`. */
  lemma GridAlignedBelow(i: int, c: nat, j: nat, k: nat)
    requires j <= k && GridAligned(i, c, k)
    ensures GridAligned(i, c, j)
  {
    AlignedBelow(i, j, k);
    HalveStride(HalveTimes(i, k), k, j);
    StrideMod(HalveTimes(i, k), k - j, c);
  }

  /** A sum of multiples of `c 2^j` is a multiple of `c 2^j`. */
  lemma GridAlignedSum(i: int, k: int, c: nat, j: nat)
    requires GridAligned(i, c, j) && GridAligned(k, c, j)
    ensures GridAligned(i + k, c, j)
  {
    AlignedSum(i, k, j);
    HalveAligned(i, k, j);
    ModSum(HalveTimes(i, j), HalveTimes(k, j), c);
  }
}
