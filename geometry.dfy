/**
 * Integer geometry shared by the metric's kernels: C-style minimum and
 * maximum, the ceiling division used for work-group counts, and the
 * ceiling-halving that produces the six pyramid levels.
 *
 * All dimensions handled here are those of non-empty images (at least one
 * pixel in each direction); for such values C++'s truncating `/` on
 * non-negative operands agrees with Dafny's Euclidean `/`.
 */
module Geometry {

  /** Number of pyramid levels (scales) the metric uses. */
  const Scales: nat := 6

  function Min(a: int, b: int): int { if a <= b then a else b }

  function Max(a: int, b: int): int { if a >= b then a else b }

  /** `v` clamped to `[0, n)`: `min(max(v, 0), n - 1)`, the source's edge handling. */
  function Clamp(v: int, n: int): (r: int)
    requires n >= 1
    ensures 0 <= r < n
    ensures 0 <= v < n ==> r == v
    ensures v < 0 ==> r == 0
    ensures v >= n ==> r == n - 1
  {
    Min(Max(v, 0), n - 1)
  }

  /** Euclidean division is unique: the quotient and remainder of `m*q + r` are `q` and `r`. */
  lemma DivModUnique(m: int, q: int, r: int)
    requires m > 0 && 0 <= r < m
    ensures (m * q + r) / m == q && (m * q + r) % m == r
  {
    var n := m * q + r;
    var d := n / m - q;
    assert m * d == r - n % m;
    if d >= 1 { MulAtLeast(m, d); }
    else if d <= -1 { MulAtLeast(m, -d); }
  }

  lemma MulAtLeast(m: int, d: int)
    requires m > 0 && d >= 1
    ensures m * d >= m
  {}

  /** `(a - 1) / b + 1`, the source's idiom for a ceiling division (block counts). */
  function CeilDiv(a: int, b: int): (r: int)
    requires a >= 1 && b >= 1
    ensures r >= 1
    ensures r * b >= a && (r - 1) * b < a
  {
    var q := (a - 1) / b;
    assert a - 1 == q * b + (a - 1) % b;
    q + 1
  }

  /** `(d - 1) / 2 + 1`: the size of the next pyramid level along one axis. */
  function HalfDim(d: int): (r: int)
    requires d >= 1
    ensures r >= 1 && r <= d
    ensures 2 * r - 1 <= d <= 2 * r
  {
    (d - 1) / 2 + 1
  }

  /** Size along one axis of pyramid level `k`, starting from `d` at level 0. */
  function LevelDim(d: int, k: nat): (r: int)
    requires d >= 1
    ensures 1 <= r <= d
  {
    if k == 0 then d else HalfDim(LevelDim(d, k - 1))
  }

  /** Number of pixels of level `k`. */
  function ScaleSize(w: int, h: int, k: nat): (r: int)
    requires w >= 1 && h >= 1
    ensures r >= 1
  {
    LevelDim(w, k) * LevelDim(h, k)
  }

  /** Sum of the sizes of levels `0 .. k-1`: where level `k` starts in a flat pyramid buffer. */
  function LevelOffset(w: int, h: int, k: nat): (r: int)
    requires w >= 1 && h >= 1
    ensures r >= k
    ensures k >= 1 ==> r >= w * h
  {
    if k == 0 then 0 else LevelOffset(w, h, k - 1) + ScaleSize(w, h, k - 1)
  }

  /** Number of pixels of all six levels together. */
  function TotalScaleSize(w: int, h: int): (r: int)
    requires w >= 1 && h >= 1
    ensures r >= w * h
  {
    LevelOffset(w, h, Scales)
  }

  /** Levels are laid out back to back: level `k` ends where level `k + 1` starts, inside the total. */
  lemma {:induction false} LevelOffsetMonotone(w: int, h: int, j: nat, k: nat)
    requires w >= 1 && h >= 1 && j <= k
    ensures LevelOffset(w, h, j) + (if j < k then ScaleSize(w, h, j) else 0) <= LevelOffset(w, h, k)
    decreases k - j
  {
    if j < k {
      if j + 1 < k { LevelOffsetMonotone(w, h, j + 1, k); }
    }
  }

  /** Row-major indexing stays inside a `w` by `h` image. */
  lemma RowMajorBound(r: int, c: int, w: int, h: int)
    requires 0 <= r < h && 0 <= c < w
    ensures 0 <= r * w + c < w * h
  {
    assert r * w <= (h - 1) * w;
    assert (h - 1) * w + w == w * h;
  }

  /** A row-major index `i` of a `w` by `h` image splits into row `i / w` and column `i % w`. */
  lemma RowMajorSplit(i: int, w: int, h: int)
    requires w >= 1 && 0 <= i < w * h
    ensures i == (i / w) * w + i % w
    ensures 0 <= i / w < h && 0 <= i % w < w
  {
    var q := i / w;
    assert i == q * w + i % w;
    if q >= h { MulMono(h, q, w); }
  }

  lemma MulMono(a: int, b: int, w: int)
    requires 0 <= a <= b && w >= 0
    ensures a * w <= b * w
  {}

  /** Row `r`, column `c` is the row-major index `r * w + c` and no other. */
  lemma RowMajorUnique(r: int, c: int, w: int)
    requires w >= 1 && 0 <= c < w
    ensures (r * w + c) / w == r && (r * w + c) % w == c
  {
    DivModUnique(w, r, c);
  }

  /**
   * Global size of one launch dimension covering `n` items with groups of
   * `min(maxGroup, n)` items, as `((n - 1) / th + 1) * th`: it covers every
   * item and overshoots by less than one group.
   */
  function LaunchRange(n: int, maxGroup: int): (g: int)
    requires n >= 1 && maxGroup >= 1
    ensures n <= g < n + maxGroup
  {
    var th := Min(maxGroup, n);
    CeilDiv(n, th) * th
  }
}
