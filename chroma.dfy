/**
 * Bicubic chroma upsampling (src/ffvship_utility/gpuColorToLinear/chromaUpsample.hpp).
 *
 * A subsampled chroma plane of `w` by `h` samples is brought back to the
 * luma grid, first horizontally (by 2 or 4) and then vertically (by 2).
 * Every new sample is read off a cubic Hermite spline through two
 * neighbouring chroma samples, whose slopes are the central differences
 * of their neighbours (a Catmull-Rom spline); neighbours outside the plane
 * are clamped to its edge.
 *
 * Where a new sample sits depends on the chroma siting: co-sited chroma
 * (left or top) keeps the original samples at every `f`-th position and
 * interpolates between them; centred chroma sits between luma samples, so
 * every new sample is interpolated at an odd multiple of `1 / (2 f)`, with
 * one extra work-item on the low edge (item -1).
 *
 * The kernels are modelled as sequential loops over their launch range,
 * one row of work-items after another; planes are row-major sequences of
 * samples and destination planes are arrays.
 */
module Chroma {
  import opened Geometry

  /* ---------------------------------------------------------------------- */
  /* The cubic Hermite spline                                                */
  /* ---------------------------------------------------------------------- */

  /** `CubicHermitSplineInterpolator`: the cubic `v1 t^3 + v2 t^2 + v3 t + v4`. */
  datatype Hermite = Hermite(v1: real, v2: real, v3: real, v4: real)

  /** `get(t)`: the cubic evaluated in Horner form, as the source does it. */
  function Get(c: Hermite, t: real): real
  {
    ((c.v1 * t + c.v2) * t + c.v3) * t + c.v4
  }

  /** Horner form and expanded form agree. */
  lemma GetExpanded(c: Hermite, t: real)
    ensures Get(c, t) == c.v1 * t * t * t + c.v2 * t * t + c.v3 * t + c.v4
  {}

  /** The derivative of the cubic at `t`. */
  function Slope(c: Hermite, t: real): real
  {
    3.0 * c.v1 * t * t + 2.0 * c.v2 * t + c.v3
  }

  /**
   * The constructor of `CubicHermitSplineInterpolator`: the cubic that
   * starts at `p0` with slope `m0` and ends at `p1` with slope `m1`.
   */
  function MakeHermite(p0: real, m0: real, p1: real, m1: real): (c: Hermite)
    ensures Get(c, 0.0) == p0 && Get(c, 1.0) == p1
    ensures Slope(c, 0.0) == m0 && Slope(c, 1.0) == m1
  {
    Hermite(2.0 * p0 + m0 - 2.0 * p1 + m1, -3.0 * p0 + 3.0 * p1 - 2.0 * m0 - m1, m0, p0)
  }

  /**
   * The spline agrees with the textbook cubic Hermite basis
   * `h00 = 2t^3 - 3t^2 + 1`, `h10 = t^3 - 2t^2 + t`, `h01 = -2t^3 + 3t^2`,
   * `h11 = t^3 - t^2` at every `t`.
   */
  lemma HermiteBasis(p0: real, m0: real, p1: real, m1: real, t: real)
    ensures Get(MakeHermite(p0, m0, p1, m1), t)
         == (2.0 * t * t * t - 3.0 * t * t + 1.0) * p0 + (t * t * t - 2.0 * t * t + t) * m0
          + (-2.0 * t * t * t + 3.0 * t * t) * p1 + (t * t * t - t * t) * m1
  {
    var t2 := t * t;
    var t3 := t2 * t;
    assert t * t * t == t3;
    var c := MakeHermite(p0, m0, p1, m1);
    calc {
      Get(c, t);
      { GetExpanded(c, t); }
      c.v1 * t3 + c.v2 * t2 + c.v3 * t + c.v4;
      { Distribute4(2.0 * p0, m0, -2.0 * p1, m1, t3);
        Distribute4(-3.0 * p0, 3.0 * p1, -2.0 * m0, -m1, t2); }
      (2.0 * t3 - 3.0 * t2 + 1.0) * p0 + (t3 - 2.0 * t2 + t) * m0 + (-2.0 * t3 + 3.0 * t2) * p1 + (t3 - t2) * m1;
    }
  }

  lemma Distribute4(a: real, b: real, c: real, d: real, t: real)
    ensures (a + b + c + d) * t == a * t + b * t + c * t + d * t
  {}

  /** Halfway along, the spline is the mean of its ends corrected by an eighth of the slope difference. */
  lemma HermiteMidpoint(p0: real, m0: real, p1: real, m1: real)
    ensures Get(MakeHermite(p0, m0, p1, m1), 0.5) == (p0 + p1) / 2.0 + (m0 - m1) / 8.0
  {
    HermiteBasis(p0, m0, p1, m1, 0.5);
  }

  /* ---------------------------------------------------------------------- */
  /* Neighbour fetches                                                       */
  /* ---------------------------------------------------------------------- */

  /** A chroma plane: `w` by `h` samples, row-major. */
  predicate IsPlane(src: seq<real>, w: int, h: int)
  {
    w >= 1 && h >= 1 && |src| == RowStart(w, h)
  }

  /**
   * `r w`, the index of the first sample of row `r`, built up row by row so
   * that the index arithmetic of the fetches stays linear.
   */
  function RowStart(w: int, r: nat): int
  {
    if r == 0 then 0 else RowStart(w, r - 1) + w
  }

  lemma {:induction false} RowStartIs(w: int, r: nat)
    ensures RowStart(w, r) == r * w
  {
    if r > 0 {
      RowStartIs(w, r - 1);
    }
  }

  /** Rows are laid out one after another: `RowStart` never decreases for a non-negative width. */
  lemma RowStartMono(w: int, a: nat, b: nat)
    requires w >= 0 && a <= b
    ensures RowStart(w, a) <= RowStart(w, b)
  {
    RowStartIs(w, a);
    RowStartIs(w, b);
    MulMono(a, b, w);
  }

  /** Index of sample (x, y), both coordinates clamped to the plane. */
  function PixelIndex(w: int, h: int, x: int, y: int): (k: int)
    requires w >= 1 && h >= 1
    ensures 0 <= k < RowStart(w, h)
  {
    RowStartMono(w, 0, Clamp(y, h));
    RowStartMono(w, Clamp(y, h) + 1, h);
    RowStart(w, Clamp(y, h)) + Clamp(x, w)
  }

  /** Sample (x, y), coordinates clamped to the plane. */
  function Pixel(src: seq<real>, w: int, h: int, x: int, y: int): real
    requires IsPlane(src, w, h)
  {
    src[PixelIndex(w, h, x, y)]
  }

  /** Inside the plane, a clamped fetch reads sample `y * w + x`. */
  lemma PixelInside(src: seq<real>, w: int, h: int, x: int, y: int)
    requires IsPlane(src, w, h) && 0 <= x < w && 0 <= y < h
    ensures 0 <= y * w + x < |src| && Pixel(src, w, h, x, y) == src[y * w + x]
  {
    RowMajorBound(y, x, w, h);
    RowStartIs(w, y);
    RowStartIs(w, h);
  }

  /**
   * The index the source reads for `el0`: `min(y, h - 1) * w + min(x, w - 1)`,
   * with no clamp below zero.
   */
  function El0IndexAsWritten(w: int, h: int, x: int, y: int): int
  {
    Min(y, h - 1) * w + Min(x, w - 1)
  }

  /**
   * The centred kernels build an interpolator for item -1: horizontally at
   * (x, y) = (-1, 0) and vertically at (0, -1) the `el0` read lands before
   * the start of the plane.
   */
  lemma El0ReadsBeforePlane(w: int, h: int)
    requires w >= 1 && h >= 1
    ensures El0IndexAsWritten(w, h, -1, 0) == -1
    ensures El0IndexAsWritten(w, h, 0, -1) == -w
  {}

  /** On and right of / below the first sample, the as-written `el0` index is the clamped one. */
  lemma El0AsWrittenAgreesInside(w: int, h: int, x: int, y: int)
    requires w >= 1 && h >= 1 && x >= 0 && y >= 0
    ensures El0IndexAsWritten(w, h, x, y) == PixelIndex(w, h, x, y)
  {
    RowStartIs(w, Clamp(y, h));
  }

  /**
   * `getHorizontalInterpolator_device`, with `el0` clamped below as the
   * other three fetches are: the spline from sample `x` to sample `x + 1`
   * of row `y`, with central-difference slopes.
   */
  function HorizontalInterpolator(src: seq<real>, w: int, h: int, x: int, y: int): (c: Hermite)
    requires IsPlane(src, w, h)
  {
    var el0 := Pixel(src, w, h, x, y);
    var elm1 := Pixel(src, w, h, x - 1, y);
    var el1 := Pixel(src, w, h, x + 1, y);
    var el2 := Pixel(src, w, h, x + 2, y);
    MakeHermite(el0, (el1 - elm1) / 2.0, el1, (el2 - el0) / 2.0)
  }

  /** `getVerticalInterpolator_device`, corrected likewise: the spline from row `y` to row `y + 1` of column `x`. */
  function VerticalInterpolator(src: seq<real>, w: int, h: int, x: int, y: int): (c: Hermite)
    requires IsPlane(src, w, h)
  {
    var el0 := Pixel(src, w, h, x, y);
    var elm1 := Pixel(src, w, h, x, y - 1);
    var el1 := Pixel(src, w, h, x, y + 1);
    var el2 := Pixel(src, w, h, x, y + 2);
    MakeHermite(el0, (el1 - elm1) / 2.0, el1, (el2 - el0) / 2.0)
  }

  /**
   * The horizontal spline of item `x` runs from sample `x` (at 0) to sample
   * `x + 1` (at 1) of its row, with central-difference slopes at both ends.
   */
  lemma HorizontalInterpolatorEnds(src: seq<real>, w: int, h: int, x: int, y: int)
    requires IsPlane(src, w, h)
    ensures Get(HorizontalInterpolator(src, w, h, x, y), 0.0) == Pixel(src, w, h, x, y)
    ensures Get(HorizontalInterpolator(src, w, h, x, y), 1.0) == Pixel(src, w, h, x + 1, y)
    ensures Slope(HorizontalInterpolator(src, w, h, x, y), 0.0) == (Pixel(src, w, h, x + 1, y) - Pixel(src, w, h, x - 1, y)) / 2.0
    ensures Slope(HorizontalInterpolator(src, w, h, x, y), 1.0) == (Pixel(src, w, h, x + 2, y) - Pixel(src, w, h, x, y)) / 2.0
  {
    var el0 := Pixel(src, w, h, x, y);
    var el1 := Pixel(src, w, h, x + 1, y);
    var m0 := (el1 - Pixel(src, w, h, x - 1, y)) / 2.0;
    var m1 := (Pixel(src, w, h, x + 2, y) - el0) / 2.0;
    assert HorizontalInterpolator(src, w, h, x, y) == MakeHermite(el0, m0, el1, m1);
  }

  /** The vertical spline of item (x, y) runs from row `y` (at 0) to row `y + 1` (at 1) of column `x`. */
  lemma VerticalInterpolatorEnds(src: seq<real>, w: int, h: int, x: int, y: int)
    requires IsPlane(src, w, h)
    ensures Get(VerticalInterpolator(src, w, h, x, y), 0.0) == Pixel(src, w, h, x, y)
    ensures Get(VerticalInterpolator(src, w, h, x, y), 1.0) == Pixel(src, w, h, x, y + 1)
    ensures Slope(VerticalInterpolator(src, w, h, x, y), 0.0) == (Pixel(src, w, h, x, y + 1) - Pixel(src, w, h, x, y - 1)) / 2.0
    ensures Slope(VerticalInterpolator(src, w, h, x, y), 1.0) == (Pixel(src, w, h, x, y + 2) - Pixel(src, w, h, x, y)) / 2.0
  {
    var el0 := Pixel(src, w, h, x, y);
    var el1 := Pixel(src, w, h, x, y + 1);
    var m0 := (el1 - Pixel(src, w, h, x, y - 1)) / 2.0;
    var m1 := (Pixel(src, w, h, x, y + 2) - el0) / 2.0;
    assert VerticalInterpolator(src, w, h, x, y) == MakeHermite(el0, m0, el1, m1);
  }

  /** Over a flat neighbourhood the spline is flat. */
  lemma FlatSpline(c: real, t: real)
    ensures Get(MakeHermite(c, (c - c) / 2.0, c, (c - c) / 2.0), t) == c
  {}

  /* ---------------------------------------------------------------------- */
  /* Sitings and the positions each work-item writes                         */
  /* ---------------------------------------------------------------------- */

  /**
   * Chroma siting along one axis: `CoSited` (left, top) puts chroma sample
   * `x` on luma sample `f x`; `Centred` puts it midway between luma samples.
   */
  datatype Siting = CoSited | Centred

  /**
   * `f x` for the two upscaling factors the kernels use, written so that
   * all position arithmetic stays linear.
   */
  function Times(f: int, x: int): int
    requires IsFactor(f)
  {
    if f == 2 then 2 * x else 4 * x
  }

  /** `Times` is multiplication. */
  lemma TimesIsProduct(f: int, x: int)
    requires IsFactor(f)
    ensures Times(f, x) == f * x
  {}

  predicate IsFactor(f: int)
  {
    f == 2 || f == 4
  }

  /** Position of the first sample written by item 0: `f / 2` when centred. */
  function Origin(s: Siting, f: int): int
  {
    if s == Centred then (if f == 2 then 1 else 2) else 0
  }

  /** The launch index minus the work-item index: centred kernels start at item -1. */
  function Shift(s: Siting): int
  {
    if s == Centred then 1 else 0
  }

  /**
   * The spline parameter of slot `j` of an item: the constants the kernels
   * pass to `get` (see `WeightIsOffset` for what they are).
   */
  function Weight(s: Siting, f: int, j: int): real
  {
    if s == Centred then
      if f == 2 then (if j == 0 then 0.25 else 0.75)
      else if j == 0 then 0.125 else if j == 1 then 0.375 else if j == 2 then 0.625 else 0.875
    else
      if f == 2 then (if j == 0 then 0.0 else 0.5)
      else if j == 0 then 0.0 else if j == 1 then 0.25 else if j == 2 then 0.5 else 0.75
  }

  /**
   * Each weight is where output position `f x + Origin + j` lies between
   * chroma samples `x` and `x + 1`, in units of the chroma spacing: centred
   * output samples sit at `(2 j + 1) / (2 f)`, co-sited ones at `j / f`.
   */
  lemma WeightIsOffset(s: Siting, f: int, j: int)
    requires IsFactor(f) && 0 <= j < f
    ensures s == Centred ==> Weight(s, f, j) * (2 * f) as real == (2 * j + 1) as real
    ensures s == CoSited ==> Weight(s, f, j) * f as real == j as real
    ensures 0.0 <= Weight(s, f, j) < 1.0
  {}

  /** The item that writes output position `p`. */
  function SlotItem(s: Siting, f: int, p: int): int
  {
    if f == 2 then (p - Origin(s, f)) / 2 else (p - Origin(s, f)) / 4
  }

  /** Which of its `f` slots writes position `p`. */
  function SlotIndex(s: Siting, f: int, p: int): int
  {
    if f == 2 then (p - Origin(s, f)) % 2 else (p - Origin(s, f)) % 4
  }

  /** Output position of slot `j` of item `x`. */
  function SlotPos(s: Siting, f: int, x: int, j: int): int
    requires IsFactor(f)
  {
    Times(f, x) + Origin(s, f) + j
  }

  /** First output position item `x` writes, along an axis of `n` input samples. */
  function ItemLo(s: Siting, f: int, n: int, x: int): int
    requires IsFactor(f)
  {
    Max(0, SlotPos(s, f, x, 0))
  }

  /** One past the last output position item `x` writes. */
  function ItemHi(s: Siting, f: int, n: int, x: int): int
    requires IsFactor(f)
  {
    Min(Times(f, n), SlotPos(s, f, x, f))
  }

  /** Output positions written once the first `g` launch indices of an axis are done. */
  function Filled(s: Siting, f: int, n: int, g: int): int
    requires IsFactor(f)
  {
    Max(0, Min(Times(f, n), SlotPos(s, f, g - Shift(s), 0)))
  }

  /** Slot `j` of item `x` is output position `SlotPos(x, j)`, and that position names the slot back. */
  lemma SlotOf(s: Siting, f: int, x: int, j: int)
    requires IsFactor(f) && 0 <= j < f
    ensures SlotItem(s, f, SlotPos(s, f, x, j)) == x
    ensures SlotIndex(s, f, SlotPos(s, f, x, j)) == j
  {
    DivModUnique(f, x, j);
  }

  /**
   * The work-items of one axis write every output position exactly once:
   * position `p` of `[0, f n)` lies in the range of item `SlotItem(p)`,
   * which is a valid item (`-1 .. n - 1` when centred, `0 .. n - 1` when
   * co-sited), and is slot `SlotIndex(p)` of it.
   */
  lemma ItemsCover(s: Siting, f: int, n: int, p: int)
    requires IsFactor(f) && n >= 1 && 0 <= p < Times(f, n)
    ensures -Shift(s) <= SlotItem(s, f, p) < n
    ensures 0 <= SlotIndex(s, f, p) < f
    ensures p == SlotPos(s, f, SlotItem(s, f, p), SlotIndex(s, f, p))
    ensures ItemLo(s, f, n, SlotItem(s, f, p)) <= p < ItemHi(s, f, n, SlotItem(s, f, p))
  {}

  /** Consecutive items: item `x + 1` starts where item `x` ends. */
  lemma ItemsAdjacent(s: Siting, f: int, n: int, x: int)
    requires IsFactor(f) && n >= 1 && -Shift(s) <= x && x + 1 < n
    ensures ItemHi(s, f, n, x) == ItemLo(s, f, n, x + 1)
  {}

  /**
   * Launch index `g` runs item `x = g - Shift`: it starts where the items
   * before it left off and ends at `Filled(g1)`, `g1 = g + 1`.
   */
  lemma FilledStep(s: Siting, f: int, n: int, g: int, g1: int, x: int)
    requires IsFactor(f) && n >= 1 && g >= 0 && g1 == g + 1 && x == g - Shift(s)
    ensures x < n ==> ItemLo(s, f, n, x) == Filled(s, f, n, g)
    ensures x < n ==> ItemHi(s, f, n, x) == Filled(s, f, n, g1)
    ensures x < n ==> ItemLo(s, f, n, x) < ItemHi(s, f, n, x)
    ensures x >= n ==> Filled(s, f, n, g) == Filled(s, f, n, g1) == Times(f, n)
    ensures 0 <= Filled(s, f, n, g) <= Filled(s, f, n, g1) <= Times(f, n)
  {}

  /** Before any launch index nothing is written; after `n + Shift` all `f n` positions are. */
  lemma FilledEnds(s: Siting, f: int, n: int, g: int)
    requires IsFactor(f) && n >= 1 && g >= n + Shift(s)
    ensures Filled(s, f, n, 0) == 0 && Filled(s, f, n, g) == Times(f, n)
  {}

  /** Position `p` lies in item `x`'s range exactly when `x` is the item that owns slot `p`. */
  lemma ItemOfPos(s: Siting, f: int, n: int, x: int, p: int)
    requires IsFactor(f) && ItemLo(s, f, n, x) <= p < ItemHi(s, f, n, x)
    ensures SlotItem(s, f, p) == x && SlotIndex(s, f, p) == p - SlotPos(s, f, x, 0)
  {
    var j := p - SlotPos(s, f, x, 0);
    SlotOf(s, f, x, j);
  }

  /* ---------------------------------------------------------------------- */
  /* Planes as stacks of rows                                                */
  /* ---------------------------------------------------------------------- */

  /** Rows `0 .. n - 1` of `rows`, one after another, as a row-major plane stores them. */
  function Stack(rows: seq<seq<real>>, n: nat): seq<real>
    requires n <= |rows|
  {
    if n == 0 then [] else Stack(rows, n - 1) + rows[n - 1]
  }

  /** Every row is `wd` samples wide. */
  predicate Uniform(rows: seq<seq<real>>, wd: int)
  {
    forall i :: 0 <= i < |rows| ==> |rows[i]| == wd
  }

  /** `n` rows of width `wd` take `n wd` samples. */
  lemma {:induction false} StackLength(rows: seq<seq<real>>, wd: int, n: nat)
    requires Uniform(rows, wd) && n <= |rows|
    ensures |Stack(rows, n)| == RowStart(wd, n)
  {
    if n > 0 {
      StackLength(rows, wd, n - 1);
    }
  }

  /** Sample `p` of row `y` sits at `y wd + p` of the stacked plane. */
  lemma {:induction false} StackAt(rows: seq<seq<real>>, wd: int, n: nat, y: nat, p: int)
    requires Uniform(rows, wd) && y < n <= |rows| && 0 <= p < wd
    ensures 0 <= RowStart(wd, y) + p < |Stack(rows, n)|
    ensures Stack(rows, n)[RowStart(wd, y) + p] == rows[y][p]
  {
    StackLength(rows, wd, n - 1);
    if y < n - 1 {
      StackAt(rows, wd, n - 1, y, p);
    }
  }

  /** The blocks of the launch indices of one axis of `n` items: block `g` belongs to item `g - Shift(s)` and fills its range. */
  predicate Shaped(s: Siting, f: int, n: int, blocks: seq<seq<real>>)
    requires IsFactor(f)
  {
    |blocks| == n + Shift(s) && n >= 1
    && forall g :: 0 <= g < |blocks| ==> |blocks[g]| == ItemHi(s, f, n, g - Shift(s)) - ItemLo(s, f, n, g - Shift(s))
  }

  /** The blocks of the first `g` launch indices fill the first `Filled(g)` positions. */
  lemma {:induction false} StackFilled(s: Siting, f: int, n: int, blocks: seq<seq<real>>, g: nat)
    requires IsFactor(f) && Shaped(s, f, n, blocks) && g <= |blocks|
    ensures |Stack(blocks, g)| == Filled(s, f, n, g)
  {
    if g == 0 {
      FilledEnds(s, f, n, n + Shift(s));
    } else {
      StackFilled(s, f, n, blocks, g - 1);
      FilledStep(s, f, n, g - 1, g, g - 1 - Shift(s));
    }
  }

  /** Stacking more rows keeps what stacking fewer wrote. */
  lemma {:induction false} StackPrefix(rows: seq<seq<real>>, g0: nat, g: nat, p: int)
    requires g0 <= g <= |rows| && 0 <= p < |Stack(rows, g0)|
    ensures p < |Stack(rows, g)| && Stack(rows, g)[p] == Stack(rows, g0)[p]
  {
    if g0 < g {
      StackPrefix(rows, g0, g - 1, p);
    }
  }

  /** Stacking row `g` puts its entry `k` right after the rows before it. */
  lemma StackTop(rows: seq<seq<real>>, g: nat, k: int)
    requires g < |rows| && 0 <= k < |rows[g]|
    ensures |Stack(rows, g + 1)| == |Stack(rows, g)| + |rows[g]|
    ensures Stack(rows, g + 1)[|Stack(rows, g)| + k] == rows[g][k]
  {}

  /** A position inside row `g`'s stretch of the stack holds the matching entry of row `g`. */
  lemma StackOffset(rows: seq<seq<real>>, g: nat, n: nat, k: int, p: int)
    requires g < n == |rows| && 0 <= k < |rows[g]| && p == |Stack(rows, g)| + k
    ensures 0 <= p < |Stack(rows, n)|
    ensures Stack(rows, n)[p] == rows[g][k]
  {
    StackTop(rows, g, k);
    StackPrefix(rows, g + 1, n, p);
  }

  /** Position `p` of item `x`'s range holds entry `p - ItemLo(x)` of the item's block. */
  lemma StackBlockAt(s: Siting, f: int, n: int, blocks: seq<seq<real>>, x: int, p: int)
    requires IsFactor(f) && Shaped(s, f, n, blocks)
    requires -Shift(s) <= x < n && ItemLo(s, f, n, x) <= p < ItemHi(s, f, n, x)
    ensures 0 <= p < |Stack(blocks, |blocks|)|
    ensures Stack(blocks, |blocks|)[p] == blocks[x + Shift(s)][p - ItemLo(s, f, n, x)]
  {
    var g: nat := x + Shift(s);
    StackFilled(s, f, n, blocks, g);
    FilledStep(s, f, n, g, g + 1, x);
    assert |blocks[g]| == ItemHi(s, f, n, x) - ItemLo(s, f, n, x);
    StackOffset(blocks, g, |blocks|, p - ItemLo(s, f, n, x), p);
  }

  /* ---------------------------------------------------------------------- */
  /* Horizontal upscaling                                                    */
  /* ---------------------------------------------------------------------- */

  /**
   * Slot `j` of an item whose spline is `c` and whose own chroma sample is
   * `v`: a co-sited slot 0 is the sample itself, every other slot the spline
   * at the slot's weight (see `SlotValueAtWeight`). The weights are spelled
   * out per slot so that `Get` is only ever applied to a constant.
   */
  function SlotValue(s: Siting, f: int, c: Hermite, v: real, j: int): real
  {
    if s == Centred then
      if f == 2 then (if j == 0 then Get(c, 0.25) else Get(c, 0.75))
      else if j == 0 then Get(c, 0.125) else if j == 1 then Get(c, 0.375)
      else if j == 2 then Get(c, 0.625) else Get(c, 0.875)
    else
      if j == 0 then v
      else if f == 2 then Get(c, 0.5)
      else if j == 1 then Get(c, 0.25) else if j == 2 then Get(c, 0.5) else Get(c, 0.75)
  }

  lemma SlotValueAtWeight(s: Siting, f: int, c: Hermite, v: real, j: int)
    requires IsFactor(f) && 0 <= j < f
    ensures SlotValue(s, f, c, v, j) == if s == CoSited && j == 0 then v else Get(c, Weight(s, f, j))
  {}

  /**
   * Output position `p` of row `y` after horizontal upscaling by `f`: slot
   * `SlotIndex(p)` of item `SlotItem(p)`. A co-sited slot 0 is the chroma
   * sample itself; every other slot is the spline from the item's sample to
   * the next one, at the slot's weight.
   */
  function HValue(s: Siting, f: int, src: seq<real>, w: int, h: int, y: int, p: int): real
    requires IsPlane(src, w, h) && IsFactor(f)
  {
    var x := SlotItem(s, f, p);
    SlotValue(s, f, HorizontalInterpolator(src, w, h, x, y), Pixel(src, w, h, x, y), SlotIndex(s, f, p))
  }

  /**
   * What item `x` of row `y` writes, in position order: the values of its
   * slots whose positions fall inside the row, `ItemLo(x) .. ItemHi(x) - 1`.
   */
  function HBlock(s: Siting, f: int, src: seq<real>, w: int, h: int, y: int, x: int): seq<real>
    requires IsPlane(src, w, h) && IsFactor(f)
  {
    var c := HorizontalInterpolator(src, w, h, x, y);
    var v := Pixel(src, w, h, x, y);
    var lo := ItemLo(s, f, w, x);
    seq(Max(0, ItemHi(s, f, w, x) - lo), i => SlotValue(s, f, c, v, lo - SlotPos(s, f, x, 0) + i))
  }

  /** The blocks of row `y`, one per launch index: launch index `g` runs item `g - Shift(s)`. */
  function HBlockList(s: Siting, f: int, src: seq<real>, w: int, h: int, y: int): seq<seq<real>>
    requires IsPlane(src, w, h) && IsFactor(f)
  {
    seq(w + Shift(s), g requires 0 <= g < w + Shift(s) => HBlock(s, f, src, w, h, y, g - Shift(s)))
  }

  /** Row `y` of the horizontally upscaled plane, as the kernels write it: the blocks of all items in order. */
  function HRow(s: Siting, f: int, src: seq<real>, w: int, h: int, y: int): (r: seq<real>)
    requires IsPlane(src, w, h) && IsFactor(f)
    ensures |r| == Times(f, w)
  {
    HBlockListShaped(s, f, src, w, h, y);
    StackFilled(s, f, w, HBlockList(s, f, src, w, h, y), w + Shift(s));
    FilledEnds(s, f, w, w + Shift(s));
    Stack(HBlockList(s, f, src, w, h, y), w + Shift(s))
  }

  /** Launch index `g` runs item `x = g - Shift(s)`. */
  lemma HBlockListAt(s: Siting, f: int, src: seq<real>, w: int, h: int, y: int, g: nat, x: int)
    requires IsPlane(src, w, h) && IsFactor(f) && g < w + Shift(s) && x == g - Shift(s)
    ensures HBlockList(s, f, src, w, h, y)[g] == HBlock(s, f, src, w, h, y, x)
  {}

  /** Every item's block fills the item's range. */
  lemma HBlockListShaped(s: Siting, f: int, src: seq<real>, w: int, h: int, y: int)
    requires IsPlane(src, w, h) && IsFactor(f)
    ensures Shaped(s, f, w, HBlockList(s, f, src, w, h, y))
  {
    var blocks := HBlockList(s, f, src, w, h, y);
    forall g | 0 <= g < |blocks|
      ensures |blocks[g]| == ItemHi(s, f, w, g - Shift(s)) - ItemLo(s, f, w, g - Shift(s))
    {
      HBlockListAt(s, f, src, w, h, y, g, g - Shift(s));
      HBlockLength(s, f, src, w, h, y, g - Shift(s));
    }
  }

  /** Item `x` writes exactly its range of positions. */
  lemma HBlockLength(s: Siting, f: int, src: seq<real>, w: int, h: int, y: int, x: int)
    requires IsPlane(src, w, h) && IsFactor(f) && -Shift(s) <= x < w
    ensures |HBlock(s, f, src, w, h, y, x)| == ItemHi(s, f, w, x) - ItemLo(s, f, w, x)
  {
    FilledStep(s, f, w, x + Shift(s), x + Shift(s) + 1, x);
  }

  /** Slot `j` of item `x`, if the item writes it, holds the slot's value. */
  lemma HBlockEntry(s: Siting, f: int, src: seq<real>, w: int, h: int, y: int, x: int, j: int)
    requires IsPlane(src, w, h) && IsFactor(f) && -Shift(s) <= x < w && 0 <= j < f
    requires ItemLo(s, f, w, x) <= SlotPos(s, f, x, j) < ItemHi(s, f, w, x)
    ensures HBlock(s, f, src, w, h, y, x)[SlotPos(s, f, x, j) - ItemLo(s, f, w, x)]
         == SlotValue(s, f, HorizontalInterpolator(src, w, h, x, y), Pixel(src, w, h, x, y), j)
  {
  }

  /** Position `p` of item `x`'s range holds the matching entry of the item's block. */
  lemma HRowItem(s: Siting, f: int, src: seq<real>, w: int, h: int, y: int, x: int, p: int)
    requires IsPlane(src, w, h) && IsFactor(f)
    requires -Shift(s) <= x < w && ItemLo(s, f, w, x) <= p < ItemHi(s, f, w, x)
    ensures p < |HRow(s, f, src, w, h, y)|
    ensures HRow(s, f, src, w, h, y)[p] == HBlock(s, f, src, w, h, y, x)[p - ItemLo(s, f, w, x)]
  {
    var blocks := HBlockList(s, f, src, w, h, y);
    HBlockListShaped(s, f, src, w, h, y);
    StackBlockAt(s, f, w, blocks, x, p);
    HBlockListAt(s, f, src, w, h, y, x + Shift(s), x);
  }

  /** The entry of item `x`'s block at position `p`, slot `j` of the item, is `HValue(p)`. */
  lemma HBlockValue(s: Siting, f: int, src: seq<real>, w: int, h: int, y: int, p: int, x: int, j: int)
    requires IsPlane(src, w, h) && IsFactor(f)
    requires x == SlotItem(s, f, p) && j == SlotIndex(s, f, p)
    requires -Shift(s) <= x < w && 0 <= j < f && p == SlotPos(s, f, x, j)
    requires ItemLo(s, f, w, x) <= p < ItemHi(s, f, w, x)
    ensures HBlock(s, f, src, w, h, y, x)[p - ItemLo(s, f, w, x)] == HValue(s, f, src, w, h, y, p)
  {
    HBlockEntry(s, f, src, w, h, y, x, j);
  }

  /**
   * The horizontal kernels compute the upscaled row: whichever item writes
   * output position `p`, the value there is `HValue(p)`, the spline of the
   * chroma sample to the left of `p` at `p`'s offset from it.
   */
  lemma HRowAt(s: Siting, f: int, src: seq<real>, w: int, h: int, y: int, p: int)
    requires IsPlane(src, w, h) && IsFactor(f) && 0 <= p < Times(f, w)
    ensures |HRow(s, f, src, w, h, y)| == Times(f, w)
    ensures HRow(s, f, src, w, h, y)[p] == HValue(s, f, src, w, h, y, p)
  {
    ItemsCover(s, f, w, p);
    var x := SlotItem(s, f, p);
    HRowItem(s, f, src, w, h, y, x, p);
    HBlockValue(s, f, src, w, h, y, p, x, SlotIndex(s, f, p));
  }

  /** `a` is `b` with `blk` written from position `at` on. */
  ghost predicate Overwritten(a: seq<real>, b: seq<real>, at: int, blk: seq<real>)
  {
    |a| == |b| && forall k :: 0 <= k < |a| ==> a[k] == if at <= k < at + |blk| then blk[k - at] else b[k]
  }

  /** Writing `pre` and then `blk` right after it writes `pre + blk`. */
  lemma OverwrittenJoin(a: seq<real>, b: seq<real>, a0: seq<real>, at: int, pre: seq<real>, at2: int, blk: seq<real>)
    requires Overwritten(b, a0, at, pre) && at2 == at + |pre| && Overwritten(a, b, at2, blk)
    ensures Overwritten(a, a0, at, pre + blk)
  {}

  /**
   * `bicubicHorizontalCenterUpscaleX2_Kernel` for item `x` of row `y`, whose
   * output row starts at `rowOff`: positions `2x + 1` (unless `x == -1`) and
   * `2x + 2` (unless `x == w - 1`), at spline weights 0.25 and 0.75.
   */
  method HCentreX2Item(dst: array<real>, rowOff: int, s: Siting, f: int, src: seq<real>, w: int, h: int, x: int, y: int)
    requires s == Centred && f == 2
    requires IsPlane(src, w, h) && -1 <= x < w && 0 <= y < h
    requires 0 <= rowOff && rowOff + 2 * w <= dst.Length
    modifies dst
    ensures Overwritten(dst[..], old(dst[..]), rowOff + ItemLo(s, f, w, x), HBlock(s, f, src, w, h, y, x))
  {
    var c := HorizontalInterpolator(src, w, h, x, y);
    var p := rowOff + 2 * x;
    if x != -1 {
      HBlockEntry(Centred, 2, src, w, h, y, x, 0);
      dst[p + 1] := Get(c, 0.25);
    }
    if x != w - 1 {
      HBlockEntry(Centred, 2, src, w, h, y, x, 1);
      dst[p + 2] := Get(c, 0.75);
    }
  }

  /**
   * `bicubicHorizontalLeftUpscaleX2_Kernel` for item `x` of row `y`, with
   * the item index taken as the launch index (see `LeftX2AsWrittenMissesLast`):
   * position `2x` is chroma sample `x`, position `2x + 1` the spline at 0.5.
   */
  method HLeftX2Item(dst: array<real>, rowOff: int, s: Siting, f: int, src: seq<real>, w: int, h: int, x: int, y: int)
    requires s == CoSited && f == 2
    requires IsPlane(src, w, h) && 0 <= x < w && 0 <= y < h
    requires 0 <= rowOff && rowOff + 2 * w <= dst.Length
    modifies dst
    ensures Overwritten(dst[..], old(dst[..]), rowOff + ItemLo(s, f, w, x), HBlock(s, f, src, w, h, y, x))
  {
    var c := HorizontalInterpolator(src, w, h, x, y);
    var v := Pixel(src, w, h, x, y);
    var p := rowOff + 2 * x;
    HBlockEntry(CoSited, 2, src, w, h, y, x, 0);
    HBlockEntry(CoSited, 2, src, w, h, y, x, 1);
    assert HBlock(CoSited, 2, src, w, h, y, x) == [v, Get(c, 0.5)];
    dst[p] := v;
    dst[p + 1] := Get(c, 0.5);
  }

  /** Position `2x + j` of an output row: slot `j` of left-sited x2 item `x`. */
  function LeftX2Target(x: int, j: int): int
  {
    2 * x + j
  }

  /**
   * The positions of output row 0 that `bicubicHorizontalLeftUpscaleX2_Kernel`
   * writes as written: launch index `id` (below `launch`) runs item
   * `x = id - 1` when `x < w`, which writes positions `2x` and `2x + 1`.
   */
  function LeftX2RowAsWritten(w: int, launch: int): set<int>
  {
    set x, j | -1 <= x < launch - 1 && x < w && 0 <= j < 2 :: LeftX2Target(x, j)
  }

  /**
   * As written, item -1 of a row writes positions -2 and -1 relative to the
   * start of that row, and with a 16-sample-wide plane the launch of 16
   * columns stops at item 14, so the row's own items leave positions 30 and
   * 31 of its 32 unwritten. In row 0 the two stray writes land before the
   * plane; in row `y + 1` they land on positions 30 and 31 of row `y`,
   * where 30 gets the right sample and 31 a spline from the last sample of
   * row `y` to the first of row `y + 1`. Only the last row keeps 30 and 31
   * unwritten. When the width is not a multiple of 16 the launch also runs
   * item `w - 1`, and it and item -1 of the next row both write position
   * `2w - 1` of the row, with different values.
   */
  lemma LeftX2AsWrittenMissesLast()
    ensures -2 in LeftX2RowAsWritten(16, 16) && -1 in LeftX2RowAsWritten(16, 16)
    ensures 30 !in LeftX2RowAsWritten(16, 16) && 31 !in LeftX2RowAsWritten(16, 16)
  {
    assert LeftX2Target(-1, 0) == -2 && LeftX2Target(-1, 1) == -1;
  }

  /**
   * The corrected kernel (item index = launch index, as in the x4 kernel)
   * writes exactly positions `0 .. 2w - 1` of its row.
   */
  function LeftX2Row(w: int, launch: int): set<int>
  {
    set x, j | 0 <= x < launch && x < w && 0 <= j < 2 :: LeftX2Target(x, j)
  }

  /** With a launch of at least `w` items the corrected row is covered exactly. */
  lemma LeftX2RowCovers(w: int, launch: int)
    requires launch >= w
    ensures forall p :: p in LeftX2Row(w, launch) <==> 0 <= p < 2 * w
  {
    forall p | 0 <= p < 2 * w
      ensures p in LeftX2Row(w, launch)
    {
      var x := p / 2;
      assert LeftX2Target(x, p - 2 * x) == p;
    }
  }

  /**
   * `bicubicHorizontalCenterUpscaleX4_Kernel` for item `x` of row `y`:
   * positions `4x + 2` and `4x + 3` (unless `x == -1`) and `4x + 4` and
   * `4x + 5` (unless `x == w - 1`), at weights 0.125, 0.375, 0.625, 0.875.
   */
  method HCentreX4Item(dst: array<real>, rowOff: int, s: Siting, f: int, src: seq<real>, w: int, h: int, x: int, y: int)
    requires s == Centred && f == 4
    requires IsPlane(src, w, h) && -1 <= x < w && 0 <= y < h
    requires 0 <= rowOff && rowOff + 4 * w <= dst.Length
    modifies dst
    ensures Overwritten(dst[..], old(dst[..]), rowOff + ItemLo(s, f, w, x), HBlock(s, f, src, w, h, y, x))
  {
    var c := HorizontalInterpolator(src, w, h, x, y);
    var p := rowOff + 4 * x;
    HCentreX4Block(src, w, h, y, x);
    if x != -1 {
      dst[p + 2] := Get(c, 0.125);
    }
    if x != -1 {
      dst[p + 3] := Get(c, 0.375);
    }
    if x != w - 1 {
      dst[p + 4] := Get(c, 0.625);
    }
    if x != w - 1 {
      dst[p + 5] := Get(c, 0.875);
    }
  }

  /** The block of a centred x4 item: its left pair unless it is item -1, its right pair unless it is the last item. */
  lemma HCentreX4Block(src: seq<real>, w: int, h: int, y: int, x: int)
    requires IsPlane(src, w, h) && -1 <= x < w
    ensures ItemLo(Centred, 4, w, x) == if x == -1 then 0 else 4 * x + 2
    ensures var c := HorizontalInterpolator(src, w, h, x, y);
      HBlock(Centred, 4, src, w, h, y, x)
      == (if x == -1 then [] else [Get(c, 0.125), Get(c, 0.375)]) + (if x == w - 1 then [] else [Get(c, 0.625), Get(c, 0.875)])
  {
    var c := HorizontalInterpolator(src, w, h, x, y);
    var b := HBlock(Centred, 4, src, w, h, y, x);
    if x != -1 {
      HBlockEntry(Centred, 4, src, w, h, y, x, 0);
      HBlockEntry(Centred, 4, src, w, h, y, x, 1);
    }
    if x != w - 1 {
      HBlockEntry(Centred, 4, src, w, h, y, x, 2);
      HBlockEntry(Centred, 4, src, w, h, y, x, 3);
    }
  }

  /**
   * `bicubicHorizontalLeftUpscaleX4_Kernel` for item `x` of row `y`:
   * position `4x` is chroma sample `x`, positions `4x + 1 .. 4x + 3` the
   * spline at 0.25, 0.5 and 0.75.
   */
  method HLeftX4Item(dst: array<real>, rowOff: int, s: Siting, f: int, src: seq<real>, w: int, h: int, x: int, y: int)
    requires s == CoSited && f == 4
    requires IsPlane(src, w, h) && 0 <= x < w && 0 <= y < h
    requires 0 <= rowOff && rowOff + 4 * w <= dst.Length
    modifies dst
    ensures Overwritten(dst[..], old(dst[..]), rowOff + ItemLo(s, f, w, x), HBlock(s, f, src, w, h, y, x))
  {
    var c := HorizontalInterpolator(src, w, h, x, y);
    var v := Pixel(src, w, h, x, y);
    var p := rowOff + 4 * x;
    HBlockEntry(CoSited, 4, src, w, h, y, x, 0);
    HBlockEntry(CoSited, 4, src, w, h, y, x, 1);
    HBlockEntry(CoSited, 4, src, w, h, y, x, 2);
    HBlockEntry(CoSited, 4, src, w, h, y, x, 3);
    dst[p] := v;
    dst[p + 1] := Get(c, 0.25);
    dst[p + 2] := Get(c, 0.5);
    dst[p + 3] := Get(c, 0.75);
  }

  /** Item `x` of row `y` of whichever horizontal kernel `(s, f)` selects. */
  method HorizontalItem(dst: array<real>, rowOff: int, s: Siting, f: int, src: seq<real>, w: int, h: int, x: int, y: int)
    requires IsPlane(src, w, h) && IsFactor(f) && -Shift(s) <= x < w && 0 <= y < h
    requires 0 <= rowOff && rowOff + Times(f, w) <= dst.Length
    modifies dst
    ensures Overwritten(dst[..], old(dst[..]), rowOff + ItemLo(s, f, w, x), HBlock(s, f, src, w, h, y, x))
  {
    if s == Centred && f == 2 {
      HCentreX2Item(dst, rowOff, s, f, src, w, h, x, y);
    } else if s == Centred {
      HCentreX4Item(dst, rowOff, s, f, src, w, h, x, y);
    } else if f == 2 {
      HLeftX2Item(dst, rowOff, s, f, src, w, h, x, y);
    } else {
      HLeftX4Item(dst, rowOff, s, f, src, w, h, x, y);
    }
  }

  /**
   * Row `y` of a horizontal kernel launch: launch indices `0 .. launch - 1`
   * run item `gx - Shift(s)`, and items from `w` on do nothing. The row of
   * the output starting at `rowOff` ends up holding `HRow(y)`.
   */
  method HorizontalRow(dst: array<real>, rowOff: int, s: Siting, f: int, src: seq<real>, w: int, h: int, y: int, launch: int)
    requires IsPlane(src, w, h) && IsFactor(f) && 0 <= y < h && launch >= w + Shift(s)
    requires 0 <= rowOff && rowOff + Times(f, w) <= dst.Length
    modifies dst
    ensures Overwritten(dst[..], old(dst[..]), rowOff, HRow(s, f, src, w, h, y))
  {
    ghost var written := HorizontalLaunches(dst, rowOff, s, f, src, w, h, y, launch);
    assert written == HRow(s, f, src, w, h, y);
  }

  /** Launch indices `0 .. launch - 1` of row `y`, in order: together they write the blocks of the first `launch` of them. */
  method HorizontalLaunches(dst: array<real>, rowOff: int, s: Siting, f: int, src: seq<real>, w: int, h: int, y: int, launch: nat)
      returns (ghost written: seq<real>)
    requires IsPlane(src, w, h) && IsFactor(f) && 0 <= y < h
    requires 0 <= rowOff && rowOff + Times(f, w) <= dst.Length
    modifies dst
    ensures written == Stack(HBlockList(s, f, src, w, h, y), Min(launch, w + Shift(s)))
    ensures Overwritten(dst[..], old(dst[..]), rowOff, written)
  {
    ghost var blocks := HBlockList(s, f, src, w, h, y);
    HBlockListShaped(s, f, src, w, h, y);
    var gx: nat := 0;
    written := [];
    while gx < launch
      invariant 0 <= gx <= launch
      invariant written == Stack(blocks, Min(gx, w + Shift(s)))
      invariant Overwritten(dst[..], old(dst[..]), rowOff, written)
    {
      written := HorizontalLaunch(dst, rowOff, s, f, src, w, h, y, gx, old(dst[..]), blocks, written);
      gx := gx + 1;
    }
  }

  /** Launch index `gx` of row `y`: runs item `gx - Shift(s)` when it is a column, appending that item's block. */
  method HorizontalLaunch(dst: array<real>, rowOff: int, s: Siting, f: int, src: seq<real>, w: int, h: int, y: int, gx: nat,
                          ghost d0: seq<real>, ghost blocks: seq<seq<real>>, ghost written: seq<real>) returns (ghost written': seq<real>)
    requires IsPlane(src, w, h) && IsFactor(f) && 0 <= y < h
    requires 0 <= rowOff && rowOff + Times(f, w) <= dst.Length
    requires blocks == HBlockList(s, f, src, w, h, y) && Shaped(s, f, w, blocks)
    requires written == Stack(blocks, Min(gx, w + Shift(s)))
    requires Overwritten(dst[..], d0, rowOff, written)
    modifies dst
    ensures written' == Stack(blocks, Min(gx + 1, w + Shift(s)))
    ensures Overwritten(dst[..], d0, rowOff, written')
  {
    var x := gx - Shift(s);
    if x < w {
      assert Min(gx, w + Shift(s)) == gx && Min(gx + 1, w + Shift(s)) == gx + 1;
      StackFilled(s, f, w, blocks, gx);
      FilledStep(s, f, w, gx, gx + 1, x);
      HorizontalLaunchIndex(dst, rowOff, s, f, src, w, h, y, x, d0, written);
      HBlockListAt(s, f, src, w, h, y, gx, x);
      written' := written + blocks[gx];
    } else {
      written' := written;
    }
  }

  /** Item `x` of row `y`, run after the items before it wrote `written`, appends its block. */
  method HorizontalLaunchIndex(dst: array<real>, rowOff: int, s: Siting, f: int, src: seq<real>, w: int, h: int, y: int, x: int,
                               ghost d0: seq<real>, ghost written: seq<real>)
    requires IsPlane(src, w, h) && IsFactor(f) && 0 <= y < h && -Shift(s) <= x < w
    requires 0 <= rowOff && rowOff + Times(f, w) <= dst.Length
    requires |written| == ItemLo(s, f, w, x)
    requires Overwritten(dst[..], d0, rowOff, written)
    modifies dst
    ensures Overwritten(dst[..], d0, rowOff, written + HBlock(s, f, src, w, h, y, x))
  {
    ghost var before := dst[..];
    HorizontalItem(dst, rowOff, s, f, src, w, h, x, y);
    OverwrittenJoin(dst[..], before, d0, rowOff, written, rowOff + ItemLo(s, f, w, x), HBlock(s, f, src, w, h, y, x));
  }

  /* ---------------------------------------------------------------------- */
  /* The horizontal pass over a plane                                        */
  /* ---------------------------------------------------------------------- */

  /** The rows of the horizontally upscaled plane. */
  function HRows(s: Siting, f: int, src: seq<real>, w: int, h: int): (rows: seq<seq<real>>)
    requires IsPlane(src, w, h) && IsFactor(f)
    ensures |rows| == h && Uniform(rows, Times(f, w))
  {
    seq(h, y requires 0 <= y < h => HRow(s, f, src, w, h, y))
  }

  /** The horizontally upscaled plane: `h` rows of `f w` samples. */
  function HPlane(s: Siting, f: int, src: seq<real>, w: int, h: int): seq<real>
    requires IsPlane(src, w, h) && IsFactor(f)
  {
    Stack(HRows(s, f, src, w, h), h)
  }

  /** The horizontally upscaled plane is `h` rows of `f w` samples. */
  lemma HPlaneLength(s: Siting, f: int, src: seq<real>, w: int, h: int)
    requires IsPlane(src, w, h) && IsFactor(f)
    ensures |HPlane(s, f, src, w, h)| == RowStart(Times(f, w), h)
  {
    StackLength(HRows(s, f, src, w, h), Times(f, w), h);
  }

  /**
   * The horizontal pass computes the upscaled plane: it has `h (f w)`
   * samples, and position `p` of row `y` (index `y (f w) + p`) is
   * `HValue(y, p)`.
   */
  lemma HPlaneAt(s: Siting, f: int, src: seq<real>, w: int, h: int, y: nat, p: int)
    requires IsPlane(src, w, h) && IsFactor(f) && y < h && 0 <= p < Times(f, w)
    ensures |HPlane(s, f, src, w, h)| == RowStart(Times(f, w), h)
    ensures 0 <= RowStart(Times(f, w), y) + p < |HPlane(s, f, src, w, h)|
    ensures HPlane(s, f, src, w, h)[RowStart(Times(f, w), y) + p] == HValue(s, f, src, w, h, y, p)
  {
    var rows := HRows(s, f, src, w, h);
    StackLength(rows, Times(f, w), h);
    StackAt(rows, Times(f, w), h, y, p);
    HRowAt(s, f, src, w, h, y, p);
  }

  /**
   * The horizontal launch over a whole plane: launch rows `0 .. launchY - 1`,
   * of which rows from `h` on do nothing, each running `HorizontalRow`.
   * The first `h (f w)` samples of `dst` end up holding the upscaled plane
   * and the rest is untouched.
   */
  method HorizontalPass(dst: array<real>, s: Siting, f: int, src: seq<real>, w: int, h: int, launchX: int, launchY: int)
    requires IsPlane(src, w, h) && IsFactor(f) && launchX >= w + Shift(s) && launchY >= h
    requires RowStart(Times(f, w), h) <= dst.Length
    modifies dst
    ensures Overwritten(dst[..], old(dst[..]), 0, HPlane(s, f, src, w, h))
  {
    ghost var rows := HRows(s, f, src, w, h);
    var gy: nat := 0;
    var rowOff := 0;
    ghost var done: nat := 0;
    while gy < launchY
      invariant 0 <= gy <= launchY && done == Min(gy, h)
      invariant rowOff == RowStart(Times(f, w), done)
      invariant Overwritten(dst[..], old(dst[..]), 0, Stack(rows, done))
    {
      if gy < h {
        HorizontalPassRow(dst, rowOff, s, f, src, w, h, gy, launchX, old(dst[..]), rows);
        rowOff := rowOff + Times(f, w);
        done := done + 1;
      }
      gy := gy + 1;
    }
  }

  /** Launch row `y` appends row `y` to the rows already written. */
  method HorizontalPassRow(dst: array<real>, rowOff: int, s: Siting, f: int, src: seq<real>, w: int, h: int, y: nat, launch: int,
                           ghost d0: seq<real>, ghost rows: seq<seq<real>>)
    requires IsPlane(src, w, h) && IsFactor(f) && y < h && launch >= w + Shift(s)
    requires RowStart(Times(f, w), h) <= dst.Length && rowOff == RowStart(Times(f, w), y)
    requires rows == HRows(s, f, src, w, h)
    requires Overwritten(dst[..], d0, 0, Stack(rows, y))
    modifies dst
    ensures Overwritten(dst[..], d0, 0, Stack(rows, y + 1))
  {
    RowStartMono(Times(f, w), y + 1, h);
    StackLength(rows, Times(f, w), y);
    ghost var before := dst[..];
    HorizontalRow(dst, rowOff, s, f, src, w, h, y, launch);
    assert rows[y] == HRow(s, f, src, w, h, y);
    OverwrittenJoin(dst[..], before, d0, 0, Stack(rows, y), rowOff, rows[y]);
  }

  /* ---------------------------------------------------------------------- */
  /* Vertical upscaling by 2                                                 */
  /* ---------------------------------------------------------------------- */

  /**
   * Sample `x` of output row `r` after vertical upscaling by 2: slot
   * `SlotIndex(r)` of item row `SlotItem(r)`, read off the vertical spline of
   * column `x`. A co-sited (top) slot 0 is the chroma sample itself.
   */
  function VValue(s: Siting, src: seq<real>, w: int, h: int, x: int, r: int): real
    requires IsPlane(src, w, h)
  {
    var y := SlotItem(s, 2, r);
    SlotValue(s, 2, VerticalInterpolator(src, w, h, x, y), Pixel(src, w, h, x, y), SlotIndex(s, 2, r))
  }

  /** Output row `r` of the vertically upscaled plane. */
  function VRow(s: Siting, src: seq<real>, w: int, h: int, r: int): (row: seq<real>)
    requires IsPlane(src, w, h)
    ensures |row| == w
  {
    seq(w, x requires 0 <= x < w => VValue(s, src, w, h, x, r))
  }

  /** The `2 h` rows of the vertically upscaled plane. */
  function VRows(s: Siting, src: seq<real>, w: int, h: int): (rows: seq<seq<real>>)
    requires IsPlane(src, w, h)
    ensures |rows| == 2 * h && Uniform(rows, w)
  {
    seq(2 * h, r requires 0 <= r < 2 * h => VRow(s, src, w, h, r))
  }

  /** The vertically upscaled plane: `2 h` rows of `w` samples. */
  function VPlane(s: Siting, src: seq<real>, w: int, h: int): seq<real>
    requires IsPlane(src, w, h)
  {
    Stack(VRows(s, src, w, h), 2 * h)
  }

  /** The vertically upscaled plane is `2 h` rows of `w` samples. */
  lemma VPlaneLength(s: Siting, src: seq<real>, w: int, h: int)
    requires IsPlane(src, w, h)
    ensures |VPlane(s, src, w, h)| == RowStart(w, 2 * h)
  {
    StackLength(VRows(s, src, w, h), w, 2 * h);
  }

  /**
   * The vertical pass computes the upscaled plane: it has `2 h w` samples,
   * and sample `x` of row `r` (index `r w + x`) is `VValue(x, r)`.
   */
  lemma VPlaneAt(s: Siting, src: seq<real>, w: int, h: int, r: nat, x: int)
    requires IsPlane(src, w, h) && r < 2 * h && 0 <= x < w
    ensures |VPlane(s, src, w, h)| == RowStart(w, 2 * h)
    ensures 0 <= RowStart(w, r) + x < |VPlane(s, src, w, h)|
    ensures VPlane(s, src, w, h)[RowStart(w, r) + x] == VValue(s, src, w, h, x, r)
  {
    var rows := VRows(s, src, w, h);
    StackLength(rows, w, 2 * h);
    StackAt(rows, w, 2 * h, r, x);
  }

  /** Sample `x` of row `r`. */
  function Entry(rows: seq<seq<real>>, r: int, x: int): real
    requires 0 <= r < |rows| && 0 <= x < |rows[r]|
  {
    rows[r][x]
  }

  /**
   * `rows` are the rows of the vertically upscaled plane, stated sample by
   * sample; the quantifier only fires on `Entry`, so that the values stay
   * out of reasoning about where rows are written.
   */
  ghost predicate VRowsAre(rows: seq<seq<real>>, s: Siting, src: seq<real>, w: int, h: int)
    requires IsPlane(src, w, h)
  {
    |rows| == 2 * h && Uniform(rows, w)
    && forall r, x {:trigger Entry(rows, r, x)} :: 0 <= r < |rows| && 0 <= x < w ==> Entry(rows, r, x) == VValue(s, src, w, h, x, r)
  }

  lemma VRowsAreVRows(s: Siting, src: seq<real>, w: int, h: int)
    requires IsPlane(src, w, h)
    ensures VRowsAre(VRows(s, src, w, h), s, src, w, h)
  {}

  /** The value `ColumnsDone` expects at position `k`. */
  function ColumnsValue(b: seq<real>, at: int, w: int, r0: seq<real>, r1: seq<real>, gx: int, k: int): real
    requires 0 <= k < |b| && gx <= |r0| && (|r1| == 0 || gx <= |r1|)
  {
    if at <= k < at + gx && 0 <= k - at then r0[k - at]
    else if |r1| != 0 && at + w <= k < at + w + gx && 0 <= k - at - w then r1[k - at - w]
    else b[k]
  }

  /**
   * `b` with the first `gx` columns of row `r0` and, unless it is empty, of
   * row `r1` right below it (rows of `w` samples, the first at position
   * `at`) written: the state of the output while a launch row of the
   * vertical kernel runs along its columns.
   */
  ghost predicate ColumnsDone(a: seq<real>, b: seq<real>, at: int, w: int, r0: seq<real>, r1: seq<real>, gx: int)
  {
    |r0| == w && (|r1| == 0 || |r1| == w) && 0 <= gx <= w && |a| == |b|
    && forall k :: 0 <= k < |a| ==> a[k] == ColumnsValue(b, at, w, r0, r1, gx, k)
  }

  /** The value `ColumnWritten` expects at position `k`. */
  function ColumnValue(b: seq<real>, at: int, w: int, x: int, col: seq<real>, k: int): real
    requires 0 <= k < |b|
  {
    if k == at + x && 1 <= |col| then col[0]
    else if k == at + w + x && 2 <= |col| then col[1]
    else b[k]
  }

  /** `b` with column `x` of one or two rows of width `w` starting at `at` set to `col`. */
  ghost predicate ColumnWritten(a: seq<real>, b: seq<real>, at: int, w: int, x: int, col: seq<real>)
  {
    |a| == |b| && forall k :: 0 <= k < |a| ==> a[k] == ColumnValue(b, at, w, x, col, k)
  }

  /** Writing column `x` of rows `r0` and `r1` after columns `0 .. x - 1` leaves columns `0 .. x` done. */
  lemma ColumnsStep(a: seq<real>, b: seq<real>, d0: seq<real>, at: int, w: int, r0: seq<real>, r1: seq<real>, x: int, col: seq<real>)
    requires ColumnsDone(b, d0, at, w, r0, r1, x) && x < w
    requires |col| == (if |r1| == 0 then 1 else 2) && col[0] == r0[x] && (|r1| != 0 ==> col[1] == r1[x])
    requires ColumnWritten(a, b, at, w, x, col)
    ensures ColumnsDone(a, d0, at, w, r0, r1, x + 1)
  {}

  /** Once every column is done, rows `r0` and `r1` are written one after the other. */
  lemma ColumnsDoneAll(a: seq<real>, b: seq<real>, at: int, w: int, r0: seq<real>, r1: seq<real>)
    requires ColumnsDone(a, b, at, w, r0, r1, w)
    ensures Overwritten(a, b, at, r0 + r1)
  {}

  /**
   * The rows item row `y` writes, `ItemLo(y) .. ItemHi(y) - 1` of the
   * upscaled plane: two rows, or one on either edge of a centred plane.
   */
  lemma VItemRows(s: Siting, h: int, y: int)
    requires h >= 1 && -Shift(s) <= y < h
    ensures 0 <= ItemLo(s, 2, h, y) < ItemHi(s, 2, h, y) <= 2 * h
    ensures ItemHi(s, 2, h, y) - ItemLo(s, 2, h, y) <= 2
    ensures s == CoSited ==> ItemLo(s, 2, h, y) == 2 * y && ItemHi(s, 2, h, y) == 2 * y + 2
    ensures s == Centred ==> ItemLo(s, 2, h, y) == (if y == -1 then 0 else 2 * y + 1)
    ensures s == Centred ==> ItemHi(s, 2, h, y) == (if y == h - 1 then 2 * h else 2 * y + 3)
  {
    FilledStep(s, 2, h, y + Shift(s), y + Shift(s) + 1, y);
  }

  /** What item (x, y) writes, top to bottom: column `x` of the rows `ItemLo(y) .. ItemHi(y) - 1`. */
  function VColumn(s: Siting, src: seq<real>, w: int, h: int, x: int, y: int): seq<real>
    requires IsPlane(src, w, h)
  {
    var c := VerticalInterpolator(src, w, h, x, y);
    var v := Pixel(src, w, h, x, y);
    var lo := ItemLo(s, 2, h, y);
    seq(Max(0, ItemHi(s, 2, h, y) - lo), i => SlotValue(s, 2, c, v, lo - SlotPos(s, 2, y, 0) + i))
  }

  /** Item (x, y) writes column `x` of exactly the rows of its launch row. */
  lemma VColumnInRows(s: Siting, src: seq<real>, w: int, h: int, x: int, y: int, rows: seq<seq<real>>)
    requires IsPlane(src, w, h) && -Shift(s) <= y < h && 0 <= x < w && VRowsAre(rows, s, src, w, h)
    ensures var lo := ItemLo(s, 2, h, y); var hi := ItemHi(s, 2, h, y);
      var col := VColumn(s, src, w, h, x, y);
      0 <= lo < hi <= lo + 2 <= 2 * h + 1 && |col| == hi - lo
      && col[0] == rows[lo][x]
      && (hi == lo + 2 ==> col[1] == rows[lo + 1][x])
  {
    VItemRows(s, h, y);
    VColumnEntry(s, src, w, h, x, y, rows, 0);
    if ItemHi(s, 2, h, y) == ItemLo(s, 2, h, y) + 2 {
      VColumnEntry(s, src, w, h, x, y, rows, 1);
    }
  }

  /** Entry `i` of item (x, y)'s column is sample `x` of row `ItemLo(y) + i`. */
  lemma VColumnEntry(s: Siting, src: seq<real>, w: int, h: int, x: int, y: int, rows: seq<seq<real>>, i: int)
    requires IsPlane(src, w, h) && -Shift(s) <= y < h && 0 <= x < w && VRowsAre(rows, s, src, w, h)
    requires 0 <= i < ItemHi(s, 2, h, y) - ItemLo(s, 2, h, y)
    ensures 0 <= ItemLo(s, 2, h, y) + i < |rows| && i < |VColumn(s, src, w, h, x, y)|
    ensures VColumn(s, src, w, h, x, y)[i] == rows[ItemLo(s, 2, h, y) + i][x]
  {
    VItemRows(s, h, y);
    var r := ItemLo(s, 2, h, y) + i;
    var j := ItemLo(s, 2, h, y) - SlotPos(s, 2, y, 0) + i;
    VItemEntry(s, src, w, h, x, y, j, r);
    assert Entry(rows, r, x) == VValue(s, src, w, h, x, r);
  }

  /** Slot `j` of item row `y`, output row `r`, holds in column `x` the slot's value of the column's spline. */
  lemma VItemEntry(s: Siting, src: seq<real>, w: int, h: int, x: int, y: int, j: int, r: int)
    requires IsPlane(src, w, h) && 0 <= j < 2 && r == SlotPos(s, 2, y, j)
    ensures VValue(s, src, w, h, x, r)
         == SlotValue(s, 2, VerticalInterpolator(src, w, h, x, y), Pixel(src, w, h, x, y), j)
  {
    SlotOf(s, 2, y, j);
  }

  /** The column a centred item writes: the spline at 0.25 unless it is item -1, at 0.75 unless it is the last. */
  lemma VCentreColumn(src: seq<real>, w: int, h: int, x: int, y: int)
    requires IsPlane(src, w, h) && -1 <= y < h
    ensures var c := VerticalInterpolator(src, w, h, x, y); var col := VColumn(Centred, src, w, h, x, y);
      |col| == (if y == -1 || y == h - 1 then 1 else 2)
      && (y != -1 ==> col[0] == Get(c, 0.25))
      && (y != h - 1 ==> col[|col| - 1] == Get(c, 0.75))
  {
    VItemRows(Centred, h, y);
    var c := VerticalInterpolator(src, w, h, x, y);
    var v := Pixel(src, w, h, x, y);
    var col := VColumn(Centred, src, w, h, x, y);
    if y != -1 {
      assert col[0] == SlotValue(Centred, 2, c, v, 0);
    }
    if y != h - 1 {
      assert col[|col| - 1] == SlotValue(Centred, 2, c, v, 1);
    }
  }

  /** The column a top-sited item writes: its own sample, then the spline at 0.5. */
  lemma VTopColumn(src: seq<real>, w: int, h: int, x: int, y: int)
    requires IsPlane(src, w, h) && 0 <= y < h
    ensures var col := VColumn(CoSited, src, w, h, x, y);
      |col| == 2 && col[0] == Pixel(src, w, h, x, y) && col[1] == Get(VerticalInterpolator(src, w, h, x, y), 0.5)
  {
    VItemRows(CoSited, h, y);
    assert ItemLo(CoSited, 2, h, y) - SlotPos(CoSited, 2, y, 0) == 0;
    var c := VerticalInterpolator(src, w, h, x, y);
    var v := Pixel(src, w, h, x, y);
    var col := VColumn(CoSited, src, w, h, x, y);
    assert col[0] == SlotValue(CoSited, 2, c, v, 0);
    assert col[1] == SlotValue(CoSited, 2, c, v, 1);
  }

  /** One write to row `at` of column `x` writes a one-sample column. */
  lemma ColumnOne(a: seq<real>, b: seq<real>, at: int, w: int, x: int, col: seq<real>)
    requires 0 <= at + x < |b| && |col| == 1 && a == b[at + x := col[0]]
    ensures ColumnWritten(a, b, at, w, x, col)
  {}

  /** Writes to column `x` of two rows of width `w >= 1`, top then bottom, write a two-sample column. */
  lemma ColumnTwo(a: seq<real>, b: seq<real>, at: int, w: int, x: int, col: seq<real>)
    requires w >= 1 && 0 <= at + x && at + w + x < |b| && |col| == 2 && a == b[at + x := col[0]][at + w + x := col[1]]
    ensures ColumnWritten(a, b, at, w, x, col)
  {}

  /**
   * `bicubicVerticalCenterUpscaleX2_Kernel` for item (x, y): row `2y + 1`
   * (unless `y == -1`) and row `2y + 2` (unless `y == h - 1`) of column
   * `x`, at spline weights 0.25 and 0.75.
   */
  method VCentreX2Item(dst: array<real>, s: Siting, src: seq<real>, w: int, h: int, x: int, y: int)
    requires s == Centred && IsPlane(src, w, h) && 0 <= x < w && -1 <= y < h
    requires RowStart(w, ItemHi(s, 2, h, y)) <= dst.Length
    modifies dst
    ensures ColumnWritten(dst[..], old(dst[..]), RowStart(w, ItemLo(s, 2, h, y)), w, x, VColumn(s, src, w, h, x, y))
  {
    VItemRows(s, h, y);
    VCentreColumn(src, w, h, x, y);
    ghost var at := RowStart(w, ItemLo(s, 2, h, y));
    if y != -1 {
      RowStartMono(w, 0, 2 * y + 1);
      RowStartMono(w, 2 * y + 2, ItemHi(s, 2, h, y));
      assert RowStart(w, 2 * y + 2) == RowStart(w, 2 * y + 1) + w;
      assert at == RowStart(w, 2 * y + 1);
    }
    if y != h - 1 {
      RowStartMono(w, 0, 2 * y + 2);
      RowStartMono(w, 2 * y + 3, ItemHi(s, 2, h, y));
      assert RowStart(w, 2 * y + 3) == RowStart(w, 2 * y + 2) + w;
    }
    ghost var b := dst[..];
    var c := VerticalInterpolator(src, w, h, x, y);
    if y != -1 {
      dst[RowStart(w, 2 * y + 1) + x] := Get(c, 0.25);
    }
    if y != h - 1 {
      dst[RowStart(w, 2 * y + 2) + x] := Get(c, 0.75);
    }
    if y == -1 {
      ColumnOne(dst[..], b, 0, w, x, VColumn(s, src, w, h, x, y));
    } else if y == h - 1 {
      ColumnOne(dst[..], b, RowStart(w, 2 * y + 1), w, x, VColumn(s, src, w, h, x, y));
    } else {
      ColumnTwo(dst[..], b, RowStart(w, 2 * y + 1), w, x, VColumn(s, src, w, h, x, y));
    }
  }

  /**
   * `bicubicVerticalTopUpscaleX2_Kernel` for item (x, y): row `2y` of
   * column `x` is chroma sample (x, y), row `2y + 1` the spline at 0.5.
   */
  method VTopX2Item(dst: array<real>, s: Siting, src: seq<real>, w: int, h: int, x: int, y: int)
    requires s == CoSited && IsPlane(src, w, h) && 0 <= x < w && 0 <= y < h
    requires RowStart(w, ItemHi(s, 2, h, y)) <= dst.Length
    modifies dst
    ensures ColumnWritten(dst[..], old(dst[..]), RowStart(w, ItemLo(s, 2, h, y)), w, x, VColumn(s, src, w, h, x, y))
  {
    VItemRows(s, h, y);
    VTopColumn(src, w, h, x, y);
    RowStartMono(w, 0, 2 * y);
    RowStartMono(w, 2 * y + 2, ItemHi(s, 2, h, y));
    assert RowStart(w, 2 * y + 2) == RowStart(w, 2 * y + 1) + w;
    assert RowStart(w, 2 * y + 1) == RowStart(w, 2 * y) + w;
    ghost var b := dst[..];
    ghost var col := VColumn(s, src, w, h, x, y);
    ghost var at := RowStart(w, 2 * y);
    var c := VerticalInterpolator(src, w, h, x, y);
    dst[RowStart(w, 2 * y) + x] := Pixel(src, w, h, x, y);
    dst[RowStart(w, 2 * y + 1) + x] := Get(c, 0.5);
    assert dst[..] == b[at + x := col[0]][at + w + x := col[1]];
    ColumnTwo(dst[..], b, at, w, x, col);
  }

  /** Item (x, y) of whichever vertical kernel the siting selects. */
  method VerticalItem(dst: array<real>, s: Siting, src: seq<real>, w: int, h: int, x: int, y: int)
    requires IsPlane(src, w, h) && 0 <= x < w && -Shift(s) <= y < h
    requires RowStart(w, ItemHi(s, 2, h, y)) <= dst.Length
    modifies dst
    ensures ColumnWritten(dst[..], old(dst[..]), RowStart(w, ItemLo(s, 2, h, y)), w, x, VColumn(s, src, w, h, x, y))
  {
    if s == Centred {
      VCentreX2Item(dst, s, src, w, h, x, y);
    } else {
      VTopX2Item(dst, s, src, w, h, x, y);
    }
  }

  /** Launch index `x` of launch row `y`, after columns `0 .. x - 1`: column `x` is done too. */
  method VerticalLaunch(dst: array<real>, s: Siting, src: seq<real>, w: int, h: int, x: int, y: int,
                        ghost d0: seq<real>, ghost rows: seq<seq<real>>, ghost r0: seq<real>, ghost r1: seq<real>)
    requires IsPlane(src, w, h) && 0 <= x < w && -Shift(s) <= y < h
    requires RowStart(w, ItemHi(s, 2, h, y)) <= dst.Length
    requires VRowsAre(rows, s, src, w, h) && 0 <= ItemLo(s, 2, h, y) < |rows|
    requires r0 == rows[ItemLo(s, 2, h, y)]
    requires r1 == if ItemHi(s, 2, h, y) == ItemLo(s, 2, h, y) + 2 then rows[ItemLo(s, 2, h, y) + 1] else []
    requires ColumnsDone(dst[..], d0, RowStart(w, ItemLo(s, 2, h, y)), w, r0, r1, x)
    modifies dst
    ensures ColumnsDone(dst[..], d0, RowStart(w, ItemLo(s, 2, h, y)), w, r0, r1, x + 1)
  {
    ghost var before := dst[..];
    VerticalItem(dst, s, src, w, h, x, y);
    VColumnInRows(s, src, w, h, x, y, rows);
    ColumnsStep(dst[..], before, d0, RowStart(w, ItemLo(s, 2, h, y)), w, r0, r1, x, VColumn(s, src, w, h, x, y));
  }

  /** Launch row `y` runs along launch indices `0 .. launch - 1`, of which those from `w` on do nothing. */
  method VerticalColumns(dst: array<real>, s: Siting, src: seq<real>, w: int, h: int, y: int, launch: int,
                         ghost rows: seq<seq<real>>, ghost r0: seq<real>, ghost r1: seq<real>)
    requires IsPlane(src, w, h) && -Shift(s) <= y < h && launch >= w
    requires RowStart(w, ItemHi(s, 2, h, y)) <= dst.Length
    requires VRowsAre(rows, s, src, w, h) && 0 <= ItemLo(s, 2, h, y) < |rows|
    requires r0 == rows[ItemLo(s, 2, h, y)]
    requires r1 == if ItemHi(s, 2, h, y) == ItemLo(s, 2, h, y) + 2 then rows[ItemLo(s, 2, h, y) + 1] else []
    modifies dst
    ensures ColumnsDone(dst[..], old(dst[..]), RowStart(w, ItemLo(s, 2, h, y)), w, r0, r1, w)
  {
    VItemRows(s, h, y);
    var gx := 0;
    while gx < launch
      invariant 0 <= gx <= launch
      invariant ColumnsDone(dst[..], old(dst[..]), RowStart(w, ItemLo(s, 2, h, y)), w, r0, r1, Min(gx, w))
    {
      if gx < w {
        VerticalLaunch(dst, s, src, w, h, gx, y, old(dst[..]), rows, r0, r1);
      }
      gx := gx + 1;
    }
  }

  /** The rows of one launch row follow the rows before it. */
  lemma StackNext(rows: seq<seq<real>>, lo: nat, hi: nat)
    requires lo < hi <= lo + 2 && hi <= |rows|
    ensures Stack(rows, hi) == Stack(rows, lo) + (rows[lo] + if hi == lo + 2 then rows[lo + 1] else [])
  {
    assert Stack(rows, lo + 1) == Stack(rows, lo) + rows[lo];
  }

  /**
   * Launch row `gy` runs item row `y = gy - Shift(s)` when it is a row of
   * the plane, appending the output rows of that item row.
   */
  method VerticalPassRow(dst: array<real>, s: Siting, src: seq<real>, w: int, h: int, gy: nat, launch: int,
                         ghost d0: seq<real>, ghost rows: seq<seq<real>>)
    requires IsPlane(src, w, h) && launch >= w
    requires RowStart(w, 2 * h) <= dst.Length
    requires VRowsAre(rows, s, src, w, h) && 0 <= Filled(s, 2, h, gy) <= 2 * h
    requires Overwritten(dst[..], d0, 0, Stack(rows, Filled(s, 2, h, gy)))
    modifies dst
    ensures 0 <= Filled(s, 2, h, gy + 1) <= 2 * h
    ensures Overwritten(dst[..], d0, 0, Stack(rows, Filled(s, 2, h, gy + 1)))
  {
    var y := gy - Shift(s);
    FilledStep(s, 2, h, gy, gy + 1, y);
    if y < h {
      VItemRows(s, h, y);
      var lo: nat := ItemLo(s, 2, h, y);
      var hi: nat := ItemHi(s, 2, h, y);
      RowStartMono(w, hi, 2 * h);
      StackLength(rows, w, lo);
      ghost var r0 := rows[lo];
      ghost var r1 := if hi == lo + 2 then rows[lo + 1] else [];
      ghost var before := dst[..];
      VerticalColumns(dst, s, src, w, h, y, launch, rows, r0, r1);
      ColumnsDoneAll(dst[..], before, RowStart(w, lo), w, r0, r1);
      OverwrittenJoin(dst[..], before, d0, 0, Stack(rows, lo), RowStart(w, lo), r0 + r1);
      StackNext(rows, lo, hi);
    }
  }

  /** Launch rows `0 .. launch - 1`, in order: together they write all `2 h` rows. */
  method VerticalLaunchRows(dst: array<real>, s: Siting, src: seq<real>, w: int, h: int, launchX: int, launchY: int,
                            ghost rows: seq<seq<real>>)
    requires IsPlane(src, w, h) && launchX >= w && launchY >= h + Shift(s)
    requires RowStart(w, 2 * h) <= dst.Length && VRowsAre(rows, s, src, w, h)
    modifies dst
    ensures Overwritten(dst[..], old(dst[..]), 0, Stack(rows, 2 * h))
  {
    var gy: nat := 0;
    FilledEnds(s, 2, h, h + Shift(s));
    while gy < launchY
      invariant 0 <= gy <= launchY && 0 <= Filled(s, 2, h, gy) <= 2 * h
      invariant Overwritten(dst[..], old(dst[..]), 0, Stack(rows, Filled(s, 2, h, gy)))
    {
      VerticalPassRow(dst, s, src, w, h, gy, launchX, old(dst[..]), rows);
      gy := gy + 1;
    }
    FilledEnds(s, 2, h, gy);
  }

  /**
   * The vertical launch over a whole plane: launch rows `0 .. launchY - 1`
   * run item row `gy - Shift(s)`, of which rows from `h` on do nothing.
   * The first `2 h w` samples of `dst` end up holding the upscaled plane
   * and the rest is untouched.
   */
  method VerticalPass(dst: array<real>, s: Siting, src: seq<real>, w: int, h: int, launchX: int, launchY: int)
    requires IsPlane(src, w, h) && launchX >= w && launchY >= h + Shift(s)
    requires RowStart(w, 2 * h) <= dst.Length
    modifies dst
    ensures Overwritten(dst[..], old(dst[..]), 0, VPlane(s, src, w, h))
  {
    VRowsAreVRows(s, src, w, h);
    VerticalLaunchRows(dst, s, src, w, h, launchX, launchY, VRows(s, src, w, h));
  }

  /* ---------------------------------------------------------------------- */
  /* What the upscaled planes promise                                        */
  /* ---------------------------------------------------------------------- */

  /** A co-sited (left) horizontal upscale keeps every chroma sample: sample `x` of row `y` lands on position `f x`. */
  lemma HPlaneKeepsSamples(f: int, src: seq<real>, w: int, h: int, y: nat, x: int)
    requires IsPlane(src, w, h) && IsFactor(f) && y < h && 0 <= x < w
    ensures 0 <= RowStart(Times(f, w), y) + Times(f, x) < |HPlane(CoSited, f, src, w, h)|
    ensures 0 <= y * w + x < |src|
    ensures HPlane(CoSited, f, src, w, h)[RowStart(Times(f, w), y) + Times(f, x)] == src[y * w + x]
  {
    HPlaneAt(CoSited, f, src, w, h, y, Times(f, x));
    SlotOf(CoSited, f, x, 0);
    PixelInside(src, w, h, x, y);
  }

  /** A co-sited (top) vertical upscale keeps every chroma sample: row `y` lands on row `2 y`. */
  lemma VPlaneKeepsSamples(src: seq<real>, w: int, h: int, y: nat, x: int)
    requires IsPlane(src, w, h) && y < h && 0 <= x < w
    ensures 0 <= RowStart(w, 2 * y) + x < |VPlane(CoSited, src, w, h)|
    ensures 0 <= y * w + x < |src|
    ensures VPlane(CoSited, src, w, h)[RowStart(w, 2 * y) + x] == src[y * w + x]
  {
    VPlaneAt(CoSited, src, w, h, 2 * y, x);
    SlotOf(CoSited, 2, y, 0);
    PixelInside(src, w, h, x, y);
  }

  /** A plane whose samples are all `c`. */
  predicate Flat(src: seq<real>, c: real)
  {
    forall k :: 0 <= k < |src| ==> src[k] == c
  }

  /** Over a flat plane every fetch, and so every spline, is flat. */
  lemma FlatFetches(src: seq<real>, w: int, h: int, c: real, x: int, y: int)
    requires IsPlane(src, w, h) && Flat(src, c)
    ensures Pixel(src, w, h, x, y) == c
    ensures HorizontalInterpolator(src, w, h, x, y) == MakeHermite(c, (c - c) / 2.0, c, (c - c) / 2.0)
    ensures VerticalInterpolator(src, w, h, x, y) == MakeHermite(c, (c - c) / 2.0, c, (c - c) / 2.0)
  {
    assert Pixel(src, w, h, x - 1, y) == c && Pixel(src, w, h, x + 1, y) == c && Pixel(src, w, h, x + 2, y) == c;
    assert Pixel(src, w, h, x, y - 1) == c && Pixel(src, w, h, x, y + 1) == c && Pixel(src, w, h, x, y + 2) == c;
  }

  /** Every slot of a flat spline through `c` is `c`. */
  lemma FlatSlot(s: Siting, f: int, c: real, j: int)
    requires IsFactor(f) && 0 <= j < f
    ensures SlotValue(s, f, MakeHermite(c, (c - c) / 2.0, c, (c - c) / 2.0), c, j) == c
  {
    SlotValueAtWeight(s, f, MakeHermite(c, (c - c) / 2.0, c, (c - c) / 2.0), c, j);
    FlatSpline(c, Weight(s, f, j));
  }

  /** Over a flat plane every horizontally upscaled sample is `c`. */
  lemma HValueFlat(s: Siting, f: int, src: seq<real>, w: int, h: int, c: real, y: int, p: int)
    requires IsPlane(src, w, h) && IsFactor(f) && Flat(src, c)
    ensures HValue(s, f, src, w, h, y, p) == c
  {
    FlatFetches(src, w, h, c, SlotItem(s, f, p), y);
    FlatSlot(s, f, c, SlotIndex(s, f, p));
  }

  /** Over a flat plane every vertically upscaled sample is `c`. */
  lemma VValueFlat(s: Siting, src: seq<real>, w: int, h: int, c: real, x: int, r: int)
    requires IsPlane(src, w, h) && Flat(src, c)
    ensures VValue(s, src, w, h, x, r) == c
  {
    FlatFetches(src, w, h, c, x, SlotItem(s, 2, r));
    FlatSlot(s, 2, c, SlotIndex(s, 2, r));
  }

  /** Upscaling a flat plane horizontally gives a flat plane of the same value. */
  lemma HPlaneFlat(s: Siting, f: int, src: seq<real>, w: int, h: int, c: real)
    requires IsPlane(src, w, h) && IsFactor(f) && Flat(src, c)
    ensures Flat(HPlane(s, f, src, w, h), c)
  {
    var plane := HPlane(s, f, src, w, h);
    forall k | 0 <= k < |plane|
      ensures plane[k] == c
    {
      HPlaneAt(s, f, src, w, h, 0, 0);
      var y, p := RowOf(Times(f, w), h, k);
      HPlaneAt(s, f, src, w, h, y, p);
      HValueFlat(s, f, src, w, h, c, y, p);
    }
  }

  /** Upscaling a flat plane vertically gives a flat plane of the same value. */
  lemma VPlaneFlat(s: Siting, src: seq<real>, w: int, h: int, c: real)
    requires IsPlane(src, w, h) && Flat(src, c)
    ensures Flat(VPlane(s, src, w, h), c)
  {
    var plane := VPlane(s, src, w, h);
    forall k | 0 <= k < |plane|
      ensures plane[k] == c
    {
      VPlaneAt(s, src, w, h, 0, 0);
      var r, x := RowOf(w, 2 * h, k);
      VPlaneAt(s, src, w, h, r, x);
      VValueFlat(s, src, w, h, c, x, r);
    }
  }

  /** Every index of a plane of `n` rows of width `wd` is `RowStart(wd, y) + p` for a row `y` and a column `p`. */
  lemma {:induction false} RowOf(wd: int, n: nat, k: int) returns (y: nat, p: int)
    requires wd >= 1 && 0 <= k < RowStart(wd, n)
    ensures y < n && 0 <= p < wd && k == RowStart(wd, y) + p
  {
    if k < RowStart(wd, n - 1) {
      y, p := RowOf(wd, n - 1, k);
    } else {
      y, p := n - 1, k - RowStart(wd, n - 1);
    }
  }
}
