/**
 * The separable Gaussian blur of the metric (src/ssimu2/gaussianblur.hpp).
 *
 * The kernel table holds 35 reals: the 17 taps of a Gaussian with sigma 1.5
 * at indices 0..16, then an "integral" table whose entry `e` (index 17 + e)
 * is the sum of the first `e` taps plus whatever index 17 held, since that
 * entry is never written. Differences of integral entries are partial tap
 * sums, which is all the blur uses.
 *
 * One work-group of 16 by 16 work-items blurs a 16 by 16 block of the image
 * through a 32 by 32 tile ("tampon") holding the block and an 8-pixel halo,
 * zero outside the image. The horizontal pass writes the middle 16 columns
 * of the tile, the vertical pass the middle 16 by 16 square. Each output is
 * divided by the sum of the taps whose source pixel lies inside the image.
 *
 * Work-items run one after another; a barrier is the end of one loop over
 * the work-items and the start of the next. `exp` and `sqrt` are supplied by
 * the caller.
 */
module Gaussian {
  import opened Geometry
  import opened Float3

  const GaussianSize: int := 8
  const Sigma: real := 1.5
  const Tau: real := 6.28318530718

  /** 2 * GaussianSize + 1 taps. */
  const Taps: int := 17
  /** The table is 4 * GaussianSize + 3 entries long. */
  const TableLength: int := 35
  /** The integral table starts right after the taps. */
  const IntegralBase: int := 17
  /** Side of the shared tile and of a work-group. */
  const TileSide: int := 32
  const GroupSide: int := 16
  const TileSlots: int := 1024

  /** Tap `i` of the kernel, given `exp` and the normalising constant `norm = sqrt(tau * sigma^2)`. */
  function Tap(i: int, exp: real -> real, norm: real): real
    requires norm != 0.0
  {
    exp(-((GaussianSize - i) * (GaussianSize - i)) as real / (2.0 * Sigma * Sigma)) / norm
  }

  /** The kernel is symmetric about its centre tap. */
  lemma TapSymmetric(i: int, exp: real -> real, norm: real)
    requires norm != 0.0
    ensures Tap(i, exp, norm) == Tap(2 * GaussianSize - i, exp, norm)
  {
    var a := GaussianSize - i;
    assert GaussianSize - (2 * GaussianSize - i) == -a;
    assert (-a) * (-a) == a * a;
  }

  /** Every tap is positive when `exp` is positive and the normalising constant is positive. */
  lemma TapPositive(i: int, exp: real -> real, norm: real)
    requires norm > 0.0 && forall t :: exp(t) > 0.0
    ensures Tap(i, exp, norm) > 0.0
  {
    var e := exp(-((GaussianSize - i) * (GaussianSize - i)) as real / (2.0 * Sigma * Sigma));
    assert e > 0.0;
    assert e / norm > 0.0;
  }

  /** Sum of a sequence of reals, from the first element on. */
  function Sum(s: seq<real>): real
  {
    if |s| == 0 then 0.0 else Sum(s[..|s| - 1]) + s[|s| - 1]
  }

  /** A sum splits at any point. */
  lemma {:induction false} SumSplit(s: seq<real>, b: int)
    requires 0 <= b <= |s|
    ensures Sum(s) == Sum(s[..b]) + Sum(s[b..])
  {
    if b == |s| {
      assert s[..b] == s;
      assert s[b..] == [];
    } else {
      var n := |s|;
      SumSplit(s[..n - 1], b);
      assert s[..n - 1][..b] == s[..b];
      assert s[..n - 1][b..] == s[b..n - 1];
      assert s[b..][..|s[b..]| - 1] == s[b..n - 1];
    }
  }

  /** A non-empty sum of positive reals is positive. */
  lemma {:induction false} SumPositive(s: seq<real>)
    requires |s| >= 1 && forall i :: 0 <= i < |s| ==> s[i] > 0.0
    ensures Sum(s) > 0.0
  {
    if |s| > 1 {
      SumPositive(s[..|s| - 1]);
    }
  }

  /**
   * The shape `init` leaves the table in: 35 entries, and integral entry
   * `e` equal to entry 17 (never written) plus the first `e` taps.
   */
  predicate IsTable(g: seq<real>)
  {
    |g| == TableLength &&
    forall e :: 0 <= e <= Taps ==> g[IntegralBase + e] == g[IntegralBase] + Sum(g[..e])
  }

  predicate TapsPositive(g: seq<real>)
    requires |g| >= Taps
  {
    forall i :: 0 <= i < Taps ==> g[i] > 0.0
  }

  /**
   * `GaussianHandle::init`: taps 0..16 from `exp` and `sqrt`, and entry
   * 18 + i as entry 17 + i plus tap i. Entry 17 is left as it was.
   */
  method Init(g: array<real>, exp: real -> real, sqrt: real -> real)
    requires g.Length == TableLength
    requires sqrt(Tau * Sigma * Sigma) != 0.0
    modifies g
    ensures forall i :: 0 <= i < Taps ==> g[i] == Tap(i, exp, sqrt(Tau * Sigma * Sigma))
    ensures g[IntegralBase] == old(g[IntegralBase])
    ensures IsTable(g[..])
  {
    var norm := sqrt(Tau * Sigma * Sigma);
    var i := 0;
    while i < 2 * GaussianSize + 1
      invariant 0 <= i <= Taps
      invariant forall j :: 0 <= j < i ==> g[j] == Tap(j, exp, norm)
      invariant g[IntegralBase] == old(g[IntegralBase])
      invariant forall e :: 0 <= e <= i ==> g[IntegralBase + e] == g[IntegralBase] + Sum(g[..e])
    {
      g[i] := Tap(i, exp, norm);
      g[2 * GaussianSize + 2 + i] := g[2 * GaussianSize + 1 + i] + g[i];
      assert g[..i + 1][..i] == g[..i];
      i := i + 1;
    }
    assert forall e :: 0 <= e <= Taps ==> g[..][..e] == g[..e];
  }

  /**
   * `init` as evidently intended: entry 17 is zeroed before the loop, so
   * integral entry `e` is exactly the sum of the first `e` taps.
   */
  method InitIntegral(g: array<real>, exp: real -> real, sqrt: real -> real)
    requires g.Length == TableLength
    requires sqrt(Tau * Sigma * Sigma) != 0.0
    modifies g
    ensures forall i :: 0 <= i < Taps ==> g[i] == Tap(i, exp, sqrt(Tau * Sigma * Sigma))
    ensures forall e :: 0 <= e <= Taps ==> g[IntegralBase + e] == Sum(g[..e])
    ensures IsTable(g[..])
  {
    g[IntegralBase] := 0.0;
    Init(g, exp, sqrt);
  }

  /**
   * The integral entries of a table in the shape `init` leaves are the
   * prefix sums of the taps exactly when the never-written entry 17
   * happens to hold 0.
   */
  lemma IntegralIsPrefixSumIff(g: seq<real>)
    requires IsTable(g)
    ensures (forall e :: 0 <= e <= Taps ==> g[IntegralBase + e] == Sum(g[..e])) <==> g[IntegralBase] == 0.0
  {
    if forall e :: 0 <= e <= Taps ==> g[IntegralBase + e] == Sum(g[..e]) {
      assert g[IntegralBase + 0] == Sum(g[..0]);
    }
  }

  /**
   * Inside the image the renormalising total does not depend on entry 17:
   * two tables with the same taps give the same `tot`, whatever their
   * bases hold, because the base cancels exactly in real arithmetic.
   */
  lemma TotIgnoresBase(g: seq<real>, g': seq<real>, n: int, p: int)
    requires IsTable(g) && IsTable(g') && g[..Taps] == g'[..Taps] && 0 <= p < n
    ensures Tot(g, n, p) == Tot(g', n, p)
  {
    var b, e := Beg(p), End(n, p);
    BegEndBounds(n, p);
    IntegralDifference(g, b, e);
    IntegralDifference(g', b, e);
    assert forall k :: b <= k < e ==> g[k] == g[..Taps][k] == g'[..Taps][k] == g'[k];
    assert g[b..e] == g'[b..e];
  }

  /** With `exp` and the constant positive, the table built by `init` has positive taps. */
  lemma InitTapsPositive(g: seq<real>, exp: real -> real, norm: real)
    requires |g| >= Taps && norm > 0.0 && forall t :: exp(t) > 0.0
    requires forall i :: 0 <= i < Taps ==> g[i] == Tap(i, exp, norm)
    ensures TapsPositive(g)
  {
    forall i | 0 <= i < Taps
      ensures g[i] > 0.0
    {
      TapPositive(i, exp, norm);
    }
  }

  /**
   * `integral[e] - integral[b]` is the sum of taps `b..e-1`; the unwritten
   * entry 17 cancels out.
   */
  lemma IntegralDifference(g: seq<real>, b: int, e: int)
    requires IsTable(g) && 0 <= b <= e <= Taps
    ensures g[IntegralBase + e] - g[IntegralBase + b] == Sum(g[b..e])
  {
    SumSplit(g[..e], b);
    assert g[..e][..b] == g[..b];
    assert g[..e][b..] == g[b..e];
  }

  /** First tap whose source position `p - 8 + i` is not below zero: `max(0, p - 8) - (p - 8)`. */
  function Beg(p: int): int { Max(0, p - GaussianSize) - (p - GaussianSize) }

  /** One past the last tap whose source position lies below `n`: `min(n, p + 9) - (p - 8)`. */
  function End(n: int, p: int): int { Min(n, p + GaussianSize + 1) - (p - GaussianSize) }

  /** For a position inside the image, the centre tap is among the taps `Beg..End-1`, which all lie in the table. */
  lemma BegEndBounds(n: int, p: int)
    requires 0 <= p < n
    ensures 0 <= Beg(p) <= GaussianSize < GaussianSize + 1 <= End(n, p) <= Taps
  {}

  /** Tap `i` lies in `Beg..End-1` exactly when its source position `p - 8 + i` is inside the image. */
  lemma TapInside(n: int, p: int, i: int)
    requires 0 <= p < n && 0 <= i < Taps
    ensures Beg(p) <= i < End(n, p) <==> 0 <= p - GaussianSize + i < n
  {}

  /**
   * The renormalising total `integral[end2] - integral[beg]` for position
   * `p` along a dimension of `n` pixels. Positions up to 25 past the edge
   * still read inside the table (at taps, not integral entries).
   */
  function Tot(g: seq<real>, n: int, p: int): real
    requires |g| == TableLength && 0 <= p <= n + 25
  {
    g[IntegralBase + End(n, p)] - g[IntegralBase + Beg(p)]
  }

  /** Inside the image the total is the positive sum of the taps that land inside. */
  lemma TotInside(g: seq<real>, n: int, p: int)
    requires IsTable(g) && TapsPositive(g) && 0 <= p < n
    ensures Tot(g, n, p) == Sum(g[Beg(p)..End(n, p)])
    ensures Tot(g, n, p) > 0.0
  {
    BegEndBounds(n, p);
    IntegralDifference(g, Beg(p), End(n, p));
    SumPositive(g[Beg(p)..End(n, p)]);
  }

  /** `a / t` lane by lane; a zero total (reached only outside the image) gives zero. */
  function Quot(a: F3, t: real): F3
  {
    if t == 0.0 then Zero else F3(a.x / t, a.y / t, a.z / t)
  }

  lemma QuotScale(c: F3, t: real)
    requires t != 0.0
    ensures Quot(Scale(c, t), t) == c
  {
    assert (c.x * t) / t == c.x;
    assert (c.y * t) / t == c.y;
    assert (c.z * t) / t == c.z;
  }

  /** `sum_i vs[i] * ts[i]`, accumulated from the first term on. */
  function Conv(vs: seq<F3>, ts: seq<real>): F3
    requires |vs| == |ts|
  {
    if |vs| == 0 then Zero
    else Add(Conv(vs[..|vs| - 1], ts[..|ts| - 1]), Scale(vs[|vs| - 1], ts[|ts| - 1]))
  }

  lemma ScaleAdd(c: F3, s: real, t: real)
    ensures Add(Scale(c, s), Scale(c, t)) == Scale(c, s + t)
  {
    assert c.x * s + c.x * t == c.x * (s + t);
    assert c.y * s + c.y * t == c.y * (s + t);
    assert c.z * s + c.z * t == c.z * (s + t);
  }

  /** Convolving an all-zero window gives zero. */
  lemma {:induction false} ConvZero(vs: seq<F3>, ts: seq<real>)
    requires |vs| == |ts|
    requires forall i :: 0 <= i < |vs| ==> vs[i] == Zero
    ensures Conv(vs, ts) == Zero
  {
    if |vs| > 0 {
      ConvZero(vs[..|vs| - 1], ts[..|ts| - 1]);
    }
  }

  /**
   * Convolving a window that is `c` on positions `b..e-1` and zero elsewhere
   * gives `c` times the sum of the taps at those positions.
   */
  lemma {:induction false} ConvMasked(vs: seq<F3>, ts: seq<real>, c: F3, b: int, e: int)
    requires |vs| == |ts| && 0 <= b <= e <= |vs|
    requires forall i :: 0 <= i < |vs| ==> vs[i] == (if b <= i < e then c else Zero)
    ensures Conv(vs, ts) == Scale(c, Sum(ts[b..e]))
    decreases |vs|, 1
  {
    if b == e {
      ConvZero(vs, ts);
      assert ts[b..e] == [];
      assert Scale(c, 0.0) == Zero;
    } else if e < |vs| {
      ConvMaskedZeroLast(vs, ts, c, b, e);
    } else {
      ConvMaskedLast(vs, ts, c, b);
      assert ts[b..e] == ts[b..];
    }
  }

  /** The step of `ConvMasked` when the last position is outside the mask. */
  lemma {:induction false} ConvMaskedZeroLast(vs: seq<F3>, ts: seq<real>, c: F3, b: int, e: int)
    requires |vs| == |ts| && 0 <= b <= e < |vs|
    requires forall i :: 0 <= i < |vs| ==> vs[i] == (if b <= i < e then c else Zero)
    ensures Conv(vs, ts) == Scale(c, Sum(ts[b..e]))
    decreases |vs|, 0
  {
    var n := |vs|;
    var ps, pt := vs[..n - 1], ts[..n - 1];
    forall i | 0 <= i < |ps|
      ensures ps[i] == (if b <= i < e then c else Zero)
    {
      assert ps[i] == vs[i];
    }
    ConvMasked(ps, pt, c, b, e);
    assert pt[b..e] == ts[b..e];
    ConvZeroLast(vs, ts);
  }

  /** A zero last position adds nothing to the convolution. */
  lemma ConvZeroLast(vs: seq<F3>, ts: seq<real>)
    requires |vs| == |ts| > 0 && vs[|vs| - 1] == Zero
    ensures Conv(vs, ts) == Conv(vs[..|vs| - 1], ts[..|ts| - 1])
  {
    assert Scale(vs[|vs| - 1], ts[|ts| - 1]) == Zero;
  }

  /** The step of `ConvMasked` when the mask runs to the last position. */
  lemma {:induction false} ConvMaskedLast(vs: seq<F3>, ts: seq<real>, c: F3, b: int)
    requires |vs| == |ts| && 0 <= b < |vs|
    requires forall i :: 0 <= i < |vs| ==> vs[i] == (if b <= i then c else Zero)
    ensures Conv(vs, ts) == Scale(c, Sum(ts[b..]))
    decreases |vs|, 0
  {
    var n := |vs|;
    ConvMasked(vs[..n - 1], ts[..n - 1], c, b, n - 1);
    assert ts[..n - 1][b..n - 1] == ts[b..n - 1];
    assert ts[b..][..n - 1 - b] == ts[b..n - 1];
    ScaleAdd(c, Sum(ts[b..n - 1]), ts[n - 1]);
  }

  /** Pixel (r, c) of a row-major `w` by `h` image, or zero outside it. */
  function Fetch(src: seq<F3>, w: int, h: int, r: int, c: int): F3
    requires |src| == w * h
  {
    if 0 <= r < h && 0 <= c < w then RowMajorBound(r, c, w, h); src[r * w + c] else Zero
  }

  /** The 17 image pixels of row `row` centred on column `x`. */
  function ImageRowWindow(src: seq<F3>, w: int, h: int, row: int, x: int): seq<F3>
    requires |src| == w * h
  {
    seq(Taps, i => Fetch(src, w, h, row, x - GaussianSize + i))
  }

  /** The horizontally blurred image at (row, x): zero for a row outside the image. */
  function HBlurAt(src: seq<F3>, w: int, h: int, g: seq<real>, row: int, x: int): F3
    requires |src| == w * h && |g| == TableLength && 0 <= x < w
  {
    Quot(Conv(ImageRowWindow(src, w, h, row, x), g[..Taps]), Tot(g, w, x))
  }

  /** The 17 horizontally blurred pixels of column `x` centred on row `y`. */
  function ImageColWindow(src: seq<F3>, w: int, h: int, g: seq<real>, x: int, y: int): seq<F3>
    requires |src| == w * h && |g| == TableLength && 0 <= x < w
  {
    seq(Taps, i => HBlurAt(src, w, h, g, y - GaussianSize + i, x))
  }

  /**
   * The blurred image at pixel (x, y): the vertical pass over the
   * horizontally blurred rows, each pass divided by its own total.
   */
  function BlurAt(src: seq<F3>, w: int, h: int, g: seq<real>, x: int, y: int): F3
    requires |src| == w * h && |g| == TableLength && 0 <= x < w && 0 <= y < h
  {
    Quot(Conv(ImageColWindow(src, w, h, g, x, y), g[..Taps]), Tot(g, h, y))
  }

  /** On a constant image the horizontal blur of an in-image row is the constant, of a row outside it zero. */
  lemma HBlurConstant(src: seq<F3>, w: int, h: int, g: seq<real>, c: F3, row: int, x: int)
    requires |src| == w * h && IsTable(g) && TapsPositive(g) && 0 <= x < w
    requires forall i :: 0 <= i < |src| ==> src[i] == c
    ensures HBlurAt(src, w, h, g, row, x) == if 0 <= row < h then c else Zero
  {
    var rc := if 0 <= row < h then c else Zero;
    var win := ImageRowWindow(src, w, h, row, x);
    forall j | 0 <= j < Taps
      ensures win[j] == (if Beg(x) <= j < End(w, x) then rc else Zero)
    {
      TapInside(w, x, j);
      var col := x - GaussianSize + j;
      assert win[j] == Fetch(src, w, h, row, col);
      if 0 <= row < h && 0 <= col < w {
        RowMajorBound(row, col, w, h);
        assert src[row * w + col] == c;
      }
    }
    MaskedQuot(win, g, rc, w, x);
  }

  /**
   * A window that is `c` exactly on the taps landing inside a dimension of
   * `n` pixels, convolved and divided by the total, gives back `c`.
   */
  lemma MaskedQuot(win: seq<F3>, g: seq<real>, c: F3, n: int, p: int)
    requires IsTable(g) && TapsPositive(g) && 0 <= p < n && |win| == Taps
    requires forall j :: 0 <= j < Taps ==> win[j] == (if Beg(p) <= j < End(n, p) then c else Zero)
    ensures Quot(Conv(win, g[..Taps]), Tot(g, n, p)) == c
  {
    TotInside(g, n, p);
    BegEndBounds(n, p);
    assert g[..Taps][Beg(p)..End(n, p)] == g[Beg(p)..End(n, p)];
    ConvMasked(win, g[..Taps], c, Beg(p), End(n, p));
    QuotScale(c, Tot(g, n, p));
  }

  /**
   * Blurring a constant image gives back the constant at every pixel,
   * borders included: the renormalisation divides by exactly the taps that
   * saw image pixels.
   */
  lemma BlurConstant(src: seq<F3>, w: int, h: int, g: seq<real>, c: F3, x: int, y: int)
    requires |src| == w * h && IsTable(g) && TapsPositive(g)
    requires 0 <= x < w && 0 <= y < h
    requires forall i :: 0 <= i < |src| ==> src[i] == c
    ensures BlurAt(src, w, h, g, x, y) == c
  {
    var col := ImageColWindow(src, w, h, g, x, y);
    forall i | 0 <= i < Taps
      ensures col[i] == (if Beg(y) <= i < End(h, y) then c else Zero)
    {
      TapInside(h, y, i);
      HBlurConstant(src, w, h, g, c, y - GaussianSize + i, x);
    }
    MaskedQuot(col, g, c, h, y);
  }

  /** Index of tile slot (row `r`, column `c`). */
  function Slot(r: int, c: int): int { r * TileSide + c }

  /** Slot (r, c + 8): the middle band the horizontal pass writes. */
  function Band(r: int, c: int): int { Slot(r, c + GaussianSize) }

  /** Slot (r + 8, c + 8): where work-item (r, c) finds its blurred pixel. */
  function Centre(r: int, c: int): int { Slot(r + GaussianSize, c + GaussianSize) }

  /** Linear id of work-item (thy, thx) within its 16 by 16 group. */
  function Thread(thy: int, thx: int): int { thy * GroupSide + thx }

  /** The tile holds the 32 by 32 window of `src` whose corner is 8 pixels above and left of (x0, y0), zero outside the image. */
  predicate TileHolds(t: seq<F3>, src: seq<F3>, w: int, h: int, x0: int, y0: int)
    requires |t| >= TileSlots && |src| == w * h
  {
    forall r, c :: 0 <= r < TileSide && 0 <= c < TileSide ==>
      t[Slot(r, c)] == Fetch(src, w, h, y0 - GaussianSize + r, x0 - GaussianSize + c)
  }

  /**
   * One work-item of `GaussianSmartSharedLoad`, at (x0 + thx, y0 + thy):
   * with `baseX = x - thx - 8` and `baseY = y - thy - 8`, it fills tile slots
   * (thy, thx), (thy + 16, thx), (thy, thx + 16) and (thy + 16, thx + 16)
   * with the matching pixels, or zero outside the image.
   */
  method LoadWorkItem(tampon: array<F3>, src: seq<F3>, w: int, h: int, x0: int, y0: int, thx: int, thy: int)
    requires tampon.Length >= TileSlots && |src| == w * h
    requires 0 <= thx < GroupSide && 0 <= thy < GroupSide
    modifies tampon
    ensures tampon[Slot(thy, thx)] == Fetch(src, w, h, y0 - GaussianSize + thy, x0 - GaussianSize + thx)
    ensures tampon[Slot(thy + 16, thx)] == Fetch(src, w, h, y0 - GaussianSize + (thy + 16), x0 - GaussianSize + thx)
    ensures tampon[Slot(thy, thx + 16)] == Fetch(src, w, h, y0 - GaussianSize + thy, x0 - GaussianSize + (thx + 16))
    ensures tampon[Slot(thy + 16, thx + 16)] == Fetch(src, w, h, y0 - GaussianSize + (thy + 16), x0 - GaussianSize + (thx + 16))
    ensures forall k :: (0 <= k < tampon.Length && k != Slot(thy, thx) && k != Slot(thy + 16, thx) &&
                         k != Slot(thy, thx + 16) && k != Slot(thy + 16, thx + 16)) ==> tampon[k] == old(tampon[k])
  {
    var x, y := x0 + thx, y0 + thy;
    var baseX := x - thx - 8;
    var baseY := y - thy - 8;
    tampon[Slot(thy, thx)] := Fetch(src, w, h, baseY + thy, baseX + thx);
    tampon[Slot(thy + 16, thx)] := Fetch(src, w, h, baseY + thy + 16, baseX + thx);
    tampon[Slot(thy, thx + 16)] := Fetch(src, w, h, baseY + thy, baseX + thx + 16);
    tampon[Slot(thy + 16, thx + 16)] := Fetch(src, w, h, baseY + thy + 16, baseX + thx + 16);
  }

  /** Tile row `r` holds image row `y0 - 8 + r`, columns `x0 - 8` to `x0 + 23`, zero outside the image. */
  predicate RowHolds(t: seq<F3>, src: seq<F3>, w: int, h: int, x0: int, y0: int, r: int)
    requires |t| >= TileSlots && |src| == w * h && 0 <= r < TileSide
  {
    forall c :: 0 <= c < TileSide ==> t[Slot(r, c)] == Fetch(src, w, h, y0 - GaussianSize + r, x0 - GaussianSize + c)
  }

  /** The work-items of row `thy` of the group fill tile rows `thy` and `thy + 16`, and no other row. */
  method LoadRowPair(tampon: array<F3>, src: seq<F3>, w: int, h: int, x0: int, y0: int, thy: int)
    requires tampon.Length >= TileSlots && |src| == w * h && 0 <= thy < GroupSide
    modifies tampon
    ensures RowHolds(tampon[..], src, w, h, x0, y0, thy)
    ensures RowHolds(tampon[..], src, w, h, x0, y0, thy + 16)
    ensures forall k :: (0 <= k < tampon.Length && !(Slot(thy, 0) <= k < Slot(thy + 1, 0)) &&
                         !(Slot(thy + 16, 0) <= k < Slot(thy + 17, 0))) ==> tampon[k] == old(tampon[k])
  {
    ghost var lower := thy + 16;
    for thx := 0 to GroupSide
      invariant forall c :: 0 <= c < TileSide && (c < thx || 16 <= c < 16 + thx) ==>
                  tampon[Slot(thy, c)] == Fetch(src, w, h, y0 - GaussianSize + thy, x0 - GaussianSize + c)
      invariant forall c :: 0 <= c < TileSide && (c < thx || 16 <= c < 16 + thx) ==>
                  tampon[Slot(lower, c)] == Fetch(src, w, h, y0 - GaussianSize + lower, x0 - GaussianSize + c)
      invariant forall k :: (0 <= k < tampon.Length && !(Slot(thy, 0) <= k < Slot(thy + 1, 0)) &&
                             !(Slot(thy + 16, 0) <= k < Slot(thy + 17, 0))) ==> tampon[k] == old(tampon[k])
    {
      LoadWorkItem(tampon, src, w, h, x0, y0, thx, thy);
    }
  }

  /**
   * `GaussianSmartSharedLoad` for the work-group whose first work-item is
   * at (x0, y0): the four writes of the 256 work-items cover the whole tile,
   * which afterwards holds the haloed window of `src`.
   */
  method SharedLoad(tampon: array<F3>, src: seq<F3>, w: int, h: int, x0: int, y0: int)
    requires tampon.Length >= TileSlots && |src| == w * h
    modifies tampon
    ensures TileHolds(tampon[..], src, w, h, x0, y0)
    ensures forall k :: TileSlots <= k < tampon.Length ==> tampon[k] == old(tampon[k])
  {
    for thy := 0 to GroupSide
      invariant forall r :: 0 <= r < TileSide && (r < thy || 16 <= r < 16 + thy) ==> RowHolds(tampon[..], src, w, h, x0, y0, r)
      invariant forall k :: TileSlots <= k < tampon.Length ==> tampon[k] == old(tampon[k])
    {
      ghost var before := tampon[..];
      LoadRowPair(tampon, src, w, h, x0, y0, thy);
      forall r | 0 <= r < TileSide && (r < thy || 16 <= r < 16 + thy)
        ensures RowHolds(tampon[..], src, w, h, x0, y0, r)
      {
        assert RowHolds(before, src, w, h, x0, y0, r);
        forall c | 0 <= c < TileSide
          ensures tampon[Slot(r, c)] == before[Slot(r, c)]
        {}
      }
    }
    forall r, c | 0 <= r < TileSide && 0 <= c < TileSide
      ensures tampon[..][Slot(r, c)] == Fetch(src, w, h, y0 - GaussianSize + r, x0 - GaussianSize + c)
    {
      assert RowHolds(tampon[..], src, w, h, x0, y0, r);
    }
  }

  /** The image whose pixels are the lane-wise products of `a` and `b`. */
  function Product(a: seq<F3>, b: seq<F3>): seq<F3>
    requires |a| == |b|
  {
    seq(|a|, i requires 0 <= i < |a| => Mul(a[i], b[i]))
  }

  /** Inside the image the product tile holds `src1 * src2`, outside it zero. */
  lemma FetchProduct(a: seq<F3>, b: seq<F3>, w: int, h: int, r: int, c: int)
    requires |a| == w * h && |b| == w * h
    ensures Fetch(Product(a, b), w, h, r, c) == if 0 <= r < h && 0 <= c < w then Mul(Fetch(a, w, h, r, c), Fetch(b, w, h, r, c)) else Zero
  {
    if 0 <= r < h && 0 <= c < w {
      RowMajorBound(r, c, w, h);
    }
  }

  /**
   * `GaussianSmartSharedLoadProduct`: the same tile fill, each in-image
   * slot holding the product of the two images' pixels.
   */
  method SharedLoadProduct(tampon: array<F3>, src1: seq<F3>, src2: seq<F3>, w: int, h: int, x0: int, y0: int)
    requires tampon.Length >= TileSlots && |src1| == w * h && |src2| == w * h
    modifies tampon
    ensures TileHolds(tampon[..], Product(src1, src2), w, h, x0, y0)
    ensures forall k :: TileSlots <= k < tampon.Length ==> tampon[k] == old(tampon[k])
  {
    SharedLoad(tampon, Product(src1, src2), w, h, x0, y0);
  }

  /** The 17 tile slots of row `r` starting at column `c`. */
  function RowWindow(t: seq<F3>, r: int, c: int): seq<F3>
    requires |t| >= TileSlots && 0 <= r < TileSide && 0 <= c && c + Taps <= TileSide
  {
    seq(Taps, i requires 0 <= i < Taps => t[Slot(r, c + i)])
  }

  /** The 17 tile slots of column `c` starting at row `r`. */
  function ColWindow(t: seq<F3>, r: int, c: int): seq<F3>
    requires |t| >= TileSlots && 0 <= r && r + Taps <= TileSide && 0 <= c < TileSide
  {
    seq(Taps, i requires 0 <= i < Taps => t[Slot(r + i, c)])
  }

  /** Prefix of a convolution: one more term. */
  lemma ConvStep(vs: seq<F3>, ts: seq<real>, i: int)
    requires |vs| == |ts| && 0 <= i < |vs|
    ensures Conv(vs[..i + 1], ts[..i + 1]) == Add(Conv(vs[..i], ts[..i]), Scale(vs[i], ts[i]))
  {
    assert vs[..i + 1][..i] == vs[..i];
    assert ts[..i + 1][..i] == ts[..i];
  }

  /**
   * The horizontal sums of one work-item of `GaussianSmart_Device`: rows
   * `thy` and `thy + 16` of the tile, columns `thx..thx+16`, weighted by the
   * taps, starting from tap 0.
   */
  method HorizontalWorkItem(tampon: seq<F3>, g: seq<real>, w: int, x0: int, thy: int, thx: int) returns (out: F3, out2: F3, tot: real)
    requires |tampon| >= TileSlots && |g| == TableLength && 0 <= x0 < w
    requires 0 <= thy < GroupSide && 0 <= thx < GroupSide
    ensures out == Conv(RowWindow(tampon, thy, thx), g[..Taps])
    ensures out2 == Conv(RowWindow(tampon, Lower(thy), thx), g[..Taps])
    ensures tot == Tot(g, w, x0 + thx)
  {
    var x := x0 + thx;
    var beg := Max(0, x - 8) - (x - 8);
    var end2 := Min(w, x + 9) - (x - 8);
    tot := g[IntegralBase + end2] - g[IntegralBase + beg];
    ghost var ws := RowWindow(tampon, thy, thx);
    ghost var ws2 := RowWindow(tampon, thy + 16, thx);
    ghost var ts := g[..Taps];
    out := Scale(tampon[Slot(thy, thx)], g[0]);
    out2 := Scale(tampon[Slot(thy + 16, thx)], g[0]);
    ConvStep(ws, ts, 0);
    ConvStep(ws2, ts, 0);
    for i := 1 to Taps
      invariant out == Conv(ws[..i], ts[..i])
      invariant out2 == Conv(ws2[..i], ts[..i])
    {
      ConvStep(ws, ts, i);
      ConvStep(ws2, ts, i);
      assert ws[i] == tampon[Slot(thy, thx + i)] && ws2[i] == tampon[Slot(thy + 16, thx + i)] && ts[i] == g[i];
      out := Add(out, Scale(tampon[Slot(thy, thx + i)], g[i]));
      out2 := Add(out2, Scale(tampon[Slot(thy + 16, thx + i)], g[i]));
    }
    assert ws[..Taps] == ws && ws2[..Taps] == ws2 && ts[..Taps] == ts;
  }

  /** The vertical sum of one work-item: column `thx + 8` of the tile, rows `thy..thy+16`. */
  method VerticalWorkItem(tampon: seq<F3>, g: seq<real>, h: int, y0: int, thy: int, thx: int) returns (out: F3, tot: real)
    requires |tampon| >= TileSlots && |g| == TableLength && 0 <= y0 < h
    requires 0 <= thy < GroupSide && 0 <= thx < GroupSide
    ensures out == Conv(ColWindow(tampon, thy, thx + GaussianSize), g[..Taps])
    ensures tot == Tot(g, h, y0 + thy)
  {
    var y := y0 + thy;
    var beg := Max(0, y - 8) - (y - 8);
    var end2 := Min(h, y + 9) - (y - 8);
    tot := g[IntegralBase + end2] - g[IntegralBase + beg];
    ghost var ws := ColWindow(tampon, thy, thx + GaussianSize);
    ghost var ts := g[..Taps];
    out := Scale(tampon[Slot(thy, thx + 8)], g[0]);
    ConvStep(ws, ts, 0);
    for i := 1 to Taps
      invariant out == Conv(ws[..i], ts[..i])
    {
      ConvStep(ws, ts, i);
      assert ws[i] == tampon[Slot(thy + i, thx + 8)] && ts[i] == g[i];
      out := Add(out, Scale(tampon[Slot(thy + i, thx + 8)], g[i]));
    }
    assert ws[..Taps] == ws && ts[..Taps] == ts;
  }

  /** Tile column `c + 8` after the horizontal pass, row `r`, for the work-group at column `x0`. */
  function HValue(t: seq<F3>, g: seq<real>, w: int, x0: int, r: int, c: int): F3
    requires |t| >= TileSlots && |g| == TableLength && 0 <= x0 < w
    requires 0 <= r < TileSide && 0 <= c < GroupSide
  {
    Quot(Conv(RowWindow(t, r, c), g[..Taps]), Tot(g, w, x0 + c))
  }

  /** Tile row written by the work-item of group row `a` in the second half of the horizontal pass. */
  function Lower(a: int): int { a + GroupSide }

  /** The private values `out`, `out2` and `tot` of one work-item of the horizontal pass. */
  datatype RowSums = RowSums(out: F3, out2: F3, tot: real)

  /** What work-item (a, b) of the group at column `x0` holds at the barrier of the horizontal pass. */
  function RowSumsAt(t: seq<F3>, g: seq<real>, w: int, x0: int, a: int, b: int): RowSums
    requires |t| >= TileSlots && |g| == TableLength && 0 <= x0 < w
    requires 0 <= a < GroupSide && 0 <= b < GroupSide
  {
    RowSums(Conv(RowWindow(t, a, b), g[..Taps]), Conv(RowWindow(t, Lower(a), b), g[..Taps]), Tot(g, w, x0 + b))
  }

  /**
   * The work-items of group row `thy` compute their sums before the barrier
   * of the horizontal pass; `priv` holds the private values of the 256
   * work-items, by linear id.
   */
  method HorizontalSumsRow(tampon: seq<F3>, g: seq<real>, w: int, x0: int, thy: int, priv: seq<RowSums>)
      returns (priv': seq<RowSums>)
    requires |tampon| >= TileSlots && |g| == TableLength && 0 <= x0 < w && 0 <= thy < GroupSide
    requires |priv| == 256
    ensures |priv'| == 256
    ensures forall b :: 0 <= b < GroupSide ==> priv'[Thread(thy, b)] == RowSumsAt(tampon, g, w, x0, thy, b)
    ensures forall j :: 0 <= j < 256 && !(Thread(thy, 0) <= j < Thread(thy, GroupSide)) ==> priv'[j] == priv[j]
  {
    priv' := priv;
    for thx := 0 to GroupSide
      invariant |priv'| == 256
      invariant forall b :: 0 <= b < thx ==> priv'[Thread(thy, b)] == RowSumsAt(tampon, g, w, x0, thy, b)
      invariant forall j :: 0 <= j < 256 && !(Thread(thy, 0) <= j < Thread(thy, thx)) ==> priv'[j] == priv[j]
    {
      var out, out2, tot := HorizontalWorkItem(tampon, g, w, x0, thy, thx);
      priv' := priv'[Thread(thy, thx) := RowSums(out, out2, tot)];
    }
  }

  /**
   * Before the barrier of the horizontal pass: every work-item computes its
   * two weighted row sums and the total for its column; nothing is written
   * to the tile.
   */
  method HorizontalSums(tampon: seq<F3>, g: seq<real>, w: int, x0: int) returns (priv: seq<RowSums>)
    requires |tampon| >= TileSlots && |g| == TableLength && 0 <= x0 < w
    ensures |priv| == 256
    ensures forall a, b :: 0 <= a < GroupSide && 0 <= b < GroupSide ==> priv[Thread(a, b)] == RowSumsAt(tampon, g, w, x0, a, b)
  {
    priv := seq(256, j => RowSums(Zero, Zero, 0.0));
    for thy := 0 to GroupSide
      invariant |priv| == 256
      invariant forall a, b :: 0 <= a < thy && 0 <= b < GroupSide ==> priv[Thread(a, b)] == RowSumsAt(tampon, g, w, x0, a, b)
    {
      priv := HorizontalSumsRow(tampon, g, w, x0, thy, priv);
    }
  }

  /** Slot `k` is among the first `n` band slots of tile rows `thy` and `thy + 16`. */
  predicate InBandRows(k: int, thy: int, n: int)
  {
    Band(thy, 0) <= k < Band(thy, n) || Band(Lower(thy), 0) <= k < Band(Lower(thy), n)
  }

  /** After the barrier of the horizontal pass, the work-items of group row `thy` write their two quotients. */
  method HorizontalWriteRow(tampon: array<F3>, priv: seq<RowSums>, thy: int)
    requires tampon.Length >= TileSlots && |priv| == 256 && 0 <= thy < GroupSide
    modifies tampon
    ensures forall c :: 0 <= c < GroupSide ==> tampon[Band(thy, c)] == Quot(priv[Thread(thy, c)].out, priv[Thread(thy, c)].tot)
    ensures forall c :: 0 <= c < GroupSide ==> tampon[Band(Lower(thy), c)] == Quot(priv[Thread(thy, c)].out2, priv[Thread(thy, c)].tot)
    ensures forall k :: 0 <= k < tampon.Length && !InBandRows(k, thy, GroupSide) ==> tampon[k] == old(tampon[k])
  {
    for thx := 0 to GroupSide
      invariant forall c :: 0 <= c < thx ==> tampon[Band(thy, c)] == Quot(priv[Thread(thy, c)].out, priv[Thread(thy, c)].tot)
      invariant forall c :: 0 <= c < thx ==> tampon[Band(Lower(thy), c)] == Quot(priv[Thread(thy, c)].out2, priv[Thread(thy, c)].tot)
      invariant forall k :: 0 <= k < tampon.Length && !InBandRows(k, thy, thx) ==> tampon[k] == old(tampon[k])
    {
      var p := priv[Thread(thy, thx)];
      tampon[Band(thy, thx)] := Quot(p.out, p.tot);
      tampon[Band(Lower(thy), thx)] := Quot(p.out2, p.tot);
    }
  }

  /**
   * After the barrier of the horizontal pass: work-item (thy, thx) writes
   * its two quotients to tile column `thx + 8` of rows `thy` and `thy + 16`.
   */
  method HorizontalWrite(tampon: array<F3>, priv: seq<RowSums>)
    requires tampon.Length >= TileSlots && |priv| == 256
    modifies tampon
    ensures forall a, c :: 0 <= a < GroupSide && 0 <= c < GroupSide ==>
              tampon[Band(a, c)] == Quot(priv[Thread(a, c)].out, priv[Thread(a, c)].tot)
    ensures forall a, c :: 0 <= a < GroupSide && 0 <= c < GroupSide ==>
              tampon[Band(Lower(a), c)] == Quot(priv[Thread(a, c)].out2, priv[Thread(a, c)].tot)
    ensures forall k :: TileSlots <= k < tampon.Length ==> tampon[k] == old(tampon[k])
  {
    for thy := 0 to GroupSide
      invariant forall a, c :: 0 <= a < thy && 0 <= c < GroupSide ==>
                  tampon[Band(a, c)] == Quot(priv[Thread(a, c)].out, priv[Thread(a, c)].tot)
      invariant forall a, c :: 0 <= a < thy && 0 <= c < GroupSide ==>
                  tampon[Band(Lower(a), c)] == Quot(priv[Thread(a, c)].out2, priv[Thread(a, c)].tot)
      invariant forall k :: TileSlots <= k < tampon.Length ==> tampon[k] == old(tampon[k])
    {
      HorizontalWriteRow(tampon, priv, thy);
    }
  }

  /**
   * The horizontal half of `GaussianSmart_Device` for the work-group at
   * column `x0`: all sums are taken from the tile as it was, then the 32 by
   * 16 middle band is rewritten; the rest of the tile is left alone.
   */
  method HorizontalPass(tampon: array<F3>, g: seq<real>, w: int, x0: int)
    requires tampon.Length >= TileSlots && |g| == TableLength && 0 <= x0 < w
    modifies tampon
    ensures forall r, c :: 0 <= r < TileSide && 0 <= c < GroupSide ==>
              tampon[Band(r, c)] == HValue(old(tampon[..]), g, w, x0, r, c)
    ensures forall k :: TileSlots <= k < tampon.Length ==> tampon[k] == old(tampon[k])
  {
    ghost var t0 := tampon[..];
    var priv := HorizontalSums(tampon[..], g, w, x0);
    HorizontalWrite(tampon, priv);
    forall r, c | 0 <= r < TileSide && 0 <= c < GroupSide
      ensures tampon[Band(r, c)] == HValue(t0, g, w, x0, r, c)
    {
      if r >= GroupSide {
        assert Lower(r - GroupSide) == r;
      }
    }
  }

  /** Tile slot (r + 8, c + 8) after the vertical pass, for the work-group at row `y0`. */
  function VValue(t: seq<F3>, g: seq<real>, h: int, y0: int, r: int, c: int): F3
    requires |t| >= TileSlots && |g| == TableLength && 0 <= y0 < h
    requires 0 <= r < GroupSide && 0 <= c < GroupSide
  {
    Quot(Conv(ColWindow(t, r, c + GaussianSize), g[..Taps]), Tot(g, h, y0 + r))
  }

  /** The work-items of group row `thy` compute their column sums before the barrier of the vertical pass. */
  method VerticalSumsRow(tampon: seq<F3>, g: seq<real>, h: int, y0: int, thy: int, outs: seq<F3>, tots: seq<real>)
      returns (outs': seq<F3>, tots': seq<real>)
    requires |tampon| >= TileSlots && |g| == TableLength && 0 <= y0 < h && 0 <= thy < GroupSide
    requires |outs| == 256 && |tots| == 256
    ensures |outs'| == 256 && |tots'| == 256
    ensures forall b :: 0 <= b < GroupSide ==>
              outs'[Thread(thy, b)] == Conv(ColWindow(tampon, thy, b + GaussianSize), g[..Taps])
    ensures forall b :: 0 <= b < GroupSide ==> tots'[Thread(thy, b)] == Tot(g, h, y0 + thy)
    ensures forall j :: 0 <= j < 256 && !(Thread(thy, 0) <= j < Thread(thy, GroupSide)) ==> outs'[j] == outs[j]
    ensures forall j :: 0 <= j < 256 && !(Thread(thy, 0) <= j < Thread(thy, GroupSide)) ==> tots'[j] == tots[j]
  {
    outs', tots' := outs, tots;
    for thx := 0 to GroupSide
      invariant |outs'| == 256 && |tots'| == 256
      invariant forall b :: 0 <= b < thx ==>
                  outs'[Thread(thy, b)] == Conv(ColWindow(tampon, thy, b + GaussianSize), g[..Taps])
      invariant forall b :: 0 <= b < thx ==> tots'[Thread(thy, b)] == Tot(g, h, y0 + thy)
      invariant forall j :: 0 <= j < 256 && !(Thread(thy, 0) <= j < Thread(thy, thx)) ==> outs'[j] == outs[j]
      invariant forall j :: 0 <= j < 256 && !(Thread(thy, 0) <= j < Thread(thy, thx)) ==> tots'[j] == tots[j]
    {
      var out, tot := VerticalWorkItem(tampon, g, h, y0, thy, thx);
      outs' := outs'[Thread(thy, thx) := out];
      tots' := tots'[Thread(thy, thx) := tot];
    }
  }

  /** Before the barrier of the vertical pass: every work-item computes its column sum and total. */
  method VerticalSums(tampon: seq<F3>, g: seq<real>, h: int, y0: int) returns (outs: seq<F3>, tots: seq<real>)
    requires |tampon| >= TileSlots && |g| == TableLength && 0 <= y0 < h
    ensures |outs| == 256 && |tots| == 256
    ensures forall a, b :: 0 <= a < GroupSide && 0 <= b < GroupSide ==>
              outs[Thread(a, b)] == Conv(ColWindow(tampon, a, b + GaussianSize), g[..Taps])
    ensures forall a, b :: 0 <= a < GroupSide && 0 <= b < GroupSide ==> tots[Thread(a, b)] == Tot(g, h, y0 + a)
  {
    outs, tots := seq(256, j => Zero), seq(256, j => 0.0);
    for thy := 0 to GroupSide
      invariant |outs| == 256 && |tots| == 256
      invariant forall a, b :: 0 <= a < thy && 0 <= b < GroupSide ==>
                  outs[Thread(a, b)] == Conv(ColWindow(tampon, a, b + GaussianSize), g[..Taps])
      invariant forall a, b :: 0 <= a < thy && 0 <= b < GroupSide ==> tots[Thread(a, b)] == Tot(g, h, y0 + a)
    {
      outs, tots := VerticalSumsRow(tampon, g, h, y0, thy, outs, tots);
    }
  }

  /** After the barrier of the vertical pass, the work-items of group row `thy` write their quotients. */
  method VerticalWriteRow(tampon: array<F3>, outs: seq<F3>, tots: seq<real>, thy: int)
    requires tampon.Length >= TileSlots && |outs| == 256 && |tots| == 256 && 0 <= thy < GroupSide
    modifies tampon
    ensures forall c :: 0 <= c < GroupSide ==> tampon[Centre(thy, c)] == Quot(outs[Thread(thy, c)], tots[Thread(thy, c)])
    ensures forall k :: 0 <= k < tampon.Length && !(Centre(thy, 0) <= k < Centre(thy, GroupSide)) ==>
              tampon[k] == old(tampon[k])
  {
    for thx := 0 to GroupSide
      invariant forall c :: 0 <= c < thx ==> tampon[Centre(thy, c)] == Quot(outs[Thread(thy, c)], tots[Thread(thy, c)])
      invariant forall k :: 0 <= k < tampon.Length && !(Centre(thy, 0) <= k < Centre(thy, thx)) ==>
                  tampon[k] == old(tampon[k])
    {
      tampon[Centre(thy, thx)] := Quot(outs[Thread(thy, thx)], tots[Thread(thy, thx)]);
    }
  }

  /** After the barrier of the vertical pass: work-item (thy, thx) writes its quotient to slot (thy + 8, thx + 8). */
  method VerticalWrite(tampon: array<F3>, outs: seq<F3>, tots: seq<real>)
    requires tampon.Length >= TileSlots && |outs| == 256 && |tots| == 256
    modifies tampon
    ensures forall r, c :: 0 <= r < GroupSide && 0 <= c < GroupSide ==>
              tampon[Centre(r, c)] == Quot(outs[Thread(r, c)], tots[Thread(r, c)])
    ensures forall k :: TileSlots <= k < tampon.Length ==> tampon[k] == old(tampon[k])
  {
    for thy := 0 to GroupSide
      invariant forall r, c :: 0 <= r < thy && 0 <= c < GroupSide ==>
                  tampon[Centre(r, c)] == Quot(outs[Thread(r, c)], tots[Thread(r, c)])
      invariant forall k :: TileSlots <= k < tampon.Length ==> tampon[k] == old(tampon[k])
    {
      VerticalWriteRow(tampon, outs, tots, thy);
    }
  }

  /**
   * The vertical half of `GaussianSmart_Device` for the work-group at row
   * `y0`: every work-item sums column `thx + 8` over rows `thy..thy+16`,
   * then writes it, divided by its total, to slot (thy + 8, thx + 8).
   */
  method VerticalPass(tampon: array<F3>, g: seq<real>, h: int, y0: int)
    requires tampon.Length >= TileSlots && |g| == TableLength && 0 <= y0 < h
    modifies tampon
    ensures forall r, c :: 0 <= r < GroupSide && 0 <= c < GroupSide ==>
              tampon[Centre(r, c)] == VValue(old(tampon[..]), g, h, y0, r, c)
    ensures forall k :: TileSlots <= k < tampon.Length ==> tampon[k] == old(tampon[k])
  {
    var outs, tots := VerticalSums(tampon[..], g, h, y0);
    VerticalWrite(tampon, outs, tots);
  }

  /** A tile holding the window of `src` gives, for an in-image column, the horizontal blur of the image row. */
  lemma HValueMatches(t: seq<F3>, src: seq<F3>, w: int, h: int, g: seq<real>, x0: int, y0: int, r: int, c: int)
    requires |t| >= TileSlots && |src| == w * h && |g| == TableLength
    requires TileHolds(t, src, w, h, x0, y0)
    requires 0 <= r < TileSide && 0 <= c < GroupSide && 0 <= x0 && x0 + c < w
    ensures HValue(t, g, w, x0, r, c) == HBlurAt(src, w, h, g, y0 - GaussianSize + r, x0 + c)
  {
    assert RowWindow(t, r, c) == ImageRowWindow(src, w, h, y0 - GaussianSize + r, x0 + c);
  }

  /**
   * After the horizontal pass over a tile holding the window of `src`, the
   * column the vertical pass of work-item (r, c) reads is the column of
   * horizontally blurred image pixels centred on its own pixel.
   */
  lemma ColumnMatches(t0: seq<F3>, t1: seq<F3>, src: seq<F3>, w: int, h: int, g: seq<real>, x0: int, y0: int, r: int, c: int)
    requires |t0| >= TileSlots && |t1| >= TileSlots && |src| == w * h && |g| == TableLength
    requires TileHolds(t0, src, w, h, x0, y0)
    requires 0 <= x0 < w
    requires forall a, b :: 0 <= a < TileSide && 0 <= b < GroupSide ==> t1[Band(a, b)] == HValue(t0, g, w, x0, a, b)
    requires 0 <= r < GroupSide && 0 <= c < GroupSide && x0 + c < w
    ensures ColWindow(t1, r, c + GaussianSize) == ImageColWindow(src, w, h, g, x0 + c, y0 + r)
  {
    var tile := ColWindow(t1, r, c + GaussianSize);
    var image := ImageColWindow(src, w, h, g, x0 + c, y0 + r);
    forall i | 0 <= i < Taps
      ensures tile[i] == image[i]
    {
      assert tile[i] == t1[Band(r + i, c)];
      HValueMatches(t0, src, w, h, g, x0, y0, r + i, c);
    }
  }

  /**
   * `GaussianSmart_Device` for the work-group whose first work-item is at
   * (x0, y0), on a tile filled from `src`: every work-item inside the image
   * finds the blurred pixel at slot (thy + 8, thx + 8).
   */
  method GaussianSmart(tampon: array<F3>, g: seq<real>, ghost src: seq<F3>, w: int, h: int, x0: int, y0: int)
    requires tampon.Length >= TileSlots && IsTable(g) && |src| == w * h
    requires 0 <= x0 < w && 0 <= y0 < h
    requires TileHolds(tampon[..], src, w, h, x0, y0)
    modifies tampon
    ensures forall r, c :: 0 <= r < GroupSide && 0 <= c < GroupSide && x0 + c < w && y0 + r < h ==>
              tampon[Centre(r, c)] == BlurAt(src, w, h, g, x0 + c, y0 + r)
    ensures forall k :: TileSlots <= k < tampon.Length ==> tampon[k] == old(tampon[k])
  {
    ghost var t0 := tampon[..];
    HorizontalPass(tampon, g, w, x0);
    ghost var t1 := tampon[..];
    VerticalPass(tampon, g, h, y0);
    forall r, c | 0 <= r < GroupSide && 0 <= c < GroupSide && x0 + c < w && y0 + r < h
      ensures tampon[Centre(r, c)] == BlurAt(src, w, h, g, x0 + c, y0 + r)
    {
      ColumnMatches(t0, t1, src, w, h, g, x0, y0, r, c);
    }
  }
}
