/**
 * The per-scale score kernel `allscore_map_Kernel` (src/ssimu2/score.hpp):
 * for every 16 by 16 block of one pyramid level it blurs both images, both
 * squares and their product, turns every in-image pixel into six
 * statistics (SSIM error, artifact, detail loss and their 4th powers),
 * adds them up over the work-group and writes the block's sums, scaled by
 * 1 / (width * height), to the six sections of its destination.
 *
 * Division by a zero lane, which the float code turns into an infinity or
 * a NaN, is modelled as giving zero.
 */
module ScoreKernel {
  import opened Geometry
  import opened Float3
  import opened Gaussian
  import opened Reduce

  /** The SSIM stabilising constant of the kernel. */
  const C2: real := 0.0009

  /** Number of work-items of one score work-group (16 by 16). */
  const GroupSize: int := 256

  /** Real division, zero for a zero divisor. */
  function RDiv(a: real, b: real): real { if b == 0.0 then 0.0 else a / b }

  /** Lane-wise division. */
  function DivLanes(a: F3, b: F3): F3 { F3(RDiv(a.x, b.x), RDiv(a.y, b.y), RDiv(a.z, b.z)) }

  predicate NoZeroLane(a: F3) { a.x != 0.0 && a.y != 0.0 && a.z != 0.0 }

  /** `denom_s`: both local variances plus the constant. */
  function SsimDenom(m1: F3, m2: F3, su11: F3, su22: F3): F3
  {
    Add(Add(Sub(su11, Mul(m1, m1)), Sub(su22, Mul(m2, m2))), Splat(C2))
  }

  /** `d0`: one minus the SSIM of the local means and moments, floored at zero. */
  function SsimError(m1: F3, m2: F3, su11: F3, su22: F3, su12: F3): F3
  {
    var m12 := Mul(m1, m2);
    var mDiff := Sub(m1, m2);
    var numM := FmaVec(mDiff, Scale(mDiff, -1.0), 1.0);
    var numS := FmaScalar(Sub(su12, m12), 2.0, C2);
    MaxZero(Sub(Splat(1.0), DivLanes(Mul(numM, numS), SsimDenom(m1, m2, su11, su22))))
  }

  /** `v1`: how much larger the distorted pixel's deviation from its mean is than the reference's, minus one. */
  function EdgeRatio(m1: F3, m2: F3, p1: F3, p2: F3): F3
  {
    Sub(DivLanes(Add(Fabs(Sub(p2, m2)), Splat(1.0)), Add(Fabs(Sub(p1, m1)), Splat(1.0))), Splat(1.0))
  }

  predicate AllNonNeg(s: Stats)
  {
    NonNeg(s.ssim1) && NonNeg(s.ssim4) && NonNeg(s.a1) && NonNeg(s.a4) && NonNeg(s.d1) && NonNeg(s.d4)
  }

  /**
   * The six statistics of one in-image pixel from the blurred means `m1`,
   * `m2`, the blurred squares `su11`, `su22`, the blurred product `su12` and
   * the two pixels `p1`, `p2`: `d0`, `d1 = max(v1, 0)` (artifact) and
   * `d2 = max(-v1, 0)` (detail loss), each followed by its 4th power. All
   * six are non-negative.
   */
  function PixelStats(m1: F3, m2: F3, su11: F3, su22: F3, su12: F3, p1: F3, p2: F3): (r: Stats)
    ensures AllNonNeg(r)
  {
    var d0 := SsimError(m1, m2, su11, su22, su12);
    var v1 := EdgeRatio(m1, m2, p1, p2);
    var d1 := MaxZero(v1);
    var d2 := MaxZero(Scale(v1, -1.0));
    Stats(d0, Tothe4th(d0), d1, Tothe4th(d1), d2, Tothe4th(d2))
  }

  /**
   * Artifact and detail loss split `v1` by sign: their difference is `v1`
   * and in every lane at least one of them is zero.
   */
  lemma ArtifactDetailSplit(m1: F3, m2: F3, su11: F3, su22: F3, su12: F3, p1: F3, p2: F3)
    ensures var r := PixelStats(m1, m2, su11, su22, su12, p1, p2);
            Sub(r.a1, r.d1) == EdgeRatio(m1, m2, p1, p2) &&
            (r.a1.x == 0.0 || r.d1.x == 0.0) && (r.a1.y == 0.0 || r.d1.y == 0.0) && (r.a1.z == 0.0 || r.d1.z == 0.0)
  {
    var v := EdgeRatio(m1, m2, p1, p2);
    var r := PixelStats(m1, m2, su11, su22, su12, p1, p2);
    assert r.a1 == MaxZero(v) && r.d1 == MaxZero(Scale(v, -1.0));
  }

  /** The SSIM error does not depend on which image is the reference. */
  lemma SsimErrorSymmetric(m1: F3, m2: F3, su11: F3, su22: F3, su12: F3)
    ensures SsimError(m1, m2, su11, su22, su12) == SsimError(m2, m1, su22, su11, su12)
  {
    var d := Sub(m1, m2);
    var e := Sub(m2, m1);
    assert FmaVec(d, Scale(d, -1.0), 1.0) == FmaVec(e, Scale(e, -1.0), 1.0) by {
      NegatedSquare(d.x);
      NegatedSquare(d.y);
      NegatedSquare(d.z);
    }
    assert Mul(m1, m2) == Mul(m2, m1);
    assert SsimDenom(m1, m2, su11, su22) == SsimDenom(m2, m1, su22, su11);
  }

  lemma NegatedSquare(a: real)
    ensures a * (a * -1.0) == (-a) * ((-a) * -1.0)
  {}

  /** A vector with no zero lane divided by itself is one in every lane. */
  lemma DivSelf(a: F3)
    requires NoZeroLane(a)
    ensures DivLanes(a, a) == Splat(1.0)
  {}

  /** Identical means and moments give SSIM error zero when the denominator has no zero lane. */
  lemma IdenticalSsimZero(m: F3, s: F3)
    requires NoZeroLane(SsimDenom(m, m, s, s))
    ensures SsimError(m, m, s, s, s) == Zero
  {
    var d := Sub(m, m);
    assert d == Zero;
    assert Mul(d, Scale(d, -1.0)) == Zero;
    assert FmaVec(d, Scale(d, -1.0), 1.0) == Splat(1.0);
    var v := Sub(s, Mul(m, m));
    var numS := FmaScalar(v, 2.0, C2);
    assert numS == SsimDenom(m, m, s, s);
    assert Mul(Splat(1.0), numS) == numS;
    DivSelf(numS);
  }

  /** Identical pixels and means give edge ratio zero: both deviations are the same and at least one. */
  lemma IdenticalEdgeZero(m: F3, p: F3)
    ensures EdgeRatio(m, m, p, p) == Zero
  {
    var a := Add(Fabs(Sub(p, m)), Splat(1.0));
    assert NoZeroLane(a);
    DivSelf(a);
  }

  /**
   * Identical inputs give all-zero statistics: the artifact and detail loss
   * always vanish, the SSIM error whenever the denominator has no zero
   * lane (it is `2 * variance + C2`, positive for a real variance).
   */
  lemma IdenticalPixelsScoreZero(m: F3, s: F3, p: F3)
    requires NoZeroLane(SsimDenom(m, m, s, s))
    ensures PixelStats(m, m, s, s, s, p, p) == ZeroStats
  {
    IdenticalSsimZero(m, s);
    IdenticalEdgeZero(m, p);
    assert MaxZero(Zero) == Zero && Scale(Zero, -1.0) == Zero;
    assert Tothe4th(Zero) == Zero;
  }

  /** Statistics of pixel (x, y) of the level: the blurred moments of both images at that pixel, zero outside the image. */
  function PixelAt(im1: seq<F3>, im2: seq<F3>, w: int, h: int, g: seq<real>, x: int, y: int): Stats
    requires |im1| == w * h && |im2| == w * h && |g| == TableLength && 0 <= x && 0 <= y
  {
    if x < w && y < h then
      RowMajorBound(y, x, w, h);
      PixelStats(BlurAt(im1, w, h, g, x, y), BlurAt(im2, w, h, g, x, y),
                 BlurAt(Product(im1, im1), w, h, g, x, y), BlurAt(Product(im2, im2), w, h, g, x, y),
                 BlurAt(Product(im1, im2), w, h, g, x, y), im1[y * w + x], im2[y * w + x])
    else
      ZeroStats
  }

  /** The statistics of the 256 work-items of the block at (x0, y0), by local id `ly * 16 + lx`. */
  function GroupPixels(im1: seq<F3>, im2: seq<F3>, w: int, h: int, g: seq<real>, x0: int, y0: int): seq<Stats>
    requires |im1| == w * h && |im2| == w * h && |g| == TableLength && 0 <= x0 && 0 <= y0
  {
    seq(GroupSize, t requires 0 <= t < GroupSize =>
      PixelAt(im1, im2, w, h, g, x0 + t % GroupSide, y0 + t / GroupSide))
  }

  /** A local id splits into its row and column. */
  lemma ThreadSplit(r: int, c: int)
    requires 0 <= r < GroupSide && 0 <= c < GroupSide
    ensures 0 <= Thread(r, c) < GroupSize
    ensures Thread(r, c) % GroupSide == c && Thread(r, c) / GroupSide == r
  {
    DivModUnique(GroupSide, r, c);
  }

  /** Every work-item reads its own tile slot (ly + 8, lx + 8) into a private value. */
  method ReadCentres(tampon: array<F3>) returns (m: array<F3>)
    requires tampon.Length >= TileSlots
    ensures fresh(m) && m.Length == GroupSize
    ensures forall r, c :: 0 <= r < GroupSide && 0 <= c < GroupSide ==> m[Thread(r, c)] == tampon[Centre(r, c)]
  {
    m := new F3[GroupSize];
    for thy := 0 to GroupSide
      invariant forall r, c :: 0 <= r < thy && 0 <= c < GroupSide ==> m[Thread(r, c)] == tampon[Centre(r, c)]
    {
      for thx := 0 to GroupSide
        invariant forall r, c :: 0 <= c < GroupSide && (0 <= r < thy || (r == thy && c < thx)) ==>
                    m[Thread(r, c)] == tampon[Centre(r, c)]
      {
        ThreadSplit(thy, thx);
        m[Thread(thy, thx)] := tampon[Centre(thy, thx)];
      }
    }
  }

  /** Load the tile of `src`, blur it, and let every work-item read its blurred pixel. */
  method Blurred(tampon: array<F3>, src: seq<F3>, w: int, h: int, g: seq<real>, x0: int, y0: int) returns (m: array<F3>)
    requires tampon.Length >= TileSlots && IsTable(g) && |src| == w * h && 0 <= x0 < w && 0 <= y0 < h
    modifies tampon
    ensures fresh(m) && m.Length == GroupSize
    ensures forall r, c :: 0 <= r < GroupSide && 0 <= c < GroupSide && x0 + c < w && y0 + r < h ==>
              m[Thread(r, c)] == BlurAt(src, w, h, g, x0 + c, y0 + r)
  {
    SharedLoad(tampon, src, w, h, x0, y0);
    GaussianSmart(tampon, g, src, w, h, x0, y0);
    m := ReadCentres(tampon);
  }

  /** The same for the lane-wise product of two images, loaded by `GaussianSmartSharedLoadProduct`. */
  method BlurredProduct(tampon: array<F3>, src1: seq<F3>, src2: seq<F3>, w: int, h: int, g: seq<real>, x0: int, y0: int)
    returns (m: array<F3>)
    requires tampon.Length >= TileSlots && IsTable(g) && |src1| == w * h && |src2| == w * h
    requires 0 <= x0 < w && 0 <= y0 < h
    modifies tampon
    ensures fresh(m) && m.Length == GroupSize
    ensures forall r, c :: 0 <= r < GroupSide && 0 <= c < GroupSide && x0 + c < w && y0 + r < h ==>
              m[Thread(r, c)] == BlurAt(Product(src1, src2), w, h, g, x0 + c, y0 + r)
  {
    SharedLoadProduct(tampon, src1, src2, w, h, x0, y0);
    GaussianSmart(tampon, g, Product(src1, src2), w, h, x0, y0);
    m := ReadCentres(tampon);
  }

  /** The moments one work-item holds are those of its pixel (in-image pixels only). */
  predicate HoldsMoments(m1: array<F3>, m2: array<F3>, s11: array<F3>, s22: array<F3>, s12: array<F3>,
                         im1: seq<F3>, im2: seq<F3>, w: int, h: int, g: seq<real>, x0: int, y0: int)
    requires m1.Length == GroupSize && m2.Length == GroupSize && s11.Length == GroupSize
    requires s22.Length == GroupSize && s12.Length == GroupSize
    requires |im1| == w * h && |im2| == w * h && |g| == TableLength && 0 <= x0 && 0 <= y0
    reads m1, m2, s11, s22, s12
  {
    forall r, c :: 0 <= r < GroupSide && 0 <= c < GroupSide && x0 + c < w && y0 + r < h ==>
      m1[Thread(r, c)] == BlurAt(im1, w, h, g, x0 + c, y0 + r) &&
      m2[Thread(r, c)] == BlurAt(im2, w, h, g, x0 + c, y0 + r) &&
      s11[Thread(r, c)] == BlurAt(Product(im1, im1), w, h, g, x0 + c, y0 + r) &&
      s22[Thread(r, c)] == BlurAt(Product(im2, im2), w, h, g, x0 + c, y0 + r) &&
      s12[Thread(r, c)] == BlurAt(Product(im1, im2), w, h, g, x0 + c, y0 + r)
  }

  /**
   * One work-item of the phase after the five blurs: an in-image work-item
   * computes its pixel's `d0`, `d1`, `d2` from its five moments and two
   * pixels, an out-of-image one zeroes them; the record holds the three
   * values and their 4th powers.
   */
  method PixelWorkItem(m1: F3, m2: F3, s11: F3, s22: F3, s12: F3,
                       im1: seq<F3>, im2: seq<F3>, w: int, h: int, g: seq<real>, x: int, y: int)
    returns (st: Stats)
    requires |im1| == w * h && |im2| == w * h && |g| == TableLength && 0 <= x && 0 <= y
    requires x < w && y < h ==>
               m1 == BlurAt(im1, w, h, g, x, y) && m2 == BlurAt(im2, w, h, g, x, y) &&
               s11 == BlurAt(Product(im1, im1), w, h, g, x, y) && s22 == BlurAt(Product(im2, im2), w, h, g, x, y) &&
               s12 == BlurAt(Product(im1, im2), w, h, g, x, y)
    ensures st == PixelAt(im1, im2, w, h, g, x, y)
  {
    var d0, d1, d2;
    if x < w && y < h {
      RowMajorBound(y, x, w, h);
      var id := y * w + x;
      d0 := SsimError(m1, m2, s11, s22, s12);
      var v1 := EdgeRatio(m1, m2, im1[id], im2[id]);
      d1 := MaxZero(v1);
      d2 := MaxZero(Scale(v1, -1.0));
    } else {
      d0, d1, d2 := Zero, Zero, Zero;
    }
    st := Stats(d0, Tothe4th(d0), d1, Tothe4th(d1), d2, Tothe4th(d2));
  }

  /** The phase after the five blurs: every work-item stores its record at its local id. */
  method PixelPhase(m1: array<F3>, m2: array<F3>, s11: array<F3>, s22: array<F3>, s12: array<F3>,
                    im1: seq<F3>, im2: seq<F3>, w: int, h: int, g: seq<real>, x0: int, y0: int)
    returns (red: array<Stats>)
    requires m1.Length == GroupSize && m2.Length == GroupSize && s11.Length == GroupSize
    requires s22.Length == GroupSize && s12.Length == GroupSize
    requires |im1| == w * h && |im2| == w * h && |g| == TableLength && 0 <= x0 && 0 <= y0
    requires HoldsMoments(m1, m2, s11, s22, s12, im1, im2, w, h, g, x0, y0)
    ensures fresh(red) && red.Length == GroupSize
    ensures forall r, c :: 0 <= r < GroupSide && 0 <= c < GroupSide ==>
              red[Thread(r, c)] == PixelAt(im1, im2, w, h, g, x0 + c, y0 + r)
  {
    red := new Stats[GroupSize];
    for thy := 0 to GroupSide
      invariant forall r, c :: 0 <= r < thy && 0 <= c < GroupSide ==>
                  red[Thread(r, c)] == PixelAt(im1, im2, w, h, g, x0 + c, y0 + r)
    {
      for thx := 0 to GroupSide
        invariant forall r, c :: 0 <= c < GroupSide && (0 <= r < thy || (r == thy && c < thx)) ==>
                    red[Thread(r, c)] == PixelAt(im1, im2, w, h, g, x0 + c, y0 + r)
      {
        ThreadSplit(thy, thx);
        var t := Thread(thy, thx);
        red[t] := PixelWorkItem(m1[t], m2[t], s11[t], s22[t], s12[t], im1, im2, w, h, g, x0 + thx, y0 + thy);
      }
    }
  }

  /**
   * One work-group of the score kernel on the block at (x0, y0): five
   * blurs through one tile, the pixel phase and the tree reduction. The
   * result is the sum of the block's pixel statistics, out-of-image
   * work-items counting zero.
   */
  method BlockScores(im1: seq<F3>, im2: seq<F3>, w: int, h: int, g: seq<real>, x0: int, y0: int) returns (st: Stats)
    requires IsTable(g) && |im1| == w * h && |im2| == w * h && 0 <= x0 < w && 0 <= y0 < h
    ensures st == SumStats(GroupPixels(im1, im2, w, h, g, x0, y0))
  {
    var tampon := new F3[TileSlots];
    var m1 := Blurred(tampon, im1, w, h, g, x0, y0);
    var m2 := Blurred(tampon, im2, w, h, g, x0, y0);
    var s11 := BlurredProduct(tampon, im1, im1, w, h, g, x0, y0);
    var s22 := BlurredProduct(tampon, im2, im2, w, h, g, x0, y0);
    var s12 := BlurredProduct(tampon, im1, im2, w, h, g, x0, y0);
    var red := PixelPhase(m1, m2, s11, s22, s12, im1, im2, w, h, g, x0, y0);
    ghost var pixels := red[..];
    forall t | 0 <= t < GroupSize
      ensures pixels[t] == GroupPixels(im1, im2, w, h, g, x0, y0)[t]
    {
      var r, c := t / GroupSide, t % GroupSide;
      assert t == Thread(r, c);
    }
    assert pixels[..GroupSize] == GroupPixels(im1, im2, w, h, g, x0, y0);
    TreeReduce(red, GroupSize);
    st := red[0];
  }

  /** Number of work-groups of the kernel on a `w` by `h` level: `bl_x * bl_y`. */
  function BlockCount(w: int, h: int): (n: int)
    requires w >= 1 && h >= 1
    ensures n >= 1
  {
    CeilDiv(w, GroupSide) * CeilDiv(h, GroupSide)
  }

  /** Every field scaled by `s`. */
  function ScaleStats(a: Stats, s: real): Stats
  {
    Stats(Scale(a.ssim1, s), Scale(a.ssim4, s), Scale(a.a1, s), Scale(a.a4, s), Scale(a.d1, s), Scale(a.d4, s))
  }

  /** Image column of the first pixel of work-group `b`: block column `b % bl_x`, times 16. */
  function BlockX(w: int, b: int): int
    requires w >= 1
  {
    (b % CeilDiv(w, GroupSide)) * GroupSide
  }

  /** Image row of the first pixel of work-group `b`: block row `b / bl_x`, times 16. */
  function BlockY(w: int, b: int): int
    requires w >= 1
  {
    (b / CeilDiv(w, GroupSide)) * GroupSide
  }

  /** `norm = 1 / (width * height)`. */
  function Norm(w: int, h: int): real
    requires w >= 1 && h >= 1
  {
    MulAtLeast(w, h);
    1.0 / ((w * h) as real)
  }

  /** The origin of block `b` lies inside the image. */
  lemma BlockOrigin(w: int, h: int, b: int)
    requires w >= 1 && h >= 1 && 0 <= b < BlockCount(w, h)
    ensures 0 <= BlockX(w, b) < w && 0 <= BlockY(w, b) < h
  {
    var blx, bly := CeilDiv(w, GroupSide), CeilDiv(h, GroupSide);
    RowMajorSplit(b, blx, bly);
    var col, row := b % blx, b / blx;
    MulMono(col, blx - 1, GroupSide);
    MulMono(row, bly - 1, GroupSide);
  }

  /** What work-group `b` writes: its sums times 1 / (w * h). */
  function TileStats(im1: seq<F3>, im2: seq<F3>, w: int, h: int, g: seq<real>, b: int): Stats
    requires w >= 1 && h >= 1 && |im1| == w * h && |im2| == w * h && |g| == TableLength
    requires 0 <= b < BlockCount(w, h)
  {
    BlockOrigin(w, h, b);
    ScaleStats(SumStats(GroupPixels(im1, im2, w, h, g, BlockX(w, b), BlockY(w, b))), Norm(w, h))
  }

  /** The kernel's output for the whole level, one record per work-group. */
  function MapBlocks(im1: seq<F3>, im2: seq<F3>, w: int, h: int, g: seq<real>): (r: seq<Stats>)
    requires w >= 1 && h >= 1 && |im1| == w * h && |im2| == w * h && |g| == TableLength
    ensures |r| == BlockCount(w, h)
  {
    seq(BlockCount(w, h), b requires 0 <= b < BlockCount(w, h) => TileStats(im1, im2, w, h, g, b))
  }

  /**
   * What work-item 0 of work-group `b` stores: the group's sums times
   * `norm = 1 / (width * height)`, the group sitting at block column
   * `b % bl_x` and block row `b / bl_x`.
   */
  method TileValue(im1: seq<F3>, im2: seq<F3>, w: int, h: int, g: seq<real>, b: int) returns (v: Stats)
    requires w >= 1 && h >= 1 && IsTable(g) && |im1| == w * h && |im2| == w * h
    requires 0 <= b < BlockCount(w, h)
    ensures v == TileStats(im1, im2, w, h, g, b)
  {
    var blx := (w - 1) / GroupSide + 1;
    var x0, y0 := (b % blx) * GroupSide, (b / blx) * GroupSide;
    assert x0 == BlockX(w, b) && y0 == BlockY(w, b);
    BlockOrigin(w, h, b);
    var st := BlockScores(im1, im2, w, h, g, x0, y0);
    MulAtLeast(w, h);
    var norm := 1.0 / ((w * h) as real);
    v := ScaleStats(st, norm);
  }

  /** Work-group `b` of the kernel: compute the block's sums and let work-item 0 store them, scaled. */
  method TileGroup(temp: array<F3>, dst: int, im1: seq<F3>, im2: seq<F3>, w: int, h: int, g: seq<real>, nb: int, b: int,
                   ghost c: seq<Stats>, ghost t0: seq<F3>)
    requires w >= 1 && h >= 1 && IsTable(g) && |im1| == w * h && |im2| == w * h
    requires c == MapBlocks(im1, im2, w, h, g) && nb == |c| && 0 <= b < nb
    requires 0 <= dst && dst + 6 * |c| <= temp.Length
    requires PrefixHolds(temp[..], dst, |c|, c, b)
    requires SameOutside(t0, temp[..], dst, dst + 6 * |c|)
    modifies temp
    ensures PrefixHolds(temp[..], dst, |c|, c, b + 1)
    ensures SameOutside(t0, temp[..], dst, dst + 6 * |c|)
  {
    var v := TileValue(im1, im2, w, h, g, b);
    assert v == c[b];
    ghost var before := temp[..];
    StoreGroup(temp, dst, nb, b, v);
    PrefixExtends(before, temp[..], dst, |c|, c, b);
  }

  /**
   * The whole kernel on one level: the sectioned layout at `dst` holds one
   * record per work-group; nothing outside those `6 * bl_x * bl_y` entries
   * changes.
   */
  method ScoreMapKernel(temp: array<F3>, dst: int, im1: seq<F3>, im2: seq<F3>, w: int, h: int, g: seq<real>)
    requires w >= 1 && h >= 1 && IsTable(g) && |im1| == w * h && |im2| == w * h
    requires 0 <= dst && dst + 6 * BlockCount(w, h) <= temp.Length
    modifies temp
    ensures Holds(temp[..], dst, MapBlocks(im1, im2, w, h, g))
    ensures SameOutside(old(temp[..]), temp[..], dst, dst + 6 * BlockCount(w, h))
  {
    var blx := (w - 1) / GroupSide + 1;
    var bly := (h - 1) / GroupSide + 1;
    var nb := blx * bly;
    ghost var c := MapBlocks(im1, im2, w, h, g);
    ghost var t0 := temp[..];
    for b := 0 to nb
      invariant PrefixHolds(temp[..], dst, nb, c, b)
      invariant SameOutside(t0, temp[..], dst, dst + 6 * nb)
    {
      TileGroup(temp, dst, im1, im2, w, h, g, nb, b, c, t0);
    }
    PrefixComplete(temp[..], dst, c);
  }
}
