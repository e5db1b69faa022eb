/**
 * The driver of one comparison (src/ssimu2/main.hpp): packing the three
 * source planes into float3 pixels (`memoryorganizer`), the total size of
 * the six-level pyramid (`getTotalScaleSize`), building the pyramid and the
 * positive XYB images, reordering the 36 score vectors into the 108
 * measures `final_score` weighs (`ssimu2GPUProcess`), the device block that
 * holds both images and the scratch (`ssimu2process`), and the object that
 * keeps the pinned host buffer between comparisons
 * (`SSIMU2ComputingImplementation`).
 *
 * Host-to-device copies and queue ordering are not modelled: a staged plane
 * is the byte sequence it was copied from, and every launch completes before
 * the next starts.
 */
module Pipeline {
  import opened Geometry
  import opened Float3
  import opened Downsample
  import opened Xyb
  import opened Gaussian
  import opened ScoreKernel
  import opened ScoreMap
  import FinalScore

  /* ---------------------------------------------------------------------- */
  /* memoryorganizer                                                         */
  /* ---------------------------------------------------------------------- */

  /** Sample `j` of row `i` lies inside a plane of `height` rows of `stride` bytes when a row's samples fit its stride. */
  lemma ElementInPlane(t: InputMemType, i: int, j: int, stride: int, width: int, height: int)
    requires 0 <= i < height && 0 <= j < width && ElemBytes(t) * width <= stride
    ensures 0 <= ElementOffset(t, i, j, stride)
    ensures ElementOffset(t, i, j, stride) + ElemBytes(t) <= stride * height
  {
    var e := ElemBytes(t);
    MulMono(j + 1, width, e);
    MulMono(i + 1, height, stride);
    assert (i + 1) * stride == i * stride + stride;
    assert (j + 1) * e == e * j + e;
  }

  /** The planes `memoryorganizer` reads: `height` rows of `stride` bytes each, a row holding `width` samples. */
  predicate PlanesFit(t: InputMemType, p0: seq<Byte>, p1: seq<Byte>, p2: seq<Byte>, stride: int, width: int, height: int)
  {
    width >= 1 && height >= 1 && ElemBytes(t) * width <= stride &&
    |p0| == stride * height && |p1| == stride * height && |p2| == stride * height
  }

  /** What work-item `x` of `memoryorganizer` stores: the three planes' samples at row `x / width`, column `x % width`. */
  function OrganizedPixel(t: InputMemType, p0: seq<Byte>, p1: seq<Byte>, p2: seq<Byte>, stride: int,
                          width: int, height: int, x: int, dec: FloatDecoders): F3
    requires PlanesFit(t, p0, p1, p2, stride, width, height) && 0 <= x < width * height
  {
    RowMajorSplit(x, width, height);
    ElementInPlane(t, x / width, x % width, stride, width, height);
    F3(ConvertPointer(t, p0, x / width, x % width, stride, dec),
       ConvertPointer(t, p1, x / width, x % width, stride, dec),
       ConvertPointer(t, p2, x / width, x % width, stride, dec))
  }

  /**
   * Pixel `(i, j)` of the packed image, at `i * width + j`, holds sample `j`
   * of row `i` of each plane: every pixel is written once, from its own
   * samples.
   */
  lemma OrganizedPixelAt(t: InputMemType, p0: seq<Byte>, p1: seq<Byte>, p2: seq<Byte>, stride: int,
                         width: int, height: int, i: int, j: int, dec: FloatDecoders)
    requires PlanesFit(t, p0, p1, p2, stride, width, height) && 0 <= i < height && 0 <= j < width
    ensures 0 <= i * width + j < width * height
    ensures 0 <= ElementOffset(t, i, j, stride) && ElementOffset(t, i, j, stride) + ElemBytes(t) <= stride * height
    ensures OrganizedPixel(t, p0, p1, p2, stride, width, height, i * width + j, dec)
            == F3(ConvertPointer(t, p0, i, j, stride, dec), ConvertPointer(t, p1, i, j, stride, dec),
                  ConvertPointer(t, p2, i, j, stride, dec))
  {
    RowMajorBound(i, j, width, height);
    RowMajorUnique(i, j, width);
    ElementInPlane(t, i, j, stride, width, height);
    var x := i * width + j;
    assert x / width == i && x % width == j;
  }

  /**
   * `memoryorganizer<T>`: one work-item per pixel in groups of
   * `min(256, total)`; each in-image work-item packs its three samples into
   * `out[i * width + j]`, the rest return at once.
   */
  method MemoryOrganizer(out: array<F3>, t: InputMemType, p0: seq<Byte>, p1: seq<Byte>, p2: seq<Byte>,
                         stride: int, width: int, height: int, dec: FloatDecoders)
    requires PlanesFit(t, p0, p1, p2, stride, width, height) && width * height <= out.Length
    modifies out
    ensures forall x :: 0 <= x < width * height ==>
              out[x] == OrganizedPixel(t, p0, p1, p2, stride, width, height, x, dec)
    ensures forall x :: width * height <= x < out.Length ==> out[x] == old(out[x])
  {
    var total := width * height;
    var globalSize := LaunchRange(total, 256);
    var x := 0;
    while x < globalSize
      invariant 0 <= x <= globalSize
      invariant forall y :: 0 <= y < Min(x, total) ==>
                  out[y] == OrganizedPixel(t, p0, p1, p2, stride, width, height, y, dec)
      invariant forall y :: Min(x, total) <= y < out.Length ==> out[y] == old(out[y])
    {
      if x < total {
        var j := x % width;
        var i := x / width;
        RowMajorSplit(x, width, height);
        ElementInPlane(t, i, j, stride, width, height);
        out[i * width + j] := F3(ConvertPointer(t, p0, i, j, stride, dec),
                                 ConvertPointer(t, p1, i, j, stride, dec),
                                 ConvertPointer(t, p2, i, j, stride, dec));
      }
      x := x + 1;
    }
  }

  /* ---------------------------------------------------------------------- */
  /* getTotalScaleSize                                                       */
  /* ---------------------------------------------------------------------- */

  /** `getTotalScaleSize`: the pixels of the six levels, halving (rounding up) after each. */
  method GetTotalScaleSize(width: int, height: int) returns (result: int)
    requires width >= 1 && height >= 1
    ensures result == TotalScaleSize(width, height)
  {
    var w, h := width, height;
    result := 0;
    for scale := 0 to Scales
      invariant w == LevelDim(width, scale) && h == LevelDim(height, scale)
      invariant result == LevelOffset(width, height, scale)
    {
      result := result + w * h;
      w := (w - 1) / 2 + 1;
      h := (h - 1) / 2 + 1;
    }
  }

  /** The first `k` levels hold the base image plus one pixel per further level at least, and at most `k` base images. */
  lemma {:induction false} LevelOffsetBounds(w: int, h: int, k: nat)
    requires w >= 1 && h >= 1 && k >= 1
    ensures w * h + (k - 1) <= LevelOffset(w, h, k) <= k * (w * h)
  {
    LevelBound(w, h, k - 1);
    if k > 1 {
      LevelOffsetBounds(w, h, k - 1);
    }
  }

  lemma LevelBound(w: int, h: int, k: nat)
    requires w >= 1 && h >= 1
    ensures ScaleSize(w, h, k) <= w * h
  {
    var a, b := LevelDim(w, k), LevelDim(h, k);
    MulMono(a, w, b);
    MulMono(b, h, w);
    assert a * b <= w * b == b * w <= h * w == w * h;
  }

  /** The pyramid buffer is at least the base image plus five pixels, and at most six base images. */
  lemma TotalScaleSizeBounds(w: int, h: int)
    requires w >= 1 && h >= 1
    ensures w * h + 5 <= TotalScaleSize(w, h) <= 6 * (w * h)
  {
    LevelOffsetBounds(w, h, Scales);
  }

  /* ---------------------------------------------------------------------- */
  /* The pyramid: step 1 of ssimu2GPUProcess                                 */
  /* ---------------------------------------------------------------------- */

  /** Level `s` of the pyramid over a `w` by `h` base image: each level downsamples the one before. */
  function PyramidLevel(base: seq<F3>, w: int, h: int, s: nat): (r: seq<F3>)
    requires w >= 1 && h >= 1 && |base| == w * h
    ensures |r| == ScaleSize(w, h, s)
  {
    if s == 0 then base
    else DownsampleSpec(PyramidLevel(base, w, h, s - 1), LevelDim(w, s - 1), LevelDim(h, s - 1))
  }

  /** Images laid end to end. */
  function Flatten(ls: seq<seq<F3>>): seq<F3>
  {
    if |ls| == 0 then [] else Flatten(ls[..|ls| - 1]) + ls[|ls| - 1]
  }

  /** Flattening the first `j` images gives a prefix of flattening them all. */
  lemma {:induction false} FlattenPrefix(ls: seq<seq<F3>>, j: nat)
    requires j <= |ls|
    ensures |Flatten(ls[..j])| <= |Flatten(ls)|
    ensures Flatten(ls)[..|Flatten(ls[..j])|] == Flatten(ls[..j])
    decreases |ls|
  {
    if j < |ls| {
      var init := ls[..|ls| - 1];
      assert init[..j] == ls[..j];
      FlattenPrefix(init, j);
      assert Flatten(ls) == Flatten(init) + ls[|ls| - 1];
    } else {
      assert ls[..j] == ls;
    }
  }

  /** Levels `0 .. k-1` of the pyramid over `base`. */
  function Levels(base: seq<F3>, w: int, h: int, k: nat): (r: seq<seq<F3>>)
    requires w >= 1 && h >= 1 && |base| == w * h
    ensures |r| == k
  {
    if k == 0 then [] else Levels(base, w, h, k - 1) + [PyramidLevel(base, w, h, k - 1)]
  }

  /** Entry `s` of the levels is level `s`. */
  lemma {:induction false} LevelsAt(base: seq<F3>, w: int, h: int, k: nat, s: nat)
    requires w >= 1 && h >= 1 && |base| == w * h && s < k
    ensures Levels(base, w, h, k)[s] == PyramidLevel(base, w, h, s)
  {
    if s < k - 1 {
      LevelsAt(base, w, h, k - 1, s);
    }
  }

  /** The first `j` of `k` levels are the levels `0 .. j-1`. */
  lemma {:induction false} LevelsPrefix(base: seq<F3>, w: int, h: int, j: nat, k: nat)
    requires w >= 1 && h >= 1 && |base| == w * h && j <= k
    ensures Levels(base, w, h, k)[..j] == Levels(base, w, h, j)
    decreases k
  {
    if j < k {
      LevelsPrefix(base, w, h, j, k - 1);
      assert Levels(base, w, h, k)[..j] == Levels(base, w, h, k - 1)[..j];
    }
  }

  /** The first `k` levels back to back, as the pyramid buffer holds them. */
  function Pyramid(base: seq<F3>, w: int, h: int, k: nat): seq<F3>
    requires w >= 1 && h >= 1 && |base| == w * h
  {
    Flatten(Levels(base, w, h, k))
  }

  /** One more level extends the pyramid by that level. */
  lemma PyramidSnoc(base: seq<F3>, w: int, h: int, k: nat)
    requires w >= 1 && h >= 1 && |base| == w * h
    ensures Pyramid(base, w, h, k + 1) == Pyramid(base, w, h, k) + PyramidLevel(base, w, h, k)
  {
    var ls := Levels(base, w, h, k + 1);
    assert ls[..k] == Levels(base, w, h, k);
    assert ls[k] == PyramidLevel(base, w, h, k);
  }

  /** The first `k` levels take `LevelOffset(w, h, k)` pixels. */
  lemma {:induction false} PyramidLength(base: seq<F3>, w: int, h: int, k: nat)
    requires w >= 1 && h >= 1 && |base| == w * h
    ensures |Pyramid(base, w, h, k)| == LevelOffset(w, h, k)
  {
    if k > 0 {
      PyramidLength(base, w, h, k - 1);
      PyramidSnoc(base, w, h, k - 1);
    }
  }

  lemma SliceOfRight(p: seq<F3>, q: seq<F3>)
    ensures (p + q)[|p| .. |p| + |q|] == q
  {}

  /** Level `s` of the buffer is the `s`-th downsampling of the base; in particular level 0 is the base itself. */
  lemma PyramidHoldsLevels(base: seq<F3>, w: int, h: int, k: nat, s: nat)
    requires w >= 1 && h >= 1 && |base| == w * h && s < k
    ensures LevelOffset(w, h, s) + ScaleSize(w, h, s) <= LevelOffset(w, h, k) == |Pyramid(base, w, h, k)|
    ensures Pyramid(base, w, h, k)[LevelOffset(w, h, s) .. LevelOffset(w, h, s) + ScaleSize(w, h, s)]
            == PyramidLevel(base, w, h, s)
  {
    LevelOffsetMonotone(w, h, s + 1, k);
    PyramidLength(base, w, h, k);
    PyramidLength(base, w, h, s);
    var ls := Levels(base, w, h, k);
    LevelsPrefix(base, w, h, s + 1, k);
    FlattenPrefix(ls, s + 1);
    PyramidSnoc(base, w, h, s);
    SliceOfRight(Pyramid(base, w, h, s), PyramidLevel(base, w, h, s));
  }

  /** The full pyramid as `LevelImage` reads it back level by level. */
  lemma PyramidLevelImage(base: seq<F3>, w: int, h: int, s: nat)
    requires w >= 1 && h >= 1 && |base| == w * h && s < Scales
    ensures |Pyramid(base, w, h, Scales)| == TotalScaleSize(w, h)
    ensures LevelImage(Pyramid(base, w, h, Scales), w, h, s) == PyramidLevel(base, w, h, s)
  {
    PyramidHoldsLevels(base, w, h, Scales, s);
  }

  /**
   * One `downsample` call of the pyramid loop on one image: with levels
   * `done` and the `nw` by `nh` level `cur` in front of the buffer, the next
   * level is written right after `cur`.
   */
  method DownsampleStep(buf: array<F3>, ghost done: seq<F3>, ghost cur: seq<F3>, index: int, nw: int, nh: int)
    requires nw >= 1 && nh >= 1 && |done| == index && |cur| == nw * nh
    requires index + nw * nh + HalfDim(nw) * HalfDim(nh) <= buf.Length
    requires buf[..index + nw * nh] == done + cur
    modifies buf
    ensures buf[..index + nw * nh + HalfDim(nw) * HalfDim(nh)] == done + cur + DownsampleSpec(cur, nw, nh)
    ensures forall j :: index + nw * nh + HalfDim(nw) * HalfDim(nh) <= j < buf.Length ==> buf[j] == old(buf[j])
  {
    var top := index + nw * nh;
    ghost var before := buf[..];
    SliceOfRight(done, cur);
    assert buf[index .. top] == buf[..top][index .. top];
    DownsampleLevel(buf, index, top, nw, nh);
    PrefixThenBlock(buf[..], before, top, DownsampleSpec(cur, nw, nh), done + cur);
  }

  /** A prefix left alone followed by a block written right after it. */
  lemma PrefixThenBlock(a: seq<F3>, b: seq<F3>, top: int, blk: seq<F3>, pre: seq<F3>)
    requires |a| == |b| && 0 <= top && top + |blk| <= |a|
    requires a[top .. top + |blk|] == blk && b[..top] == pre
    requires forall j :: 0 <= j < |a| && !(top <= j < top + |blk|) ==> a[j] == b[j]
    ensures a[..top + |blk|] == pre + blk
  {
    assert a[..top] == b[..top];
    assert a[..top + |blk|] == a[..top] + a[top .. top + |blk|];
  }

  /** Sizes and contents around one iteration of the pyramid loop, from level `s` to level `s + 1`. */
  lemma PyramidGrows(base: seq<F3>, w: int, h: int, s: nat, index: int, nw: int, nh: int)
    requires w >= 1 && h >= 1 && |base| == w * h && s + 1 < Scales
    requires nw == LevelDim(w, s) && nh == LevelDim(h, s) && index == LevelOffset(w, h, s)
    ensures |Pyramid(base, w, h, s)| == index && |PyramidLevel(base, w, h, s)| == nw * nh
    ensures index + nw * nh == LevelOffset(w, h, s + 1)
    ensures index + nw * nh + HalfDim(nw) * HalfDim(nh) == LevelOffset(w, h, s + 2) <= TotalScaleSize(w, h)
    ensures Pyramid(base, w, h, s + 1) == Pyramid(base, w, h, s) + PyramidLevel(base, w, h, s)
    ensures Pyramid(base, w, h, s + 2) == Pyramid(base, w, h, s + 1) + DownsampleSpec(PyramidLevel(base, w, h, s), nw, nh)
  {
    PyramidSnoc(base, w, h, s);
    PyramidSnoc(base, w, h, s + 1);
    PyramidLength(base, w, h, s);
    LevelOffsetMonotone(w, h, s + 2, Scales);
  }

  /** The buffer holds the first `k` levels over `base` in front. */
  ghost predicate PyramidState(buf: seq<F3>, base: seq<F3>, w: int, h: int, k: nat)
    requires w >= 1 && h >= 1 && |base| == w * h
  {
    LevelOffset(w, h, k) <= |buf| && buf[..LevelOffset(w, h, k)] == Pyramid(base, w, h, k)
  }

  /** One `downsample` call of the pyramid loop: level `scale` of one image from its level `scale - 1`. */
  method PyramidIter(buf: array<F3>, ghost base: seq<F3>, width: int, height: int,
                     scale: int, index: int, nw: int, nh: int)
    requires width >= 1 && height >= 1 && |base| == width * height && 1 <= scale < Scales
    requires nw == LevelDim(width, scale - 1) && nh == LevelDim(height, scale - 1)
    requires index == LevelOffset(width, height, scale - 1)
    requires TotalScaleSize(width, height) <= buf.Length
    requires PyramidState(buf[..], base, width, height, scale)
    modifies buf
    ensures PyramidState(buf[..], base, width, height, scale + 1)
  {
    PyramidGrows(base, width, height, scale - 1, index, nw, nh);
    assert buf[..index + nw * nh] == buf[..][..index + nw * nh];
    DownsampleStep(buf, Pyramid(base, width, height, scale - 1), PyramidLevel(base, width, height, scale - 1), index, nw, nh);
    assert buf[..index + nw * nh + HalfDim(nw) * HalfDim(nh)] == buf[..][..index + nw * nh + HalfDim(nw) * HalfDim(nh)];
  }

  /**
   * Step 1 of `ssimu2GPUProcess`: levels 1 to 5 of both images, each
   * downsampled from the level before it, written right after it. Both
   * buffers are `totalscalesize` long, so the pyramid fills them.
   */
  method BuildPyramids(src1: array<F3>, src2: array<F3>, width: int, height: int)
    requires width >= 1 && height >= 1 && src1 != src2
    requires src1.Length == TotalScaleSize(width, height) && src2.Length == TotalScaleSize(width, height)
    modifies src1, src2
    ensures src1[..] == Pyramid(old(src1[..width * height]), width, height, Scales)
    ensures src2[..] == Pyramid(old(src2[..width * height]), width, height, Scales)
  {
    ghost var b1, b2 := src1[..width * height], src2[..width * height];
    LoopStart(src1[..], src2[..], width, height);
    DownsampleLoop(src1, src2, b1, b2, width, height);
    PyramidEnd(src1[..], b1, width, height);
    PyramidEnd(src2[..], b2, width, height);
  }

  /**
   * What the loop of step 1 keeps before handling `scale`: the level it
   * reads is `nw` by `nh` and starts at `index`, and both buffers hold the
   * levels below `scale`.
   */
  ghost predicate LoopState(s1: seq<F3>, s2: seq<F3>, b1: seq<F3>, b2: seq<F3>, w: int, h: int,
                            scale: int, index: int, nw: int, nh: int)
    requires w >= 1 && h >= 1 && |b1| == w * h && |b2| == w * h
  {
    1 <= scale <= Scales &&
    nw == LevelDim(w, scale - 1) && nh == LevelDim(h, scale - 1) && index == LevelOffset(w, h, scale - 1) &&
    PyramidState(s1, b1, w, h, scale) && PyramidState(s2, b2, w, h, scale)
  }

  /** The body of the loop of step 1 except its three updates: one `downsample` per image. */
  method DownsampleBoth(src1: array<F3>, src2: array<F3>, ghost b1: seq<F3>, ghost b2: seq<F3>,
                        width: int, height: int, scale: int, index: int, nw: int, nh: int)
    requires width >= 1 && height >= 1 && |b1| == width * height && |b2| == width * height && src1 != src2
    requires src1.Length == TotalScaleSize(width, height) && src2.Length == TotalScaleSize(width, height)
    requires scale < Scales && LoopState(src1[..], src2[..], b1, b2, width, height, scale, index, nw, nh)
    modifies src1, src2
    ensures LoopState(src1[..], src2[..], b1, b2, width, height, scale + 1, index + nw * nh, (nw - 1) / 2 + 1, (nh - 1) / 2 + 1)
  {
    PyramidIter(src1, b1, width, height, scale, index, nw, nh);
    PyramidIter(src2, b2, width, height, scale, index, nw, nh);
  }

  /** The loop of step 1, over scales 1 to 5, with the offset and size of the level it reads. */
  method DownsampleLoop(src1: array<F3>, src2: array<F3>, ghost b1: seq<F3>, ghost b2: seq<F3>, width: int, height: int)
    requires width >= 1 && height >= 1 && src1 != src2 && |b1| == width * height && |b2| == width * height
    requires src1.Length == TotalScaleSize(width, height) && src2.Length == TotalScaleSize(width, height)
    requires LoopState(src1[..], src2[..], b1, b2, width, height, 1, 0, width, height)
    modifies src1, src2
    ensures PyramidState(src1[..], b1, width, height, Scales) && PyramidState(src2[..], b2, width, height, Scales)
  {
    var nw, nh, index, scale := width, height, 0, 1;
    while scale < Scales
      invariant LoopState(src1[..], src2[..], b1, b2, width, height, scale, index, nw, nh)
      decreases Scales - scale
    {
      DownsampleBoth(src1, src2, b1, b2, width, height, scale, index, nw, nh);
      index := index + nw * nh;
      nw := (nw - 1) / 2 + 1;
      nh := (nh - 1) / 2 + 1;
      scale := scale + 1;
    }
  }

  lemma LoopStart(s1: seq<F3>, s2: seq<F3>, width: int, height: int)
    requires width >= 1 && height >= 1 && |s1| == TotalScaleSize(width, height) && |s2| == TotalScaleSize(width, height)
    ensures LoopState(s1, s2, s1[..width * height], s2[..width * height], width, height, 1, 0, width, height)
  {
    PyramidStart(s1, width, height);
    PyramidStart(s2, width, height);
  }

  /** Before the loop the buffer holds level 0, the base image. */
  lemma PyramidStart(buf: seq<F3>, width: int, height: int)
    requires width >= 1 && height >= 1 && TotalScaleSize(width, height) <= |buf|
    ensures PyramidState(buf, buf[..width * height], width, height, 1)
  {
    PyramidSnoc(buf[..width * height], width, height, 0);
  }

  /** After the loop the six levels fill the buffer. */
  lemma PyramidEnd(buf: seq<F3>, base: seq<F3>, width: int, height: int)
    requires width >= 1 && height >= 1 && |base| == width * height
    requires |buf| == TotalScaleSize(width, height) && PyramidState(buf, base, width, height, Scales)
    ensures buf == Pyramid(base, width, height, Scales)
  {
    assert buf == buf[..TotalScaleSize(width, height)];
  }

  /* ---------------------------------------------------------------------- */
  /* Step 6 of ssimu2GPUProcess: measure_vec                                 */
  /* ---------------------------------------------------------------------- */

  /**
   * Slot of `measure_vec` for lane `plane` of scale `scale`, norm `n` (0:
   * the sum, 1: the 4-norm) of statistic `i` (the SSIM error and the two
   * edge maps): grouped by plane, then scale, then norm.
   */
  function Slot(plane: int, scale: int, n: int, i: int): int
  {
    plane * 36 + scale * 6 + n * 3 + i
  }

  /** Entry of the score vector for scale `scale`, statistic `i`, norm `n`: grouped by scale, then statistic. */
  function Entry(scale: int, i: int, n: int): int
  {
    scale * 6 + i * 2 + n
  }

  /** The four coordinates of slot `k`. */
  function SlotPlane(k: int): int { k / 36 }
  function SlotScale(k: int): int { k % 36 / 6 }
  function SlotNorm(k: int): int { k % 6 / 3 }
  function SlotStat(k: int): int { k % 3 }

  /** Slot coordinates in range give distinct slots, and each coordinate is read back from the slot. */
  lemma SlotFields(plane: int, scale: int, n: int, i: int)
    requires 0 <= plane < 3 && 0 <= scale < Scales && 0 <= n < 2 && 0 <= i < 3
    ensures 0 <= Slot(plane, scale, n, i) < FinalScore.MeasureCount
    ensures SlotPlane(Slot(plane, scale, n, i)) == plane && SlotScale(Slot(plane, scale, n, i)) == scale
    ensures SlotNorm(Slot(plane, scale, n, i)) == n && SlotStat(Slot(plane, scale, n, i)) == i
  {
    var k := Slot(plane, scale, n, i);
    DivModUnique(36, plane, scale * 6 + n * 3 + i);
    DivModUnique(6, scale, n * 3 + i);
    DivModUnique(6, plane * 6 + scale, n * 3 + i);
    DivModUnique(3, n, i);
    DivModUnique(3, plane * 12 + scale * 2 + n, i);
  }

  /** Every slot is the slot of its coordinates. */
  lemma SlotSplit(k: int)
    requires 0 <= k < FinalScore.MeasureCount
    ensures 0 <= SlotPlane(k) < 3 && 0 <= SlotScale(k) < Scales && 0 <= SlotNorm(k) < 2 && 0 <= SlotStat(k) < 3
    ensures k == Slot(SlotPlane(k), SlotScale(k), SlotNorm(k), SlotStat(k))
  {
    var r := k % 36;
    assert k == 36 * (k / 36) + r;
    assert r == 6 * (r / 6) + r % 6;
    assert k % 6 == r % 6 by { DivModUnique(6, 6 * (k / 36) + r / 6, r % 6); }
    assert k % 3 == r % 6 % 3 by { DivModUnique(3, 12 * (k / 36) + 2 * (r / 6) + r % 6 / 3, r % 6 % 3); }
  }

  /** Entry coordinates in range give distinct entries, each read back from the entry. */
  lemma EntryFields(scale: int, i: int, n: int)
    requires 0 <= scale < Scales && 0 <= i < 3 && 0 <= n < 2
    ensures 0 <= Entry(scale, i, n) < 6 * Scales
    ensures Entry(scale, i, n) / 6 == scale && Entry(scale, i, n) % 6 / 2 == i && Entry(scale, i, n) % 2 == n
  {
    DivModUnique(6, scale, i * 2 + n);
    DivModUnique(2, i, n);
    DivModUnique(2, scale * 3 + i, n);
  }

  /** Every entry is the entry of its coordinates. */
  lemma EntrySplit(q: int)
    requires 0 <= q < 6 * Scales
    ensures 0 <= q / 6 < Scales && 0 <= q % 6 / 2 < 3 && 0 <= q % 2 < 2
    ensures q == Entry(q / 6, q % 6 / 2, q % 2)
  {
    var r := q % 6;
    assert q == 6 * (q / 6) + r;
    assert r == 2 * (r / 2) + r % 2;
    assert q % 2 == r % 2 by { DivModUnique(2, 3 * (q / 6) + r / 2, r % 2); }
  }

  /** Entry of the score vector that slot `k` of `measure_vec` takes its lane from. */
  function SlotEntry(k: int): int
  {
    Entry(SlotScale(k), SlotStat(k), SlotNorm(k))
  }

  /** `measure_vec` as a function of the score vector. */
  function Measures(res: seq<F3>): (m: seq<real>)
    requires |res| == 6 * Scales
    ensures |m| == FinalScore.MeasureCount
  {
    seq(FinalScore.MeasureCount, k requires 0 <= k < FinalScore.MeasureCount =>
      Lane(res[SlotEntry(k)], SlotPlane(k)))
  }

  /** The assignment of the loop nest: slot `(plane, scale, n, i)` holds lane `plane` of entry `scale * 6 + i * 2 + n`. */
  lemma MeasureSlot(res: seq<F3>, plane: int, scale: int, n: int, i: int)
    requires |res| == 6 * Scales
    requires 0 <= plane < 3 && 0 <= scale < Scales && 0 <= n < 2 && 0 <= i < 3
    ensures 0 <= Slot(plane, scale, n, i) < FinalScore.MeasureCount && 0 <= Entry(scale, i, n) < 6 * Scales
    ensures Measures(res)[Slot(plane, scale, n, i)] == Lane(res[Entry(scale, i, n)], plane)
  {
    SlotFields(plane, scale, n, i);
    EntryFields(scale, i, n);
  }

  /** The inverse reordering: entry `q` of the score vector gathered back from its three slots. */
  function Unmeasures(m: seq<real>): (res: seq<F3>)
    requires |m| == FinalScore.MeasureCount
    ensures |res| == 6 * Scales
  {
    seq(6 * Scales, q requires 0 <= q < 6 * Scales =>
      EntrySplit(q);
      SlotFields(0, q / 6, q % 2, q % 6 / 2);
      SlotFields(1, q / 6, q % 2, q % 6 / 2);
      SlotFields(2, q / 6, q % 2, q % 6 / 2);
      F3(m[Slot(0, q / 6, q % 2, q % 6 / 2)], m[Slot(1, q / 6, q % 2, q % 6 / 2)], m[Slot(2, q / 6, q % 2, q % 6 / 2)]))
  }

  /** No lane of the score vector is lost or duplicated by the reordering: gathering the slots back gives the vector. */
  lemma MeasuresRoundTrip(res: seq<F3>)
    requires |res| == 6 * Scales
    ensures Unmeasures(Measures(res)) == res
  {
    var m := Measures(res);
    forall q | 0 <= q < 6 * Scales
      ensures Unmeasures(m)[q] == res[q]
    {
      EntrySplit(q);
      MeasureSlot(res, 0, q / 6, q % 2, q % 6 / 2);
      MeasureSlot(res, 1, q / 6, q % 2, q % 6 / 2);
      MeasureSlot(res, 2, q / 6, q % 2, q % 6 / 2);
    }
  }

  /** Every slot of `measure_vec` is filled: scattering a gathered vector gives back the 108 measures. */
  lemma UnmeasuresRoundTrip(m: seq<real>)
    requires |m| == FinalScore.MeasureCount
    ensures Measures(Unmeasures(m)) == m
  {
    var res := Unmeasures(m);
    forall k | 0 <= k < FinalScore.MeasureCount
      ensures Measures(res)[k] == m[k]
    {
      SlotSplit(k);
      var plane, scale, n, i := SlotPlane(k), SlotScale(k), SlotNorm(k), SlotStat(k);
      MeasureSlot(res, plane, scale, n, i);
      EntryFields(scale, i, n);
    }
  }

  /** `m` holds lane `plane` of entry `(scale, i, n)` of `res` at every slot `(plane, scale, n, i)`. */
  ghost predicate Laid(m: seq<real>, res: seq<F3>)
  {
    |m| == FinalScore.MeasureCount && |res| == 6 * Scales &&
    forall plane, scale, n, i {:trigger m[Slot(plane, scale, n, i)]}
      | 0 <= plane < 3 && 0 <= scale < Scales && 0 <= n < 2 && 0 <= i < 3 ::
      0 <= Slot(plane, scale, n, i) < |m| && 0 <= Entry(scale, i, n) < |res| &&
      m[Slot(plane, scale, n, i)] == Lane(res[Entry(scale, i, n)], plane)
  }

  /** The measure vector is laid out slot by slot as the loop nest of step 6 writes it. */
  lemma MeasuresLaid(res: seq<F3>)
    requires |res| == 6 * Scales
    ensures Laid(Measures(res), res)
  {
    forall plane, scale, n, i | 0 <= plane < 3 && 0 <= scale < Scales && 0 <= n < 2 && 0 <= i < 3
      ensures 0 <= Slot(plane, scale, n, i) < FinalScore.MeasureCount && 0 <= Entry(scale, i, n) < 6 * Scales
      ensures Measures(res)[Slot(plane, scale, n, i)] == Lane(res[Entry(scale, i, n)], plane)
    {
      MeasureSlot(res, plane, scale, n, i);
    }
  }

  /** The first `k` entries of `a` are those of `m`. */
  ghost predicate Filled(a: seq<real>, m: seq<real>, k: int)
  {
    0 <= k <= |a| && k <= |m| && forall j :: 0 <= j < k ==> a[j] == m[j]
  }

  /**
   * The body of the loop nest of step 6: of its three guarded stores the
   * one for `plane` runs, so slot `(plane, scale, n, i)` receives lane
   * `plane` of entry `(scale, i, n)` and no other slot changes.
   */
  method StoreMeasure(mv: seq<real>, res: seq<F3>, plane: int, scale: int, n: int, i: int) returns (mv': seq<real>)
    requires |mv| == FinalScore.MeasureCount && |res| == 6 * Scales
    requires 0 <= plane < 3 && 0 <= scale < Scales && 0 <= n < 2 && 0 <= i < 3
    ensures 0 <= Slot(plane, scale, n, i) < FinalScore.MeasureCount && 0 <= Entry(scale, i, n) < 6 * Scales
    ensures mv' == mv[Slot(plane, scale, n, i) := Lane(res[Entry(scale, i, n)], plane)]
  {
    mv' := mv;
    if plane == 0 { mv' := mv'[plane * 6 * 2 * 3 + scale * 2 * 3 + n * 3 + i := res[scale * 2 * 3 + i * 2 + n].x]; }
    if plane == 1 { mv' := mv'[plane * 6 * 2 * 3 + scale * 2 * 3 + n * 3 + i := res[scale * 2 * 3 + i * 2 + n].y]; }
    if plane == 2 { mv' := mv'[plane * 6 * 2 * 3 + scale * 2 * 3 + n * 3 + i := res[scale * 2 * 3 + i * 2 + n].z]; }
  }

  /** One turn of the innermost loop of step 6 fills the next slot. */
  method StoreNext(mv: seq<real>, res: seq<F3>, plane: int, scale: int, n: int, i: int, ghost m: seq<real>) returns (mv': seq<real>)
    requires |mv| == FinalScore.MeasureCount && |res| == 6 * Scales && Laid(m, res)
    requires 0 <= plane < 3 && 0 <= scale < Scales && 0 <= n < 2 && 0 <= i < 3
    requires Filled(mv, m, Slot(plane, scale, n, i))
    ensures |mv'| == FinalScore.MeasureCount && Filled(mv', m, Slot(plane, scale, n, i) + 1)
  {
    mv' := StoreMeasure(mv, res, plane, scale, n, i);
  }

  /** The loops over scale, norm and statistic for one plane. */
  method FormatPlane(mv: seq<real>, res: seq<F3>, plane: int, ghost m: seq<real>) returns (mv': seq<real>)
    requires |mv| == FinalScore.MeasureCount && |res| == 6 * Scales && 0 <= plane < 3 && Laid(m, res)
    requires Filled(mv, m, Slot(plane, 0, 0, 0))
    ensures |mv'| == FinalScore.MeasureCount && Filled(mv', m, Slot(plane + 1, 0, 0, 0))
  {
    mv' := mv;
    for scale := 0 to Scales
      invariant |mv'| == FinalScore.MeasureCount && Filled(mv', m, Slot(plane, scale, 0, 0))
    {
      mv' := FormatScale(mv', res, plane, scale, m);
    }
  }

  /** The loops over norm and statistic for one plane and scale. */
  method FormatScale(mv: seq<real>, res: seq<F3>, plane: int, scale: int, ghost m: seq<real>) returns (mv': seq<real>)
    requires |mv| == FinalScore.MeasureCount && |res| == 6 * Scales && 0 <= plane < 3 && 0 <= scale < Scales
    requires Laid(m, res) && Filled(mv, m, Slot(plane, scale, 0, 0))
    ensures |mv'| == FinalScore.MeasureCount && Filled(mv', m, Slot(plane, scale + 1, 0, 0))
  {
    mv' := mv;
    for n := 0 to 2
      invariant |mv'| == FinalScore.MeasureCount && Filled(mv', m, Slot(plane, scale, n, 0))
    {
      for i := 0 to 3
        invariant |mv'| == FinalScore.MeasureCount && Filled(mv', m, Slot(plane, scale, n, i))
      {
        mv' := StoreNext(mv', res, plane, scale, n, i, m);
      }
    }
  }

  /**
   * The loop nest of step 6: for plane, scale, norm and statistic in that
   * order, one lane of the score vector into the next slot of a zeroed
   * 108-entry vector.
   */
  method FormatMeasures(res: seq<F3>) returns (mv: seq<real>)
    requires |res| == 6 * Scales
    ensures mv == Measures(res)
  {
    ghost var m := Measures(res);
    MeasuresLaid(res);
    mv := FormatPlanes(seq(FinalScore.MeasureCount, k => 0.0), res, m);
    FilledAll(mv, m);
  }

  /** The loop over the three planes, filling the zeroed vector with `m`. */
  method FormatPlanes(zero: seq<real>, res: seq<F3>, ghost m: seq<real>) returns (mv: seq<real>)
    requires |zero| == FinalScore.MeasureCount && |res| == 6 * Scales && Laid(m, res)
    ensures |mv| == FinalScore.MeasureCount && Filled(mv, m, Slot(3, 0, 0, 0))
  {
    mv := zero;
    for plane := 0 to 3
      invariant |mv| == FinalScore.MeasureCount && Filled(mv, m, 36 * plane)
    {
      mv := FormatPlane(mv, res, plane, m);
    }
  }

  /** A sequence filled up to the length of `m` is `m`. */
  lemma FilledAll(a: seq<real>, m: seq<real>)
    requires |a| == |m| && Filled(a, m, |m|)
    ensures a == m
  {}

  /* ---------------------------------------------------------------------- */
  /* ssimu2GPUProcess                                                        */
  /* ---------------------------------------------------------------------- */

  /** Step 2 on a whole buffer: every pixel taken to positive XYB. */
  function XybAll(im: seq<F3>, cbrt: real -> real): (r: seq<F3>)
    ensures |r| == |im|
  {
    seq(|im|, x requires 0 <= x < |im| => RgbToPositiveXybPixel(im[x], cbrt))
  }

  /** The 36 score vectors of two linear RGB base images: pyramids, positive XYB, then `allscore_map`. */
  function PipelineScores(base1: seq<F3>, base2: seq<F3>, w: int, h: int, g: seq<real>,
                          sqrt: real -> real, cbrt: real -> real): (r: seq<F3>)
    requires w >= 1 && h >= 1 && |base1| == w * h && |base2| == w * h && |g| == TableLength
    ensures |r| == 6 * Scales
  {
    PyramidLength(base1, w, h, Scales);
    PyramidLength(base2, w, h, Scales);
    ScoreVector(XybAll(Pyramid(base1, w, h, Scales), cbrt), XybAll(Pyramid(base2, w, h, Scales), cbrt), w, h, g, sqrt)
  }

  /** What `ssimu2GPUProcess` returns for two linear RGB base images. */
  function Ssimu2Score(base1: seq<F3>, base2: seq<F3>, w: int, h: int, g: seq<real>,
                       sqrt: real -> real, cbrt: real -> real, pow: (real, real) -> real): real
    requires w >= 1 && h >= 1 && |base1| == w * h && |base2| == w * h && |g| == TableLength
  {
    FinalScore.WeightsLength();
    FinalScore.Score(FinalScore.Weights, Measures(PipelineScores(base1, base2, w, h, g, sqrt, cbrt)), pow)
  }

  /**
   * The score never exceeds 100, and it is below 100 exactly when some
   * measure with a positive weight is positive: the measures are sums and
   * 4-norms, hence non-negative, when `sqrt` is a square root.
   */
  lemma Ssimu2ScoreAtMost100(base1: seq<F3>, base2: seq<F3>, w: int, h: int, g: seq<real>,
                             sqrt: real -> real, cbrt: real -> real, pow: (real, real) -> real)
    requires w >= 1 && h >= 1 && |base1| == w * h && |base2| == w * h && |g| == TableLength
    requires IsSqrt(sqrt) && forall x: real :: x > 0.0 ==> pow(x, FinalScore.Exponent) > 0.0
    ensures Ssimu2Score(base1, base2, w, h, g, sqrt, cbrt, pow) <= 100.0
    ensures Ssimu2Score(base1, base2, w, h, g, sqrt, cbrt, pow) < 100.0 <==>
            FinalScore.WeightedSum(FinalScore.Weights, Measures(PipelineScores(base1, base2, w, h, g, sqrt, cbrt)),
                                   FinalScore.MeasureCount) > 0.0
  {
    var res := PipelineScores(base1, base2, w, h, g, sqrt, cbrt);
    PyramidLength(base1, w, h, Scales);
    PyramidLength(base2, w, h, Scales);
    var m := Measures(res);
    forall k | 0 <= k < FinalScore.MeasureCount
      ensures m[k] >= 0.0
    {
      SlotSplit(k);
      MeasureSlot(res, SlotPlane(k), SlotScale(k), SlotNorm(k), SlotStat(k));
      ScoreVectorNorms(XybAll(Pyramid(base1, w, h, Scales), cbrt), XybAll(Pyramid(base2, w, h, Scales), cbrt),
                       w, h, g, sqrt, Entry(SlotScale(k), SlotStat(k), SlotNorm(k)));
    }
    FinalScore.ScoreBelowPerfect(m, pow);
  }

  /** Steps 2 to 7 on the two pyramids: positive XYB in place, the score vectors, the reordering and the final score. */
  method ScorePyramids(src1: array<F3>, src2: array<F3>, temp: array<F3>, pinned: array<F3>,
                       width: int, height: int, totalscalesize: int, g: seq<real>, maxshared: int,
                       sqrt: real -> real, cbrt: real -> real, pow: (real, real) -> real,
                       ghost b1: seq<F3>, ghost b2: seq<F3>)
    returns (res: real)
    requires width >= 1 && height >= 1 && |b1| == width * height && |b2| == width * height && IsTable(g)
    requires totalscalesize == TotalScaleSize(width, height)
    requires src1.Length == totalscalesize && src2.Length == totalscalesize
    requires src1 != src2 && src1 != temp && src1 != pinned && src2 != temp && src2 != pinned && temp != pinned
    requires PassesRun(maxshared, BlockCount(width, height))
    requires ScratchNeed(width, height, maxshared, Scales) <= temp.Length
    requires ScaleOffset(width, height, maxshared, Scales) <= pinned.Length
    requires src1[..] == Pyramid(b1, width, height, Scales) && src2[..] == Pyramid(b2, width, height, Scales)
    modifies src1, src2, temp, pinned
    ensures res == Ssimu2Score(b1, b2, width, height, g, sqrt, cbrt, pow)
  {
    ghost var p1, p2 := src1[..], src2[..];
    RgbToPositiveXyb(src1, totalscalesize, cbrt);
    RgbToPositiveXyb(src2, totalscalesize, cbrt);
    assert src1[..] == XybAll(p1, cbrt);
    assert src2[..] == XybAll(p2, cbrt);
    var allscoreRes := AllScoreMap(src1[..], src2[..], temp, pinned, width, height, maxshared, g, sqrt);
    var measureVec := FormatMeasures(allscoreRes);
    res := FinalScore.ComputeScore(measureVec, pow);
  }

  /** The linear RGB image in front of a pyramid buffer: level 0. */
  function BaseLevel(buf: seq<F3>, w: int, h: int): (r: seq<F3>)
    requires w >= 1 && h >= 1 && |buf| == TotalScaleSize(w, h)
    ensures |r| == w * h
  {
    buf[..w * h]
  }

  /**
   * `ssimu2GPUProcess`: both buffers hold a linear RGB image in front and
   * are `totalscalesize` long; the result is the score of the two images.
   */
  method Ssimu2GpuProcess(src1: array<F3>, src2: array<F3>, temp: array<F3>, pinned: array<F3>,
                          width: int, height: int, g: seq<real>, maxshared: int,
                          sqrt: real -> real, cbrt: real -> real, pow: (real, real) -> real)
    returns (res: real)
    requires width >= 1 && height >= 1 && IsTable(g)
    requires src1.Length == TotalScaleSize(width, height) && src2.Length == TotalScaleSize(width, height)
    requires src1 != src2 && src1 != temp && src1 != pinned && src2 != temp && src2 != pinned && temp != pinned
    requires PassesRun(maxshared, BlockCount(width, height))
    requires ScratchNeed(width, height, maxshared, Scales) <= temp.Length
    requires ScaleOffset(width, height, maxshared, Scales) <= pinned.Length
    modifies src1, src2, temp, pinned
    ensures res == Ssimu2Score(BaseLevel(old(src1[..]), width, height), BaseLevel(old(src2[..]), width, height),
                               width, height, g, sqrt, cbrt, pow)
  {
    ghost var b1, b2 := BaseLevel(src1[..], width, height), BaseLevel(src2[..], width, height);
    var totalscalesize := GetTotalScaleSize(width, height);
    BuildPyramids(src1, src2, width, height);
    res := ScorePyramids(src1, src2, temp, pinned, width, height, totalscalesize, g, maxshared, sqrt, cbrt, pow, b1, b2);
  }

  /* ---------------------------------------------------------------------- */
  /* ssimu2process                                                           */
  /* ---------------------------------------------------------------------- */

  /** `sizeof(TVec3<f32>)`. */
  const Float3Bytes: int := 16

  /**
   * Bytes of the scratch region of `ssimu2process`'s device block,
   * `max(float3_block, three_planes)`: room for a float3 buffer of
   * `totalscalesize` entries and for the three staged planes.
   */
  function ScratchBytes(w: int, h: int, stride: int): (r: int)
    requires w >= 1 && h >= 1
    ensures r >= Float3Bytes * TotalScaleSize(w, h) && r >= 3 * (stride * h)
  {
    Max(Float3Bytes * TotalScaleSize(w, h), 3 * (stride * h))
  }

  /** The device block `[ src1 | src2 | scratch ]` of `ssimu2process`. */
  function TotalBytes(w: int, h: int, stride: int): (r: int)
    requires w >= 1 && h >= 1
    ensures r == 2 * (Float3Bytes * TotalScaleSize(w, h)) + ScratchBytes(w, h, stride)
  {
    2 * (Float3Bytes * TotalScaleSize(w, h)) + Max(Float3Bytes * TotalScaleSize(w, h), 3 * (stride * h))
  }

  /**
   * The two images and the scratch do not overlap inside the block, and
   * the three planes staged at the scratch's start, one after the other,
   * stay inside it.
   */
  lemma BlockLayout(w: int, h: int, stride: int, k: int)
    requires w >= 1 && h >= 1 && stride >= 0 && 0 <= k < 3
    ensures var fb := Float3Bytes * TotalScaleSize(w, h);
            fb <= 2 * fb <= 2 * fb + (k + 1) * (stride * h) <= TotalBytes(w, h, stride)
  {
    MulMono(k + 1, 3, stride * h);
  }

  /** Float3 entries the scratch holds when `ssimu2GPUProcess` takes it as `temp_d`, as written. */
  function ScratchFloat3s(w: int, h: int, stride: int): (r: int)
    requires w >= 1 && h >= 1
    ensures r >= TotalScaleSize(w, h)
    ensures Float3Bytes * r <= ScratchBytes(w, h, stride) < Float3Bytes * (r + 1)
  {
    ScratchBytes(w, h, stride) / Float3Bytes
  }

  /** A one-pixel image has six one-pixel levels. */
  lemma {:induction false} OnePixelLevels(k: nat)
    ensures LevelDim(1, k) == 1 && LevelOffset(1, 1, k) == k
  {
    if k > 0 { OnePixelLevels(k - 1); }
  }

  /** For a one-pixel image every level leaves one record, of six entries, and touches six scratch entries. */
  lemma {:induction false} OnePixelScratch(maxshared: int, k: nat)
    requires PassesRun(maxshared, BlockCount(1, 1))
    ensures ScaleOffset(1, 1, maxshared, k) == 6 * k && ScratchNeed(1, 1, maxshared, k) == 6 * k
  {
    if k > 0 {
      OnePixelScratch(maxshared, k - 1);
      OnePixelLevels(k - 1);
      assert LevelBlocks(1, 1, k - 1) == 1 by { assert BlockCount(1, 1) == 1; }
      var th := PassThreads(maxshared, 1);
      assert LevelPartials(1, 1, maxshared, k - 1) == Remaining(1, th) == 1;
      assert LevelReach(1, 1, maxshared, k - 1) == ScaleReach(1, th) == 6;
    }
  }

  /** For a one-pixel image with 64-byte rows the scratch as written is 192 bytes: 12 float3. */
  lemma OnePixelScratchAsWritten()
    ensures ScratchFloat3s(1, 1, 64) == 12
  {
    var total := TotalScaleSize(1, 1);
    assert total == 6 by { OnePixelLevels(Scales); }
    var bytes := ScratchBytes(1, 1, 64);
    assert bytes == Max(Float3Bytes * total, 3 * (64 * 1));
    assert bytes == 192;
  }

  /**
   * For a one-pixel image with 64-byte rows, the scratch as written holds
   * fewer float3 than the 36 `allscore_map` writes, whatever the local
   * memory size.
   */
  lemma ScratchTooSmall(maxshared: int)
    requires PassesRun(maxshared, BlockCount(1, 1))
    ensures ScratchFloat3s(1, 1, 64) < ScratchNeed(1, 1, maxshared, Scales)
  {
    OnePixelScratchAsWritten();
    OnePixelScratch(maxshared, Scales);
  }

  /** Scratch sized for the staged planes, the float3 block and what `allscore_map` writes. */
  function ScratchFloat3sFixed(w: int, h: int, stride: int, maxshared: int): (r: int)
    requires w >= 1 && h >= 1 && PassesRun(maxshared, BlockCount(w, h))
    ensures r >= TotalScaleSize(w, h) && Float3Bytes * r >= 3 * (stride * h)
    ensures r >= ScratchNeed(w, h, maxshared, Scales)
  {
    var planes := if stride * h >= 1 then CeilDiv(3 * (stride * h), Float3Bytes) else 0;
    Max(Max(TotalScaleSize(w, h), planes), ScratchNeed(w, h, maxshared, Scales))
  }

  /** The three host planes of one image, each at least `height` rows of `stride` bytes. */
  predicate HostPlanes(t: InputMemType, planes: seq<seq<Byte>>, stride: int, width: int, height: int)
  {
    width >= 1 && height >= 1 && ElemBytes(t) * width <= stride && |planes| == 3 &&
    forall k :: 0 <= k < 3 ==> stride * height <= |planes[k]|
  }

  /** Plane `k` as copied to the device: its first `stride * height` bytes. */
  function Staged(planes: seq<seq<Byte>>, k: int, stride: int, height: int): seq<Byte>
    requires 0 <= k < |planes| && 0 <= stride * height <= |planes[k]|
  {
    planes[k][..stride * height]
  }

  /** The linear RGB image `ssimu2process` hands over: packed from the staged planes, then linearised. */
  function InputImage(t: InputMemType, planes: seq<seq<Byte>>, stride: int, width: int, height: int,
                      dec: FloatDecoders, pow: (real, real) -> real): (r: seq<F3>)
    requires HostPlanes(t, planes, stride, width, height)
    ensures |r| == width * height
  {
    var p0, p1, p2 := Staged(planes, 0, stride, height), Staged(planes, 1, stride, height), Staged(planes, 2, stride, height);
    seq(width * height, x requires 0 <= x < width * height =>
      RgbToLinrgb(OrganizedPixel(t, p0, p1, p2, stride, width, height, x, dec), pow))
  }

  /** `memoryorganizer` then `rgb_to_linear` leave the linear RGB image in front of the buffer. */
  lemma PackedThenLinear(t: InputMemType, planes: seq<seq<Byte>>, stride: int, width: int, height: int,
                         dec: FloatDecoders, pow: (real, real) -> real, packed: seq<F3>, lin: seq<F3>)
    requires HostPlanes(t, planes, stride, width, height)
    requires |packed| == |lin| == TotalScaleSize(width, height)
    requires forall x :: 0 <= x < width * height ==>
               packed[x] == OrganizedPixel(t, Staged(planes, 0, stride, height), Staged(planes, 1, stride, height),
                                           Staged(planes, 2, stride, height), stride, width, height, x, dec)
    requires forall x :: 0 <= x < |lin| ==> lin[x] == RgbToLinrgb(packed[x], pow)
    ensures BaseLevel(lin, width, height) == InputImage(t, planes, stride, width, height, dec, pow)
  {
  }

  /**
   * `ssimu2process<T>`: both images packed into `totalscalesize` buffers
   * from their staged planes and linearised, then scored by
   * `ssimu2GPUProcess` with the scratch as `temp_d`.
   */
  method Ssimu2Process(t: InputMemType, srcp1: seq<seq<Byte>>, srcp2: seq<seq<Byte>>, pinned: array<F3>,
                       stride: int, width: int, height: int, g: seq<real>, maxshared: int, dec: FloatDecoders,
                       sqrt: real -> real, cbrt: real -> real, pow: (real, real) -> real)
    returns (res: real)
    requires HostPlanes(t, srcp1, stride, width, height) && HostPlanes(t, srcp2, stride, width, height)
    requires IsTable(g) && PassesRun(maxshared, BlockCount(width, height))
    requires ScaleOffset(width, height, maxshared, Scales) <= pinned.Length
    modifies pinned
    ensures res == Ssimu2Score(InputImage(t, srcp1, stride, width, height, dec, pow),
                               InputImage(t, srcp2, stride, width, height, dec, pow),
                               width, height, g, sqrt, cbrt, pow)
  {
    var totalscalesize := GetTotalScaleSize(width, height);
    var planeBytes := stride * height;
    MulMono(0, stride, height);
    var src1 := new F3[totalscalesize](_ => Zero);
    var src2 := new F3[totalscalesize](_ => Zero);
    var temp := new F3[ScratchFloat3sFixed(width, height, stride, maxshared)](_ => Zero);
    MemoryOrganizer(src1, t, Staged(srcp1, 0, stride, height), Staged(srcp1, 1, stride, height),
                    Staged(srcp1, 2, stride, height), stride, width, height, dec);
    MemoryOrganizer(src2, t, Staged(srcp2, 0, stride, height), Staged(srcp2, 1, stride, height),
                    Staged(srcp2, 2, stride, height), stride, width, height, dec);
    ghost var packed1, packed2 := src1[..], src2[..];
    RgbToLinear(src1, totalscalesize, pow);
    RgbToLinear(src2, totalscalesize, pow);
    PackedThenLinear(t, srcp1, stride, width, height, dec, pow, packed1, src1[..]);
    PackedThenLinear(t, srcp2, stride, width, height, dec, pow, packed2, src2[..]);
    res := Ssimu2GpuProcess(src1, src2, temp, pinned, width, height, g, maxshared, sqrt, cbrt, pow);
  }

  /* ---------------------------------------------------------------------- */
  /* SSIMU2ComputingImplementation                                           */
  /* ---------------------------------------------------------------------- */

  /**
   * One comparison context: the image size, the device's local memory
   * size, the Gaussian table of the handle and the pinned host buffer the
   * score vectors come back through, all set once by `init` and shared by
   * every `run`.
   */
  class Ssimu2Computing {
    var width: int
    var height: int
    var maxshared: int
    var gaussian: array<real>
    var pinned: array<F3>

    /** What `init` establishes and every `run` relies on. */
    ghost predicate Valid()
      reads this, gaussian
    {
      width >= 1 && height >= 1 && IsTable(gaussian[..]) && PassesRun(maxshared, BlockCount(width, height)) &&
      ScaleOffset(width, height, maxshared, Scales) <= pinned.Length
    }

    /**
     * The constructor followed by `init(w, h)`: the Gaussian table, the
     * local memory size the device reports, and a pinned buffer of the
     * size the score maps copy back.
     */
    constructor Init(w: int, h: int, localMemSize: int, exp: real -> real, sqrt: real -> real)
      requires w >= 1 && h >= 1 && PassesRun(localMemSize, BlockCount(w, h))
      requires sqrt(Tau * Sigma * Sigma) != 0.0
      ensures Valid() && fresh(gaussian) && fresh(pinned)
      ensures width == w && height == h && maxshared == localMemSize
      ensures pinned.Length == ScaleOffset(w, h, localMemSize, Scales)
    {
      width := w;
      height := h;
      var g := new real[TableLength];
      InitIntegral(g, exp, sqrt);
      gaussian := g;
      maxshared := localMemSize;
      var pinnedsize := AllocSizeScoreFixed(w, h, localMemSize);
      pinned := new F3[pinnedsize](_ => Zero);
    }

    /** `run<T>`: the score of two images given as three planes each. */
    method Run(t: InputMemType, srcp1: seq<seq<Byte>>, srcp2: seq<seq<Byte>>, stride: int, dec: FloatDecoders,
               sqrt: real -> real, cbrt: real -> real, pow: (real, real) -> real)
      returns (res: real)
      requires Valid()
      requires HostPlanes(t, srcp1, stride, width, height) && HostPlanes(t, srcp2, stride, width, height)
      modifies pinned
      ensures Valid()
      ensures res == Ssimu2Score(InputImage(t, srcp1, stride, width, height, dec, pow),
                                 InputImage(t, srcp2, stride, width, height, dec, pow),
                                 width, height, gaussian[..], sqrt, cbrt, pow)
    {
      res := Ssimu2Process(t, srcp1, srcp2, pinned, stride, width, height, gaussian[..], maxshared, dec, sqrt, cbrt, pow);
    }
  }
}
