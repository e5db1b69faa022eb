/**
 * The 2x box downsampling that builds the six-level pyramid
 * (src/ssimu2/downsample.hpp).
 *
 * A level of `w` by `h` pixels becomes one of `HalfDim(w)` by `HalfDim(h)`
 * pixels; each new pixel is the mean of a 2x2 block whose coordinates are
 * clamped to the last row and column, so an odd edge is averaged with itself.
 * Images are row-major sequences of pixels.
 */
module Downsample {
  import opened Geometry
  import opened Float3

  /** Row-major index of pixel (r, c) of a `w` by `h` image, with `r` and `c` clamped to the image. */
  function ClampIndex(w: int, h: int, r: int, c: int): (k: int)
    requires w >= 1 && h >= 1 && r >= 0 && c >= 0
    ensures 0 <= k < w * h
  {
    RowMajorBound(Min(r, h - 1), Min(c, w - 1), w, h);
    Min(r, h - 1) * w + Min(c, w - 1)
  }

  /** Pixel (r, c) of a row-major `w`-wide image, with `r` and `c` clamped to the image. */
  function Clamped(src: seq<F3>, w: int, h: int, r: int, c: int): F3
    requires w >= 1 && h >= 1 && |src| == w * h && r >= 0 && c >= 0
  {
    src[ClampIndex(w, h, r, c)]
  }

  /** The new pixel (x, y): the four clamped samples summed in the kernel's order, then scaled by 0.25. */
  function DownsampleAt(src: seq<F3>, w: int, h: int, x: int, y: int): F3
    requires w >= 1 && h >= 1 && |src| == w * h && x >= 0 && y >= 0
  {
    var sum := Add(Add(Add(Clamped(src, w, h, 2 * y, 2 * x), Clamped(src, w, h, 2 * y + 1, 2 * x)),
                       Clamped(src, w, h, 2 * y, 2 * x + 1)),
                   Clamped(src, w, h, 2 * y + 1, 2 * x + 1));
    Scale(sum, 0.25)
  }

  /** Row `y` of the downsampled level. */
  function DownsampleRowSpec(src: seq<F3>, w: int, h: int, y: int): (r: seq<F3>)
    requires w >= 1 && h >= 1 && |src| == w * h && y >= 0
    ensures |r| == HalfDim(w)
    ensures forall x :: 0 <= x < |r| ==> r[x] == DownsampleAt(src, w, h, x, y)
  {
    seq(HalfDim(w), x requires 0 <= x < HalfDim(w) => DownsampleAt(src, w, h, x, y))
  }

  /** The first `k` rows of the downsampled level, back to back. */
  function DownsampleRows(src: seq<F3>, w: int, h: int, k: nat): seq<F3>
    requires w >= 1 && h >= 1 && |src| == w * h
  {
    if k == 0 then [] else DownsampleRows(src, w, h, k - 1) + DownsampleRowSpec(src, w, h, k - 1)
  }

  /** `k` rows hold `k * HalfDim(w)` pixels. */
  lemma {:induction false} DownsampleRowsLength(src: seq<F3>, w: int, h: int, k: nat)
    requires w >= 1 && h >= 1 && |src| == w * h
    ensures |DownsampleRows(src, w, h, k)| == k * HalfDim(w)
  {
    if k > 0 {
      DownsampleRowsLength(src, w, h, k - 1);
      assert (k - 1) * HalfDim(w) + HalfDim(w) == k * HalfDim(w);
    }
  }

  /** The whole downsampled level: `HalfDim(h)` rows of `HalfDim(w)` pixels. */
  function DownsampleSpec(src: seq<F3>, w: int, h: int): (r: seq<F3>)
    requires w >= 1 && h >= 1 && |src| == w * h
    ensures |r| == HalfDim(w) * HalfDim(h)
  {
    DownsampleRowsLength(src, w, h, HalfDim(h));
    DownsampleRows(src, w, h, HalfDim(h))
  }

  /** Pixel (x, y) of the downsampled level sits at the row-major index `y * HalfDim(w) + x`. */
  lemma {:induction false} DownsampleRowsIndex(src: seq<F3>, w: int, h: int, k: nat, x: int, y: int)
    requires w >= 1 && h >= 1 && |src| == w * h
    requires 0 <= y < k && 0 <= x < HalfDim(w)
    ensures y * HalfDim(w) + x < |DownsampleRows(src, w, h, k)|
    ensures DownsampleRows(src, w, h, k)[y * HalfDim(w) + x] == DownsampleAt(src, w, h, x, y)
  {
    var prev := DownsampleRows(src, w, h, k - 1);
    DownsampleRowsLength(src, w, h, k - 1);
    if y < k - 1 {
      DownsampleRowsIndex(src, w, h, k - 1, x, y);
    } else {
      assert y * HalfDim(w) == |prev|;
    }
  }

  /** Lane-wise bounds: every lane of `a` lies between the same lane of `lo` and of `hi`. */
  predicate InBox(a: F3, lo: F3, hi: F3)
  {
    lo.x <= a.x <= hi.x && lo.y <= a.y <= hi.y && lo.z <= a.z <= hi.z
  }

  lemma DownsampleAtInBox(src: seq<F3>, w: int, h: int, x: int, y: int, lo: F3, hi: F3)
    requires w >= 1 && h >= 1 && |src| == w * h && x >= 0 && y >= 0
    requires forall i :: 0 <= i < |src| ==> InBox(src[i], lo, hi)
    ensures InBox(DownsampleAt(src, w, h, x, y), lo, hi)
  {
    var a, b := Clamped(src, w, h, 2 * y, 2 * x), Clamped(src, w, h, 2 * y + 1, 2 * x);
    var c, d := Clamped(src, w, h, 2 * y, 2 * x + 1), Clamped(src, w, h, 2 * y + 1, 2 * x + 1);
    assert InBox(a, lo, hi) && InBox(b, lo, hi) && InBox(c, lo, hi) && InBox(d, lo, hi);
  }

  lemma {:induction false} DownsampleRowsInBox(src: seq<F3>, w: int, h: int, k: nat, lo: F3, hi: F3)
    requires w >= 1 && h >= 1 && |src| == w * h
    requires forall i :: 0 <= i < |src| ==> InBox(src[i], lo, hi)
    ensures forall i :: 0 <= i < |DownsampleRows(src, w, h, k)| ==> InBox(DownsampleRows(src, w, h, k)[i], lo, hi)
  {
    if k > 0 {
      DownsampleRowsInBox(src, w, h, k - 1, lo, hi);
      var row := DownsampleRowSpec(src, w, h, k - 1);
      forall x | 0 <= x < |row|
        ensures InBox(row[x], lo, hi)
      {
        DownsampleAtInBox(src, w, h, x, k - 1, lo, hi);
      }
    }
  }

  /**
   * Downsampling never leaves the lane-wise range of the source: every new
   * pixel is a mean of source pixels.
   */
  lemma DownsamplePreservesRange(src: seq<F3>, w: int, h: int, lo: F3, hi: F3)
    requires w >= 1 && h >= 1 && |src| == w * h
    requires forall i :: 0 <= i < |src| ==> InBox(src[i], lo, hi)
    ensures forall i :: 0 <= i < |DownsampleSpec(src, w, h)| ==> InBox(DownsampleSpec(src, w, h)[i], lo, hi)
  {
    DownsampleRowsInBox(src, w, h, HalfDim(h), lo, hi);
  }

  /** A flat image stays flat, with the same colour. */
  lemma DownsampleConstant(src: seq<F3>, w: int, h: int, c: F3)
    requires w >= 1 && h >= 1 && |src| == w * h
    requires forall i :: 0 <= i < |src| ==> src[i] == c
    ensures forall i :: 0 <= i < |DownsampleSpec(src, w, h)| ==> DownsampleSpec(src, w, h)[i] == c
  {
    assert forall i :: 0 <= i < |src| ==> InBox(src[i], c, c);
    DownsamplePreservesRange(src, w, h, c, c);
  }

  /**
   * On an odd width the last new column sits on the last source column: its
   * 2x2 block is that column's two rows, each counted twice.
   */
  lemma DownsampleOddLastColumn(src: seq<F3>, w: int, h: int, y: int)
    requires w >= 1 && h >= 1 && |src| == w * h && w % 2 == 1 && 0 <= y < HalfDim(h)
    ensures DownsampleAt(src, w, h, HalfDim(w) - 1, y)
         == Scale(Add(Add(Add(Clamped(src, w, h, 2 * y, w - 1), Clamped(src, w, h, 2 * y + 1, w - 1)),
                          Clamped(src, w, h, 2 * y, w - 1)),
                      Clamped(src, w, h, 2 * y + 1, w - 1)), 0.25)
  {
    assert 2 * (HalfDim(w) - 1) == w - 1;
  }

  lemma DownsampleAtAdditive(a: seq<F3>, b: seq<F3>, s: seq<F3>, w: int, h: int, x: int, y: int)
    requires w >= 1 && h >= 1 && |a| == w * h && |b| == w * h && |s| == w * h && x >= 0 && y >= 0
    requires SumOf(s, a, b)
    ensures DownsampleAt(s, w, h, x, y) == Add(DownsampleAt(a, w, h, x, y), DownsampleAt(b, w, h, x, y))
  {
    var k00, k10 := ClampIndex(w, h, 2 * y, 2 * x), ClampIndex(w, h, 2 * y + 1, 2 * x);
    var k01, k11 := ClampIndex(w, h, 2 * y, 2 * x + 1), ClampIndex(w, h, 2 * y + 1, 2 * x + 1);
    assert s[k00] == Add(a[k00], b[k00]) && s[k10] == Add(a[k10], b[k10]);
    assert s[k01] == Add(a[k01], b[k01]) && s[k11] == Add(a[k11], b[k11]);
  }

  /** `s` is the lane-wise sum of `a` and `b`, entry by entry. */
  predicate SumOf(s: seq<F3>, a: seq<F3>, b: seq<F3>)
  {
    |s| == |a| == |b| && forall i :: 0 <= i < |s| ==> s[i] == Add(a[i], b[i])
  }

  lemma SumOfConcat(s: seq<F3>, a: seq<F3>, b: seq<F3>, s': seq<F3>, a': seq<F3>, b': seq<F3>)
    requires SumOf(s, a, b) && SumOf(s', a', b')
    ensures SumOf(s + s', a + a', b + b')
  {
    forall i | 0 <= i < |s| + |s'|
      ensures (s + s')[i] == Add((a + a')[i], (b + b')[i])
    {
      if i >= |s| { assert s'[i - |s|] == Add(a'[i - |s|], b'[i - |s|]); }
    }
  }

  lemma DownsampleRowAdditive(a: seq<F3>, b: seq<F3>, s: seq<F3>, w: int, h: int, y: int)
    requires w >= 1 && h >= 1 && |a| == w * h && |b| == w * h && |s| == w * h && y >= 0
    requires SumOf(s, a, b)
    ensures SumOf(DownsampleRowSpec(s, w, h, y), DownsampleRowSpec(a, w, h, y), DownsampleRowSpec(b, w, h, y))
  {
    var rs, ra, rb := DownsampleRowSpec(s, w, h, y), DownsampleRowSpec(a, w, h, y), DownsampleRowSpec(b, w, h, y);
    forall x | 0 <= x < |rs|
      ensures rs[x] == Add(ra[x], rb[x])
    {
      DownsampleAtAdditive(a, b, s, w, h, x, y);
    }
  }

  lemma {:induction false} DownsampleRowsAdditive(a: seq<F3>, b: seq<F3>, s: seq<F3>, w: int, h: int, k: nat)
    requires w >= 1 && h >= 1 && |a| == w * h && |b| == w * h && |s| == w * h
    requires SumOf(s, a, b)
    ensures SumOf(DownsampleRows(s, w, h, k), DownsampleRows(a, w, h, k), DownsampleRows(b, w, h, k))
  {
    if k > 0 {
      DownsampleRowsAdditive(a, b, s, w, h, k - 1);
      DownsampleRowAdditive(a, b, s, w, h, k - 1);
      var ps, pa, pb := DownsampleRows(s, w, h, k - 1), DownsampleRows(a, w, h, k - 1), DownsampleRows(b, w, h, k - 1);
      var qs, qa, qb := DownsampleRowSpec(s, w, h, k - 1), DownsampleRowSpec(a, w, h, k - 1), DownsampleRowSpec(b, w, h, k - 1);
      SumOfConcat(ps, pa, pb, qs, qa, qb);
    }
  }

  /** Downsampling commutes with adding two images pixel by pixel. */
  lemma DownsampleAdditive(a: seq<F3>, b: seq<F3>, s: seq<F3>, w: int, h: int)
    requires w >= 1 && h >= 1 && |a| == w * h && |b| == w * h && |s| == w * h
    requires SumOf(s, a, b)
    ensures SumOf(DownsampleSpec(s, w, h), DownsampleSpec(a, w, h), DownsampleSpec(b, w, h))
  {
    DownsampleRowsAdditive(a, b, s, w, h, HalfDim(h));
  }

  /** `a` is `b` with `blk` written from position `at` on. */
  ghost predicate Overwritten(a: seq<F3>, b: seq<F3>, at: int, blk: seq<F3>)
  {
    |a| == |b| && forall k :: 0 <= k < |a| ==> a[k] == if at <= k < at + |blk| then blk[k - at] else b[k]
  }

  /** Element `i` of the range of `a` that starts at `off`. */
  ghost function Shifted(a: seq<F3>, off: int, i: int): F3
    requires 0 <= off + i < |a|
  {
    a[off + i]
  }

  /**
   * `src` sits at `srcOff` in `a`. The quantifier fires only on `Shifted`
   * terms, so that source pixels read through `src` do not feed back into
   * the buffer.
   */
  ghost predicate Holds(a: seq<F3>, srcOff: int, src: seq<F3>)
  {
    0 <= srcOff && srcOff + |src| <= |a| &&
    forall i {:trigger Shifted(a, srcOff, i)} :: 0 <= i < |src| ==> Shifted(a, srcOff, i) == src[i]
  }

  /**
   * `downsample`: one work-item per new pixel on a 2-D launch of at most
   * 16x16 groups, out-of-range items returning at once. Source and
   * destination are two disjoint ranges of one buffer (consecutive pyramid
   * levels); nothing outside the destination changes.
   */
  method DownsampleLevel(buf: array<F3>, srcOff: int, dstOff: int, w: int, h: int)
    requires w >= 1 && h >= 1
    requires 0 <= srcOff && srcOff + w * h <= dstOff && dstOff + HalfDim(w) * HalfDim(h) <= buf.Length
    modifies buf
    ensures buf[dstOff .. dstOff + HalfDim(w) * HalfDim(h)] == DownsampleSpec(old(buf[srcOff .. srcOff + w * h]), w, h)
    ensures forall j :: 0 <= j < buf.Length && !(dstOff <= j < dstOff + HalfDim(w) * HalfDim(h)) ==> buf[j] == old(buf[j])
  {
    var src := buf[srcOff .. srcOff + w * h];
    var globalY := LaunchRange(HalfDim(h), 16);
    var globalX := LaunchRange(HalfDim(w), 16);
    DownsampleRowsLength(src, w, h, HalfDim(h));
    DownsampleLaunch(buf, src, srcOff, dstOff, w, h, globalX, globalY);
    OverwrittenSlice(buf[..], old(buf[..]), dstOff, DownsampleSpec(src, w, h));
  }

  /** What `Overwritten` says about the written range and the rest. */
  lemma OverwrittenSlice(a: seq<F3>, b: seq<F3>, at: int, blk: seq<F3>)
    requires Overwritten(a, b, at, blk) && 0 <= at && at + |blk| <= |a|
    ensures a[at .. at + |blk|] == blk
    ensures forall j :: 0 <= j < |a| && !(at <= j < at + |blk|) ==> a[j] == b[j]
  {
  }

  /**
   * The launch rows of `downsample`: rows `y < HalfDim(h)` each write their
   * new row after the rows before them; the rest return at once.
   */
  method DownsampleLaunch(buf: array<F3>, src: seq<F3>, srcOff: int, dstOff: int, w: int, h: int, globalX: int, globalY: int)
    requires w >= 1 && h >= 1 && |src| == w * h && globalX >= HalfDim(w) && globalY >= HalfDim(h)
    requires Holds(buf[..], srcOff, src) && srcOff + |src| <= dstOff
    requires dstOff + |DownsampleRows(src, w, h, HalfDim(h))| <= buf.Length
    modifies buf
    ensures Overwritten(buf[..], old(buf[..]), dstOff, DownsampleRows(src, w, h, HalfDim(h)))
  {
    var gy := 0;
    var rowOff := 0;
    ghost var done: nat := 0;
    while gy < globalY
      invariant 0 <= gy <= globalY && done == Min(gy, HalfDim(h))
      invariant rowOff == |DownsampleRows(src, w, h, done)|
      invariant Holds(buf[..], srcOff, src)
      invariant Overwritten(buf[..], old(buf[..]), dstOff, DownsampleRows(src, w, h, done))
    {
      if gy < HalfDim(h) {
        DownsampleLaunchRow(buf, src, srcOff, dstOff, w, h, gy, rowOff, globalX, old(buf[..]));
        rowOff := rowOff + HalfDim(w);
        done := done + 1;
      }
      gy := gy + 1;
    }
  }

  /** Launch row `y` appends new row `y` to the rows already written. */
  method DownsampleLaunchRow(buf: array<F3>, src: seq<F3>, srcOff: int, dstOff: int, w: int, h: int, y: nat, rowOff: int,
                             globalX: int, ghost b0: seq<F3>)
    requires w >= 1 && h >= 1 && |src| == w * h && globalX >= HalfDim(w) && y < HalfDim(h)
    requires Holds(buf[..], srcOff, src) && srcOff + |src| <= dstOff
    requires dstOff + |DownsampleRows(src, w, h, HalfDim(h))| <= buf.Length
    requires rowOff == |DownsampleRows(src, w, h, y)|
    requires Overwritten(buf[..], b0, dstOff, DownsampleRows(src, w, h, y))
    modifies buf
    ensures rowOff + HalfDim(w) == |DownsampleRows(src, w, h, y + 1)|
    ensures Holds(buf[..], srcOff, src)
    ensures Overwritten(buf[..], b0, dstOff, DownsampleRows(src, w, h, y + 1))
  {
    RowsFit(src, w, h, y + 1, HalfDim(h));
    DownsampleRow(buf, src, srcOff, dstOff, rowOff, w, h, y, globalX, b0, DownsampleRows(src, w, h, y));
  }

  /** More rows take more room. */
  lemma {:induction false} RowsFit(src: seq<F3>, w: int, h: int, k: nat, m: nat)
    requires w >= 1 && h >= 1 && |src| == w * h && k <= m
    ensures |DownsampleRows(src, w, h, k)| <= |DownsampleRows(src, w, h, m)|
  {
    if k < m {
      RowsFit(src, w, h, k, m - 1);
    }
  }

  /**
   * The work-items of one launch row `y` of `downsample`: those with
   * `x < HalfDim(w)` each write their pixel of the new row, which starts at
   * `dstOff + rowOff` right after the rows `pre` already written; the rest
   * of the launch width returns at once.
   */
  method DownsampleRow(buf: array<F3>, src: seq<F3>, srcOff: int, dstOff: int, rowOff: int, w: int, h: int, y: int, globalX: int,
                       ghost b0: seq<F3>, ghost pre: seq<F3>)
    requires w >= 1 && h >= 1 && |src| == w * h && y >= 0
    requires Holds(buf[..], srcOff, src)
    requires srcOff + |src| <= dstOff && rowOff == |pre| && dstOff + rowOff + HalfDim(w) <= buf.Length && globalX >= HalfDim(w)
    requires Overwritten(buf[..], b0, dstOff, pre)
    modifies buf
    ensures Holds(buf[..], srcOff, src)
    ensures Overwritten(buf[..], b0, dstOff, pre + DownsampleRowSpec(src, w, h, y))
  {
    ghost var row := DownsampleRowSpec(src, w, h, y);
    var gx := 0;
    while gx < globalX
      invariant gx >= 0
      invariant Holds(buf[..], srcOff, src)
      invariant Overwritten(buf[..], b0, dstOff, pre + row[..Min(gx, HalfDim(w))])
    {
      var x := gx;
      if x < HalfDim(w) {
        WorkItem(buf, src, srcOff, dstOff + rowOff + x, w, h, x, y);
        assert pre + row[..x + 1] == (pre + row[..x]) + [row[x]];
      }
      gx := gx + 1;
    }
    assert row[..HalfDim(w)] == row;
  }

  /**
   * The body of one `downsample` work-item: the new pixel (x, y), stored at
   * `dst`, outside the source range. It writes its destination with `=`,
   * three `+=` and a final `*= 0.25`.
   */
  method WorkItem(buf: array<F3>, src: seq<F3>, srcOff: int, dst: int, w: int, h: int, x: int, y: int)
    requires w >= 1 && h >= 1 && |src| == w * h && x >= 0 && y >= 0
    requires Holds(buf[..], srcOff, src)
    requires 0 <= dst < buf.Length && !(srcOff <= dst < srcOff + |src|)
    modifies buf
    ensures buf[..] == old(buf[..])[dst := DownsampleAt(src, w, h, x, y)]
    ensures Holds(buf[..], srcOff, src)
  {
    var k00, k10 := ClampIndex(w, h, 2 * y, 2 * x), ClampIndex(w, h, 2 * y + 1, 2 * x);
    var k01, k11 := ClampIndex(w, h, 2 * y, 2 * x + 1), ClampIndex(w, h, 2 * y + 1, 2 * x + 1);
    var p00, p10, p01, p11 := buf[srcOff + k00], buf[srcOff + k10], buf[srcOff + k01], buf[srcOff + k11];
    assert Shifted(buf[..], srcOff, k00) == src[k00] && Shifted(buf[..], srcOff, k10) == src[k10];
    assert Shifted(buf[..], srcOff, k01) == src[k01] && Shifted(buf[..], srcOff, k11) == src[k11];
    DownsampleAtIs(src, w, h, x, y, p00, p10, p01, p11);
    ghost var b0 := buf[..];
    buf[dst] := p00;
    buf[dst] := Add(buf[dst], p10);
    buf[dst] := Add(buf[dst], p01);
    buf[dst] := Add(buf[dst], p11);
    buf[dst] := Scale(buf[dst], 0.25);
    assert buf[dst] == Scale(Add(Add(Add(p00, p10), p01), p11), 0.25);
    assert buf[..] == b0[dst := buf[dst]];
    HoldsAfterWrite(old(buf[..]), srcOff, src, dst, buf[dst]);
  }

  /** The new pixel in terms of the four samples read at the clamped indices. */
  lemma DownsampleAtIs(src: seq<F3>, w: int, h: int, x: int, y: int, p00: F3, p10: F3, p01: F3, p11: F3)
    requires w >= 1 && h >= 1 && |src| == w * h && x >= 0 && y >= 0
    requires p00 == src[ClampIndex(w, h, 2 * y, 2 * x)] && p10 == src[ClampIndex(w, h, 2 * y + 1, 2 * x)]
    requires p01 == src[ClampIndex(w, h, 2 * y, 2 * x + 1)] && p11 == src[ClampIndex(w, h, 2 * y + 1, 2 * x + 1)]
    ensures DownsampleAt(src, w, h, x, y) == Scale(Add(Add(Add(p00, p10), p01), p11), 0.25)
  {
  }

  /** A write outside the source range keeps the source where it is. */
  lemma HoldsAfterWrite(a: seq<F3>, srcOff: int, src: seq<F3>, dst: int, v: F3)
    requires Holds(a, srcOff, src) && 0 <= dst < |a| && !(srcOff <= dst < srcOff + |src|)
    ensures Holds(a[dst := v], srcOff, src)
  {
    forall i | 0 <= i < |src|
      ensures Shifted(a[dst := v], srcOff, i) == src[i]
    {
      assert Shifted(a, srcOff, i) == src[i];
    }
  }
}
