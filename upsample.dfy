/**
 * The chroma upsampling dispatcher `upsample`
 * (src/ffvship_utility/gpuColorToLinear/chromaUpsample.hpp).
 *
 * Given the luma size and the chroma subsampling exponents `subw` and
 * `subh`, the chroma planes (`width >> subw` by `height >> subh` samples)
 * are upscaled back to the luma grid: first horizontally by `2^subw`,
 * with the kernel the chroma location calls for, then vertically by
 * `2^subh`. Only factors 2 and 4 horizontally and 2 vertically, and only
 * the left, top-left, centre and top locations, are implemented; anything
 * else returns 1.
 *
 * The two stages of the model chain the way the upscaler evidently
 * intends: the vertical stage reads the horizontally upscaled plane, with
 * its width, over a launch wide enough for it. The dispatch as written
 * differs (see `VerticalStageAsWritten`).
 */
module Upsample {
  import opened Geometry
  import opened Chroma

  /** `AVChromaLocation`: where the chroma samples sit relative to luma. */
  datatype ChromaLocation = Unspecified | Left | Center | TopLeft | Top | BottomLeft | Bottom

  /** The locations both switches of `upsample` have a case for. */
  predicate Sited(loc: ChromaLocation)
  {
    loc == Left || loc == TopLeft || loc == Center || loc == Top
  }

  /** Horizontal siting: left and top-left chroma is co-sited, centre and top chroma is centred. */
  function HSiting(loc: ChromaLocation): Siting
    requires Sited(loc)
  {
    if loc == Left || loc == TopLeft then CoSited else Centred
  }

  /** Vertical siting: top and top-left chroma is co-sited, centre and left chroma is centred. */
  function VSiting(loc: ChromaLocation): Siting
    requires Sited(loc)
  {
    if loc == Top || loc == TopLeft then CoSited else Centred
  }

  /**
   * The subsamplings `upsample` implements: none, or a horizontal factor of
   * 2 or 4 and a vertical factor of 2 at a location it has a kernel for.
   */
  predicate Supported(loc: ChromaLocation, subw: nat, subh: nat)
  {
    (subw == 0 || (subw <= 2 && Sited(loc))) && (subh == 0 || (subh == 1 && Sited(loc)))
  }

  /** `n >> k` for a non-negative `n`. */
  function Shr(n: int, k: nat): (r: int)
    requires n >= 0
    ensures 0 <= r <= n
    ensures k > 0 ==> r <= n / 2
  {
    if k == 0 then n else Shr(n / 2, k - 1)
  }

  /** The launch range along one axis: `n` rounded up to the work-group size 16. */
  function GroupRound(n: int): (r: int)
    requires n >= 0
    ensures n <= r < n + 16 && r % 16 == 0
  {
    ((n + 15) / 16) * 16
  }

  /** The upscaling factor `2^sub` for the exponents the kernels implement. */
  function Factor(sub: nat): int
    requires 1 <= sub <= 2
  {
    if sub == 1 then 2 else 4
  }

  /** A chroma dimension `n` after upscaling by `2^sub` (`width *= 2` / `*= 4`, `height *= 2`). */
  function Spread(sub: nat, n: int): int
    requires sub <= 2
  {
    if sub == 0 then n else Times(Factor(sub), n)
  }

  /**
   * What `upsample` writes into a destination plane: the chroma plane
   * `src` of `cw` by `ch` samples, upscaled horizontally and then
   * vertically as the location and the exponents say.
   */
  function Upsampled(loc: ChromaLocation, subw: nat, subh: nat, src: seq<real>, cw: int, ch: int): (plane: seq<real>)
    requires Supported(loc, subw, subh) && IsPlane(src, cw, ch)
    ensures |plane| == RowStart(Spread(subw, cw), Spread(subh, ch))
  {
    if subw == 0 then
      if subh == 0 then src
      else
        VPlaneLength(VSiting(loc), src, cw, ch);
        VPlane(VSiting(loc), src, cw, ch)
    else
      HPlaneLength(HSiting(loc), Factor(subw), src, cw, ch);
      var across := HPlane(HSiting(loc), Factor(subw), src, cw, ch);
      if subh == 0 then across
      else
        VPlaneLength(VSiting(loc), across, Times(Factor(subw), cw), ch);
        VPlane(VSiting(loc), across, Times(Factor(subw), cw), ch)
  }

  /**
   * `upsample` launches at least one kernel: the horizontal one for a
   * factor of 2 or 4, or, with no horizontal factor, the vertical one.
   */
  predicate Launches(loc: ChromaLocation, subw: nat, subh: nat)
  {
    Sited(loc) && (1 <= subw <= 2 || (subw == 0 && subh == 1))
  }

  /**
   * What a call that launches a kernel needs of its arguments: a chroma
   * plane of the shifted size and a destination large enough for what is
   * written into it.
   */
  predicate Fits(n: int, src: seq<real>, width: int, height: int, subw: nat, subh: nat)
    requires width >= 0 && height >= 0 && subw <= 2
  {
    var cw := Shr(width, subw);
    var ch := Shr(height, subh);
    IsPlane(src, cw, ch) && RowStart(Spread(subw, cw), if subh == 1 then 2 * ch else ch) <= n
  }

  /* ---------------------------------------------------------------------- */
  /* The vertical launch                                                     */
  /* ---------------------------------------------------------------------- */

  /** The plane a vertical stage reads. */
  datatype Input = ChromaPlane | HorizontalOutput

  /** The parameters of the vertical launch: the plane read, the width it is read with, and the launch columns. */
  datatype VerticalStage = VerticalStage(input: Input, width: int, launchX: int)

  /**
   * The vertical launch as `upsample` sets it up: the kernel is handed
   * `src`, the chroma plane, but with `width` already multiplied by the
   * horizontal factor, over the launch range `blx1` computed from the
   * chroma width before that multiplication.
   */
  function VerticalStageAsWritten(subw: nat, cw: int): VerticalStage
    requires subw <= 2 && cw >= 0
  {
    VerticalStage(ChromaPlane, Spread(subw, cw), GroupRound(cw))
  }

  /**
   * As written, a 4:2:0 plane of one chroma sample (`cw = ch = 1`) is read
   * as a plane 2 samples wide, and column 1 is launched, so its first
   * fetch is at index 1 of a 1-sample plane; with a 16-sample-wide chroma
   * plane the launch covers 16 of the 32 columns of the output.
   */
  lemma VerticalStageAsWrittenMisreads()
    ensures VerticalStageAsWritten(1, 1).input == ChromaPlane
    ensures VerticalStageAsWritten(1, 1).width == 2 && 1 < VerticalStageAsWritten(1, 1).launchX
    ensures El0IndexAsWritten(2, 1, 1, 0) == 1 == RowStart(1, 1)
    ensures VerticalStageAsWritten(1, 16).launchX == 16 < 32 == VerticalStageAsWritten(1, 16).width
  {
    assert RowStart(1, 1) == RowStart(1, 0) + 1;
    assert Spread(1, 16) == Times(2, 16) == 32;
    assert (16 + 15) / 16 == 1;
    assert GroupRound(16) == 16;
  }

  /**
   * The vertical launch the two stages need: it reads the horizontal
   * output when there was a horizontal stage, with the width that stage
   * produced, over that width rounded up to the work-group size.
   */
  function VerticalStageFor(subw: nat, cw: int): VerticalStage
    requires subw <= 2 && cw >= 0
  {
    var w := Spread(subw, cw);
    VerticalStage(if subw == 0 then ChromaPlane else HorizontalOutput, w, GroupRound(w))
  }

  /**
   * The corrected vertical launch reads the plane the horizontal stage
   * wrote, with that plane's width, and launches every one of its columns;
   * it differs from the launch as written exactly when there is a
   * horizontal stage.
   */
  lemma VerticalStageForFits(subw: nat, cw: int)
    requires subw <= 2 && cw >= 1
    ensures VerticalStageFor(subw, cw).input == (if subw == 0 then ChromaPlane else HorizontalOutput)
    ensures VerticalStageFor(subw, cw).width == Spread(subw, cw) <= VerticalStageFor(subw, cw).launchX
    ensures VerticalStageFor(subw, cw) == VerticalStageAsWritten(subw, cw) <==> subw == 0
  {
    if subw != 0 {
      TimesIsProduct(Factor(subw), cw);
    }
  }

  /* ---------------------------------------------------------------------- */
  /* The dispatcher                                                          */
  /* ---------------------------------------------------------------------- */

  /**
   * The horizontal stage: the horizontal pass of the location's siting and
   * factor, over the launch `launchX` by `launchY`. Its output goes to a
   * fresh plane when a vertical stage follows and to `dst` otherwise;
   * either way `plane` is the upscaled plane.
   */
  method HorizontalStage(dst: array<real>, s: Siting, subw: nat, src: seq<real>, cw: int, ch: int,
                         launchX: int, launchY: int, scratch: bool)
    returns (plane: seq<real>)
    requires 1 <= subw <= 2 && IsPlane(src, cw, ch) && launchX >= cw + Shift(s) && launchY >= ch
    requires !scratch ==> RowStart(Spread(subw, cw), ch) <= dst.Length
    modifies dst
    ensures plane == HPlane(s, Factor(subw), src, cw, ch) && |plane| == RowStart(Spread(subw, cw), ch)
    ensures !scratch ==> Overwritten(dst[..], old(dst[..]), 0, plane)
    ensures scratch ==> dst[..] == old(dst[..])
  {
    var f := Factor(subw);
    var n := RowStart(Times(f, cw), ch);
    HPlaneLength(s, f, src, cw, ch);
    var out: array<real>;
    if scratch {
      out := new real[n];
    } else {
      out := dst;
    }
    ghost var before := out[..];
    HorizontalPass(out, s, f, src, cw, ch, launchX, launchY);
    plane := out[..n];
    OverwrittenPrefix(out[..], before, HPlane(s, f, src, cw, ch));
  }

  /** A plane written from position 0 on is the prefix of the array. */
  lemma OverwrittenPrefix(a: seq<real>, b: seq<real>, blk: seq<real>)
    requires Overwritten(a, b, 0, blk) && |blk| <= |a|
    ensures a[..|blk|] == blk
  {}

  /**
   * `upsample` for one chroma plane: 0 when the subsampling is supported,
   * in which case `dst` starts with the upscaled plane and is otherwise
   * untouched (and is not touched at all without subsampling); 1 when it
   * is not, after the horizontal stage has already written `dst` when the
   * location is sited and `subw` is 1 or 2, and with `dst` untouched
   * otherwise.
   */
  method UpsamplePlane(dst: array<real>, src: seq<real>, width: int, height: int, loc: ChromaLocation, subw: nat, subh: nat)
    returns (code: int)
    requires width >= 0 && height >= 0
    requires Launches(loc, subw, subh) ==> Fits(dst.Length, src, width, height, subw, subh)
    modifies dst
    ensures code in {0, 1} && (code == 0 <==> Supported(loc, subw, subh))
    ensures code == 0 && (subw != 0 || subh != 0) ==>
      Overwritten(dst[..], old(dst[..]), 0, Upsampled(loc, subw, subh, src, Shr(width, subw), Shr(height, subh)))
    ensures subw == 0 && subh == 0 ==> dst[..] == old(dst[..])
    ensures code == 1 && Sited(loc) && 1 <= subw <= 2 ==>
      Overwritten(dst[..], old(dst[..]), 0, HPlane(HSiting(loc), Factor(subw), src, Shr(width, subw), Shr(height, subh)))
    ensures code == 1 && !(Sited(loc) && 1 <= subw <= 2) ==> dst[..] == old(dst[..])
  {
    if subw == 0 && subh == 0 {
      return 0;
    }
    var cw := Shr(width, subw);
    var ch := Shr(height, subh);
    var blx1, blx2 := GroupRound(cw), GroupRound(cw + 1);
    var bly1, bly2 := GroupRound(ch), GroupRound(ch + 1);
    var plane := src;
    if subw != 0 {
      if !Sited(loc) || subw > 2 {
        return 1;
      }
      var s := HSiting(loc);
      plane := HorizontalStage(dst, s, subw, src, cw, ch, if s == CoSited then blx1 else blx2, bly1, subh == 1);
    }
    if subh != 0 {
      if !Sited(loc) || subh > 1 {
        return 1;
      }
      var s := VSiting(loc);
      var stage := VerticalStageFor(subw, cw);
      VerticalStageForFits(subw, cw);
      VerticalPass(dst, s, plane, stage.width, ch, stage.launchX, if s == CoSited then bly1 else bly2);
    }
    return 0;
  }

  /**
   * `upsample`: both chroma planes of a frame, with the same location and
   * subsampling; the return code is the one of `UpsamplePlane`.
   */
  method UpsampleChroma(dst1: array<real>, dst2: array<real>, src1: seq<real>, src2: seq<real>, width: int, height: int,
                        loc: ChromaLocation, subw: nat, subh: nat)
    returns (code: int)
    requires dst1 != dst2 && width >= 0 && height >= 0
    requires Launches(loc, subw, subh) ==> Fits(dst1.Length, src1, width, height, subw, subh)
    requires Launches(loc, subw, subh) ==> Fits(dst2.Length, src2, width, height, subw, subh)
    modifies dst1, dst2
    ensures code in {0, 1} && (code == 0 <==> Supported(loc, subw, subh))
    ensures code == 0 && (subw != 0 || subh != 0) ==>
      Overwritten(dst1[..], old(dst1[..]), 0, Upsampled(loc, subw, subh, src1, Shr(width, subw), Shr(height, subh)))
    ensures code == 0 && (subw != 0 || subh != 0) ==>
      Overwritten(dst2[..], old(dst2[..]), 0, Upsampled(loc, subw, subh, src2, Shr(width, subw), Shr(height, subh)))
    ensures subw == 0 && subh == 0 ==> dst1[..] == old(dst1[..]) && dst2[..] == old(dst2[..])
    ensures code == 1 && Sited(loc) && 1 <= subw <= 2 ==>
      Overwritten(dst1[..], old(dst1[..]), 0, HPlane(HSiting(loc), Factor(subw), src1, Shr(width, subw), Shr(height, subh)))
    ensures code == 1 && Sited(loc) && 1 <= subw <= 2 ==>
      Overwritten(dst2[..], old(dst2[..]), 0, HPlane(HSiting(loc), Factor(subw), src2, Shr(width, subw), Shr(height, subh)))
    ensures code == 1 && !(Sited(loc) && 1 <= subw <= 2) ==> dst1[..] == old(dst1[..]) && dst2[..] == old(dst2[..])
  {
    code := UpsamplePlane(dst1, src1, width, height, loc, subw, subh);
    var code2 := UpsamplePlane(dst2, src2, width, height, loc, subw, subh);
  }

  /* ---------------------------------------------------------------------- */
  /* What the upscaled plane promises                                        */
  /* ---------------------------------------------------------------------- */

  /**
   * Top-left chroma is co-sited both ways, so upsampling keeps every chroma
   * sample: sample `(x, y)` lands on luma position `(2^subw x, 2^subh y)`.
   */
  lemma TopLeftKeepsSamples(subw: nat, subh: nat, src: seq<real>, cw: int, ch: int, y: nat, x: int)
    requires Supported(TopLeft, subw, subh) && IsPlane(src, cw, ch) && y < ch && 0 <= x < cw
    ensures 0 <= y * cw + x < |src|
    ensures 0 <= RowStart(Spread(subw, cw), Spread(subh, y)) + Spread(subw, x) < |Upsampled(TopLeft, subw, subh, src, cw, ch)|
    ensures Upsampled(TopLeft, subw, subh, src, cw, ch)[RowStart(Spread(subw, cw), Spread(subh, y)) + Spread(subw, x)]
         == src[y * cw + x]
  {
    PixelInside(src, cw, ch, x, y);
    RowStartIs(cw, y);
    if subw != 0 {
      var f := Factor(subw);
      HPlaneKeepsSamples(f, src, cw, ch, y, x);
      if subh != 0 {
        var across := HPlane(CoSited, f, src, cw, ch);
        HPlaneLength(CoSited, f, src, cw, ch);
        VPlaneKeepsSamples(across, Times(f, cw), ch, y, Times(f, x));
        RowStartIs(Times(f, cw), y);
      }
    } else if subh != 0 {
      VPlaneKeepsSamples(src, cw, ch, y, x);
    }
  }

  /** Upsampling a flat chroma plane gives a flat plane of the same value. */
  lemma UpsampledFlat(loc: ChromaLocation, subw: nat, subh: nat, src: seq<real>, cw: int, ch: int, c: real)
    requires Supported(loc, subw, subh) && IsPlane(src, cw, ch) && Flat(src, c)
    ensures Flat(Upsampled(loc, subw, subh, src, cw, ch), c)
  {
    if subw != 0 {
      var across := HPlane(HSiting(loc), Factor(subw), src, cw, ch);
      HPlaneLength(HSiting(loc), Factor(subw), src, cw, ch);
      HPlaneFlat(HSiting(loc), Factor(subw), src, cw, ch, c);
      if subh != 0 {
        VPlaneFlat(VSiting(loc), across, Spread(subw, cw), ch, c);
      }
    } else if subh != 0 {
      VPlaneFlat(VSiting(loc), src, cw, ch, c);
    }
  }
}
