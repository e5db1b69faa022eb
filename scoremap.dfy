/**
 * `allscore_map` and `allocsizeScore` (src/ssimu2/score.hpp).
 *
 * For each of the six pyramid levels, the score kernel writes one record
 * per 16 by 16 block. While 256 or more records remain, reduction passes
 * with `th_x` work-items per group shrink them, ping-ponging between two
 * scratch regions after the level's final slot (`oscillate`). The level's
 * final records land at `scaleoutdone[scale]` and the next level starts
 * right after them. The host then adds each level's six sections and takes
 * the 4th root of the three 4th-power sums.
 *
 * `maxshared` is the device's local-memory size in bytes; a float3 takes 16
 * bytes, so a pass work-item needs 96.
 */
module ScoreMap {
  import opened Geometry
  import opened Float3
  import opened Gaussian
  import opened Reduce
  import opened ScoreKernel

  /** `reduce_up_to`: passes run while this many records or more remain. */
  const ReduceUpTo: int := 256

  /** Bytes of local memory one pass work-item uses: six float3 of 16 bytes. */
  const PassItemBytes: int := 96

  /** `th_x` of the passes in `allscore_map`: what fits in local memory, rounded down to a multiple of 32, at most 1024 and at most `nb`. */
  function PassThreads(maxshared: int, nb: int): (th: int)
    ensures th <= nb && th <= 1024
    ensures maxshared >= 3072 && nb >= ReduceUpTo ==> th >= 32
  {
    Min((maxshared / PassItemBytes) / 32 * 32, Min(1024, nb))
  }

  /** The passes terminate: they need at least two work-items whenever one runs. */
  predicate PassesRun(maxshared: int, nb: int)
  {
    nb < ReduceUpTo || maxshared >= 3072
  }

  /** A pass over `n >= 2` records with at least two work-items per group leaves fewer records. */
  lemma CeilDivShrinks(n: int, th: int)
    requires n >= 2 && th >= 2
    ensures CeilDiv(n, th) < n
  {
    var c := CeilDiv(n, th);
    MulMono(2, th, c - 1);
  }

  lemma CeilDivMono(a: int, b: int, th: int)
    requires 1 <= a <= b && th >= 1
    ensures CeilDiv(a, th) <= CeilDiv(b, th)
  {
    var ca, cb := CeilDiv(a, th), CeilDiv(b, th);
    if ca > cb {
      MulMono(cb, ca - 1, th);
    }
  }

  /**
   * Records left after the passes of one level, starting from `n` records
   * with `th` work-items per group: fewer than 256, and at least one.
   */
  function Remaining(n: int, th: int): (r: int)
    requires n >= 1 && (n >= ReduceUpTo ==> th >= 2)
    ensures 1 <= r <= n && r < ReduceUpTo
    decreases n
  {
    if n < ReduceUpTo then n
    else
      CeilDivShrinks(n, th);
      Remaining(CeilDiv(n, th), th)
  }

  /** Number of score work-groups of level `s`. */
  function LevelBlocks(w: int, h: int, s: nat): (n: int)
    requires w >= 1 && h >= 1
    ensures n >= 1
  {
    BlockCount(LevelDim(w, s), LevelDim(h, s))
  }

  /** Levels never have more blocks than the full-size image. */
  lemma LevelBlocksAtMost(w: int, h: int, s: nat)
    requires w >= 1 && h >= 1
    ensures LevelBlocks(w, h, s) <= BlockCount(w, h)
  {
    CeilDivMono(LevelDim(w, s), w, GroupSide);
    CeilDivMono(LevelDim(h, s), h, GroupSide);
    var a, b := CeilDiv(LevelDim(w, s), GroupSide), CeilDiv(LevelDim(h, s), GroupSide);
    MulMono(a, CeilDiv(w, GroupSide), b);
    MulMono(b, CeilDiv(h, GroupSide), CeilDiv(w, GroupSide));
  }

  /** Records level `s` leaves at `scaleoutdone[s]`. */
  function LevelPartials(w: int, h: int, maxshared: int, s: nat): (r: int)
    requires w >= 1 && h >= 1 && PassesRun(maxshared, BlockCount(w, h))
    ensures 1 <= r < ReduceUpTo
  {
    var nb := LevelBlocks(w, h, s);
    LevelBlocksAtMost(w, h, s);
    Remaining(nb, PassThreads(maxshared, nb))
  }

  /** `scaleoutdone[s]`: six entries per final record of every earlier level. */
  function ScaleOffset(w: int, h: int, maxshared: int, s: nat): (r: int)
    requires w >= 1 && h >= 1 && PassesRun(maxshared, BlockCount(w, h))
    ensures r >= 0
  {
    if s == 0 then 0 else ScaleOffset(w, h, maxshared, s - 1) + 6 * LevelPartials(w, h, maxshared, s - 1)
  }

  /**
   * One past the last scratch entry level `s` touches, relative to
   * `scaleoutdone[s]`: the kernel's output alone when there is no pass,
   * otherwise the two regions at `6 * nb` and `12 * nb`, the second holding
   * at most the first pass's output.
   */
  function ScaleReach(nb: int, th: int): int
    requires nb >= 1 && (nb >= ReduceUpTo ==> th >= 2)
  {
    if nb < ReduceUpTo then 6 * nb
    else if CeilDiv(nb, th) >= ReduceUpTo then 12 * nb + 6 * CeilDiv(nb, th)
    else 12 * nb
  }

  /** `(osc + 1) * 6 * nb`: scratch region 1 or 2 of a level. */
  function Region(osc: int, nb: int): int
    requires osc == 0 || osc == 1
  {
    if osc == 0 then 6 * nb else 12 * nb
  }

  /** Two frames over the same region compose. */
  lemma SameOutsideTrans(t0: seq<F3>, t1: seq<F3>, t2: seq<F3>, lo: int, hi: int)
    requires SameOutside(t0, t1, lo, hi) && SameOutside(t1, t2, lo, hi)
    ensures SameOutside(t0, t2, lo, hi)
  {}

  /** A frame over a region is one over any region around it. */
  lemma SameOutsideWiden(t0: seq<F3>, t1: seq<F3>, lo: int, hi: int, lo2: int, hi2: int)
    requires SameOutside(t0, t1, lo, hi) && lo2 <= lo && hi <= hi2
    ensures SameOutside(t0, t1, lo2, hi2)
  {}

  /** Remaining counts are the same before and after a pass. */
  lemma RemainingStep(n: int, th: int)
    requires n >= ReduceUpTo && th >= 2
    ensures Remaining(CeilDiv(n, th), th) == Remaining(n, th)
  {}

  /**
   * One pass of the loop: `blr_x` becomes ceil(`blr_x` / `th_x`), the records
   * are read from region `oscillate + 1` and written to the other region,
   * or to the level's final slot once fewer than 256 remain.
   */
  method PassStep(temp: array<F3>, sod: int, nb: int, thX: int, osc: int, oldblr: int, ghost cur: seq<Stats>)
    returns (blr: int, dst: int)
    requires nb >= ReduceUpTo && thX >= 2 && (osc == 0 || osc == 1)
    requires ReduceUpTo <= oldblr <= nb && |cur| == oldblr
    requires oldblr == nb || oldblr <= CeilDiv(nb, thX)
    requires oldblr == nb ==> osc == 0
    requires 0 <= sod && sod + ScaleReach(nb, thX) <= temp.Length
    requires Holds(temp[..], sod + Region(osc, nb), cur)
    modifies temp
    ensures blr == CeilDiv(oldblr, thX) && blr < oldblr && blr <= CeilDiv(nb, thX)
    ensures dst == sod + (if blr >= ReduceUpTo then Region(1 - osc, nb) else 0)
    ensures Holds(temp[..], dst, Chunked(cur, thX))
    ensures SameOutside(old(temp[..]), temp[..], sod, sod + ScaleReach(nb, thX))
  {
    blr := (oldblr - 1) / thX + 1;
    assert blr == CeilDiv(oldblr, thX);
    CeilDivShrinks(oldblr, thX);
    CeilDivMono(oldblr, nb, thX);
    var src := sod + Region(osc, nb);
    dst := sod + (if blr >= ReduceUpTo then Region(1 - osc, nb) else 0);
    assert sod + 12 * nb <= sod + ScaleReach(nb, thX);
    assert blr >= ReduceUpTo ==> dst + 6 * blr <= sod + ScaleReach(nb, thX);
    assert dst + 6 * blr <= src || src + 6 * oldblr <= dst;
    var blocks := ReducePass(temp, src, dst, oldblr, thX, cur);
  }

  /**
   * What holds between passes of one level: `blr` records adding up to the
   * kernel's total sit at `at`, region `osc + 1` while 256 or more remain
   * and the final slot after that, and nothing outside the level's scratch
   * changed.
   */
  ghost predicate PassState(t0: seq<F3>, t: seq<F3>, sod: int, nb: int, thX: int, whole: seq<Stats>,
                            blr: int, osc: int, at: int, final: seq<Stats>)
  {
    1 <= blr <= nb && |whole| == nb && (osc == 0 || osc == 1) &&
    (nb >= ReduceUpTo ==> thX >= 2) &&
    (blr == nb || (thX >= 2 && blr <= CeilDiv(nb, thX))) &&
    (blr == nb ==> osc == 0) &&
    Remaining(blr, thX) == Remaining(nb, thX) &&
    |final| == blr && SumStats(final) == SumStats(whole) &&
    at == sod + (if blr >= ReduceUpTo then Region(osc, nb) else 0) &&
    0 <= sod && sod + ScaleReach(nb, thX) <= |t| &&
    Holds(t, at, final) &&
    SameOutside(t0, t, sod, sod + ScaleReach(nb, thX))
  }

  lemma PassStateStart(t: seq<F3>, sod: int, nb: int, thX: int, whole: seq<Stats>)
    requires |whole| == nb >= 1 && (nb >= ReduceUpTo ==> thX >= 2)
    requires 0 <= sod && sod + ScaleReach(nb, thX) <= |t|
    requires Holds(t, sod + (if nb >= ReduceUpTo then Region(0, nb) else 0), whole)
    ensures PassState(t, t, sod, nb, thX, whole, nb, 0, sod + (if nb >= ReduceUpTo then Region(0, nb) else 0), whole)
  {}

  lemma PassStateEnd(t0: seq<F3>, t: seq<F3>, sod: int, nb: int, thX: int, whole: seq<Stats>,
                     blr: int, osc: int, at: int, final: seq<Stats>)
    requires PassState(t0, t, sod, nb, thX, whole, blr, osc, at, final) && blr < ReduceUpTo
    ensures blr == Remaining(nb, thX) && |final| == blr && Holds(t, sod, final)
    ensures SumStats(final) == SumStats(whole)
    ensures SameOutside(t0, t, sod, sod + ScaleReach(nb, thX))
  {}

  /** One turn of the loop: a pass, then `oscillate ^= 1` and `oldblr_x = blr_x`. */
  method PassIter(temp: array<F3>, sod: int, nb: int, thX: int, blr: int, osc: int,
                  ghost t0: seq<F3>, ghost whole: seq<Stats>, ghost at: int, ghost final: seq<Stats>)
    returns (blr': int, osc': int, ghost at': int, ghost final': seq<Stats>)
    requires blr >= ReduceUpTo
    requires PassState(t0, temp[..], sod, nb, thX, whole, blr, osc, at, final)
    modifies temp
    ensures blr' < blr
    ensures PassState(t0, temp[..], sod, nb, thX, whole, blr', osc', at', final')
  {
    ghost var t1 := temp[..];
    var dst;
    blr', dst := PassStep(temp, sod, nb, thX, osc, blr, final);
    SameOutsideTrans(t0, t1, temp[..], sod, sod + ScaleReach(nb, thX));
    ChunkedSum(final, thX);
    ChunkedLength(final, thX);
    RemainingStep(blr, thX);
    final' := Chunked(final, thX);
    at' := dst;
    osc' := 1 - osc;
  }

  /**
   * The `while (blr_x >= reduce_up_to)` loop of one level: starting from
   * `nb` records in region 1 (or already in the final slot when there are
   * fewer than 256), passes run until fewer than 256 remain in the final
   * slot, with the same total.
   */
  method RunPasses(temp: array<F3>, sod: int, nb: int, thX: int, kdst: int, ghost whole: seq<Stats>)
    returns (blr: int, ghost final: seq<Stats>)
    requires |whole| == nb >= 1 && (nb >= ReduceUpTo ==> thX >= 2)
    requires 0 <= sod && sod + ScaleReach(nb, thX) <= temp.Length
    requires kdst == sod + (if nb >= ReduceUpTo then Region(0, nb) else 0) && Holds(temp[..], kdst, whole)
    modifies temp
    ensures blr == Remaining(nb, thX)
    ensures |final| == blr && Holds(temp[..], sod, final)
    ensures SumStats(final) == SumStats(whole)
    ensures SameOutside(old(temp[..]), temp[..], sod, sod + ScaleReach(nb, thX))
  {
    blr := nb;
    final := whole;
    ghost var at := kdst;
    var osc := 0;
    ghost var t0 := temp[..];
    PassStateStart(t0, sod, nb, thX, whole);
    while blr >= ReduceUpTo
      invariant PassState(t0, temp[..], sod, nb, thX, whole, blr, osc, at, final)
      decreases blr
    {
      blr, osc, at, final := PassIter(temp, sod, nb, thX, blr, osc, t0, whole, at, final);
    }
    PassStateEnd(t0, temp[..], sod, nb, thX, whole, blr, osc, at, final);
  }

  /**
   * One level of `allscore_map`: the score kernel writes `nb` records, to
   * the level's final slot when there are fewer than 256, else to region 1;
   * then passes run until fewer than 256 records remain, and the last pass
   * writes to the final slot. The records left there add up to the same as
   * the kernel's records.
   */
  method ScaleScores(temp: array<F3>, sod: int, im1: seq<F3>, im2: seq<F3>, w: int, h: int, g: seq<real>, maxshared: int)
    returns (blr: int, ghost final: seq<Stats>)
    requires w >= 1 && h >= 1 && IsTable(g) && |im1| == w * h && |im2| == w * h
    requires PassesRun(maxshared, BlockCount(w, h))
    requires 0 <= sod && sod + ScaleReach(BlockCount(w, h), PassThreads(maxshared, BlockCount(w, h))) <= temp.Length
    modifies temp
    ensures blr == Remaining(BlockCount(w, h), PassThreads(maxshared, BlockCount(w, h)))
    ensures |final| == blr && Holds(temp[..], sod, final)
    ensures SumStats(final) == SumStats(MapBlocks(im1, im2, w, h, g))
    ensures SameOutside(old(temp[..]), temp[..], sod, sod + ScaleReach(BlockCount(w, h), PassThreads(maxshared, BlockCount(w, h))))
  {
    var blx := (w - 1) / GroupSide + 1;
    var bly := (h - 1) / GroupSide + 1;
    assert blx == CeilDiv(w, GroupSide) && bly == CeilDiv(h, GroupSide);
    var nb := blx * bly;
    assert nb == BlockCount(w, h);
    var thX := Min((maxshared / PassItemBytes) / 32 * 32, Min(1024, nb));
    assert thX == PassThreads(maxshared, nb);
    ghost var t0 := temp[..];
    var kdst := sod + (if nb >= ReduceUpTo then (0 + 1) * 6 * nb else 0);
    assert kdst == sod + (if nb >= ReduceUpTo then Region(0, nb) else 0);
    ScoreMapKernel(temp, kdst, im1, im2, w, h, g);
    ghost var t1 := temp[..];
    SameOutsideWiden(t0, t1, kdst, kdst + 6 * nb, sod, sod + ScaleReach(nb, thX));
    blr, final := RunPasses(temp, sod, nb, thX, kdst, MapBlocks(im1, im2, w, h, g));
    SameOutsideTrans(t0, t1, temp[..], sod, sod + ScaleReach(nb, thX));
  }

  /** Every level can run its passes when the full-size level can. */
  lemma LevelPassesRun(w: int, h: int, maxshared: int, s: nat)
    requires w >= 1 && h >= 1 && PassesRun(maxshared, BlockCount(w, h))
    ensures PassesRun(maxshared, LevelBlocks(w, h, s))
  {
    LevelBlocksAtMost(w, h, s);
  }

  /** Scratch entries level `s` touches, from `scaleoutdone[s]` on. */
  function LevelReach(w: int, h: int, maxshared: int, s: nat): (r: int)
    requires w >= 1 && h >= 1 && PassesRun(maxshared, BlockCount(w, h))
    ensures r >= 6 * LevelPartials(w, h, maxshared, s)
  {
    LevelPassesRun(w, h, maxshared, s);
    ScaleReach(LevelBlocks(w, h, s), PassThreads(maxshared, LevelBlocks(w, h, s)))
  }

  /** Scratch `allscore_map` needs for its first `s` levels. */
  function ScratchNeed(w: int, h: int, maxshared: int, s: nat): (r: int)
    requires w >= 1 && h >= 1 && PassesRun(maxshared, BlockCount(w, h))
    ensures r >= ScaleOffset(w, h, maxshared, s)
  {
    if s == 0 then 0
    else Max(ScratchNeed(w, h, maxshared, s - 1),
             ScaleOffset(w, h, maxshared, s - 1) + LevelReach(w, h, maxshared, s - 1))
  }

  /** Every level's scratch lies within what the first `s` levels need. */
  lemma {:induction false} ScratchNeedCovers(w: int, h: int, maxshared: int, j: nat, s: nat)
    requires w >= 1 && h >= 1 && PassesRun(maxshared, BlockCount(w, h)) && j < s
    ensures ScaleOffset(w, h, maxshared, j) + LevelReach(w, h, maxshared, j) <= ScratchNeed(w, h, maxshared, s)
    decreases s
  {
    if j < s - 1 { ScratchNeedCovers(w, h, maxshared, j, s - 1); }
  }

  /** The final records of level `j` lie before `scaleoutdone[s]` for every later level `s`. */
  lemma {:induction false} ScaleOffsetMono(w: int, h: int, maxshared: int, j: nat, s: nat)
    requires w >= 1 && h >= 1 && PassesRun(maxshared, BlockCount(w, h)) && j < s
    ensures ScaleOffset(w, h, maxshared, j) + 6 * LevelPartials(w, h, maxshared, j) <= ScaleOffset(w, h, maxshared, s)
    decreases s
  {
    if j < s - 1 { ScaleOffsetMono(w, h, maxshared, j, s - 1); }
  }

  /** The pixels of level `s` in a pyramid buffer holding the six levels back to back. */
  function LevelImage(im: seq<F3>, w: int, h: int, s: nat): (r: seq<F3>)
    requires w >= 1 && h >= 1 && s < Scales && |im| == TotalScaleSize(w, h)
    ensures |r| == LevelDim(w, s) * LevelDim(h, s)
  {
    LevelOffsetMonotone(w, h, s, Scales);
    im[LevelOffset(w, h, s)..LevelOffset(w, h, s) + ScaleSize(w, h, s)]
  }

  /** Sum over the blocks of level `s` of the kernel's normalised records. */
  function LevelTotal(im1: seq<F3>, im2: seq<F3>, w: int, h: int, g: seq<real>, s: nat): Stats
    requires w >= 1 && h >= 1 && s < Scales && |g| == TableLength
    requires |im1| == TotalScaleSize(w, h) && |im2| == TotalScaleSize(w, h)
  {
    SumStats(MapBlocks(LevelImage(im1, w, h, s), LevelImage(im2, w, h, s), LevelDim(w, s), LevelDim(h, s), g))
  }

  /** `sqrt(sqrt(.))` in every lane: the 4th root that completes a 4-norm. */
  function Root4(v: F3, sqrt: real -> real): F3
  {
    F3(sqrt(sqrt(v.x)), sqrt(sqrt(v.y)), sqrt(sqrt(v.z)))
  }

  /** `sqrt` returns the non-negative square root of a non-negative number. */
  ghost predicate IsSqrt(sqrt: real -> real)
  {
    forall a: real {:trigger sqrt(a)} :: a >= 0.0 ==> sqrt(a) >= 0.0 && sqrt(a) * sqrt(a) == a
  }

  /** The 4th root undoes `tothe4th` on non-negative vectors. */
  lemma Root4Inverse(v: F3, sqrt: real -> real)
    requires IsSqrt(sqrt) && NonNeg(v)
    ensures NonNeg(Root4(v, sqrt)) && Tothe4th(Root4(v, sqrt)) == v
  {
    var r := Root4(v, sqrt);
    assert Times(r.x, r.x) == sqrt(v.x) && Times(sqrt(v.x), sqrt(v.x)) == v.x;
    assert Times(r.y, r.y) == sqrt(v.y) && Times(sqrt(v.y), sqrt(v.y)) == v.y;
    assert Times(r.z, r.z) == sqrt(v.z) && Times(sqrt(v.z), sqrt(v.z)) == v.z;
  }

  /**
   * What `allscore_map` returns: entry `6 * s + k` is section `k` of level
   * `s` summed over its blocks, with the 4th root taken of the odd entries
   * (the sums of 4th powers).
   */
  function ScoreVector(im1: seq<F3>, im2: seq<F3>, w: int, h: int, g: seq<real>, sqrt: real -> real): (r: seq<F3>)
    requires w >= 1 && h >= 1 && |g| == TableLength
    requires |im1| == TotalScaleSize(w, h) && |im2| == TotalScaleSize(w, h)
    ensures |r| == 6 * Scales
  {
    seq(6 * Scales, j requires 0 <= j < 6 * Scales =>
      var v := Field(LevelTotal(im1, im2, w, h, g, j / 6), j % 6);
      if j % 2 == 1 then Root4(v, sqrt) else v)
  }

  /** Sums of records with non-negative lanes have non-negative lanes. */
  lemma {:induction false} SumStatsNonNeg(s: seq<Stats>)
    requires forall i :: 0 <= i < |s| ==> AllNonNeg(s[i])
    ensures AllNonNeg(SumStats(s))
    decreases |s|
  {
    if |s| > 0 {
      SumStatsNonNeg(s[..|s| - 1]);
    }
  }

  /** Scaling by a non-negative factor keeps every lane non-negative. */
  lemma ScaleStatsNonNeg(a: Stats, s: real)
    requires AllNonNeg(a) && s >= 0.0
    ensures AllNonNeg(ScaleStats(a, s))
  {
    ScaleNonNeg(a.ssim1, s);
    ScaleNonNeg(a.ssim4, s);
    ScaleNonNeg(a.a1, s);
    ScaleNonNeg(a.a4, s);
    ScaleNonNeg(a.d1, s);
    ScaleNonNeg(a.d4, s);
  }

  lemma ScaleNonNeg(a: F3, s: real)
    requires NonNeg(a) && s >= 0.0
    ensures NonNeg(Scale(a, s))
  {
    TimesNonNeg(a.x, s);
    TimesNonNeg(a.y, s);
    TimesNonNeg(a.z, s);
  }

  lemma TimesNonNeg(a: real, b: real)
    requires a >= 0.0 && b >= 0.0
    ensures a * b >= 0.0
  {
    if a > 0.0 && b > 0.0 { TimesPosPos(a, b); }
  }

  /** The records of the 256 work-items of a group are non-negative. */
  lemma GroupPixelsNonNeg(im1: seq<F3>, im2: seq<F3>, w: int, h: int, g: seq<real>, x0: int, y0: int)
    requires |im1| == w * h && |im2| == w * h && |g| == TableLength && 0 <= x0 && 0 <= y0
    ensures forall i :: 0 <= i < |GroupPixels(im1, im2, w, h, g, x0, y0)| ==> AllNonNeg(GroupPixels(im1, im2, w, h, g, x0, y0)[i])
  {
    var px := GroupPixels(im1, im2, w, h, g, x0, y0);
    forall i | 0 <= i < |px|
      ensures AllNonNeg(px[i])
    {
      assert px[i] == PixelAt(im1, im2, w, h, g, x0 + i % GroupSide, y0 + i / GroupSide);
    }
  }

  /** Every block record of a level is non-negative: a sum of pixel statistics scaled by `1 / (w * h)`. */
  lemma TileStatsNonNeg(im1: seq<F3>, im2: seq<F3>, w: int, h: int, g: seq<real>, b: int)
    requires w >= 1 && h >= 1 && |im1| == w * h && |im2| == w * h && |g| == TableLength
    requires 0 <= b < BlockCount(w, h)
    ensures AllNonNeg(TileStats(im1, im2, w, h, g, b))
  {
    BlockOrigin(w, h, b);
    var px := GroupPixels(im1, im2, w, h, g, BlockX(w, b), BlockY(w, b));
    GroupPixelsNonNeg(im1, im2, w, h, g, BlockX(w, b), BlockY(w, b));
    SumStatsNonNeg(px);
    NormPositive(w, h);
    ScaleStatsNonNeg(SumStats(px), Norm(w, h));
  }

  /** The per-block scale `1/(w*h)` is positive. */
  lemma NormPositive(w: int, h: int)
    requires w >= 1 && h >= 1
    ensures Norm(w, h) > 0.0
  {
    MulAtLeast(w, h);
    var d := (w * h) as real;
    assert d >= 1.0;
  }

  /** The total of every level is non-negative in every lane. */
  lemma LevelTotalNonNeg(im1: seq<F3>, im2: seq<F3>, w: int, h: int, g: seq<real>, s: nat)
    requires w >= 1 && h >= 1 && s < Scales && |g| == TableLength
    requires |im1| == TotalScaleSize(w, h) && |im2| == TotalScaleSize(w, h)
    ensures AllNonNeg(LevelTotal(im1, im2, w, h, g, s))
  {
    var l1, l2 := LevelImage(im1, w, h, s), LevelImage(im2, w, h, s);
    var lw, lh := LevelDim(w, s), LevelDim(h, s);
    var blocks := MapBlocks(l1, l2, lw, lh, g);
    forall b | 0 <= b < |blocks|
      ensures AllNonNeg(blocks[b])
    {
      TileStatsNonNeg(l1, l2, lw, lh, g, b);
    }
    SumStatsNonNeg(blocks);
  }

  /**
   * Every entry of the score vector is non-negative, and raising an odd
   * entry to the 4th power gives back the level's sum of 4th powers: the
   * odd entries are 4-norms.
   */
  lemma ScoreVectorNorms(im1: seq<F3>, im2: seq<F3>, w: int, h: int, g: seq<real>, sqrt: real -> real, j: int)
    requires w >= 1 && h >= 1 && |g| == TableLength && IsSqrt(sqrt)
    requires |im1| == TotalScaleSize(w, h) && |im2| == TotalScaleSize(w, h)
    requires 0 <= j < 6 * Scales
    ensures NonNeg(ScoreVector(im1, im2, w, h, g, sqrt)[j])
    ensures j % 2 == 1 ==>
      Tothe4th(ScoreVector(im1, im2, w, h, g, sqrt)[j]) == Field(LevelTotal(im1, im2, w, h, g, j / 6), j % 6)
  {
    var v := Field(LevelTotal(im1, im2, w, h, g, j / 6), j % 6);
    LevelTotalNonNeg(im1, im2, w, h, g, j / 6);
    assert NonNeg(v);
    if j % 2 == 1 {
      Root4Inverse(v, sqrt);
    }
  }

  /** The entry of `result` the host loop adds record `i` into: the branch of its `if` chain that `i` takes. */
  function Section(i: int, bl: int): int
  {
    if i < bl then 0
    else if i < 2 * bl then 1
    else if i < 3 * bl then 2
    else if i < 4 * bl then 3
    else if i < 5 * bl then 4
    else 5
  }

  /** Section `k` is exactly the `k`-th run of `bl` entries. */
  lemma SectionRun(bl: int, k: int, j: int)
    requires bl >= 0 && 0 <= k < 6 && 0 <= j < 6 * bl
    ensures Section(j, bl) == k <==> k * bl <= j < k * bl + bl
  {
    if k == 0 {} else if k == 1 {} else if k == 2 {} else if k == 3 {} else if k == 4 {} else {}
  }

  /** What the host loop has added into entry `k` after its first `i` turns over `v`. */
  function Acc(v: seq<F3>, bl: int, k: int, i: int): F3
    requires 0 <= i <= |v|
  {
    if i == 0 then Zero
    else if Section(i - 1, bl) == k then Add(Acc(v, bl, k, i - 1), v[i - 1])
    else Acc(v, bl, k, i - 1)
  }

  /** When section `k` is the window `lo .. hi`, the running sum is the sum of the window's part already passed. */
  lemma {:induction false} AccWindow(v: seq<F3>, bl: int, k: int, lo: int, hi: int, i: int)
    requires 0 <= lo <= hi <= |v| && 0 <= i <= |v|
    requires forall j :: 0 <= j < |v| ==> (Section(j, bl) == k <==> lo <= j < hi)
    ensures Acc(v, bl, k, i) == SumF3(v[lo..Min(Max(i, lo), hi)])
    decreases i
  {
    if i > 0 {
      AccWindow(v, bl, k, lo, hi, i - 1);
      if lo <= i - 1 < hi {
        assert v[lo..i][..i - 1 - lo] == v[lo..i - 1];
      }
    }
  }

  /** Section `k` of the six sections of `st` at `off` holds the column of field `k`. */
  lemma HoldsSection(t: seq<F3>, off: int, st: seq<Stats>, k: int)
    requires Holds(t, off, st) && 0 <= k < 6
    ensures 0 <= off + k * |st| && off + k * |st| + |st| <= |t|
    ensures t[off + k * |st|..off + k * |st| + |st|] == Column(st, k)
  {
    var n := |st|;
    MulMono(k, 5, n);
    var lo := off + k * n;
    forall b | 0 <= b < n
      ensures t[lo + b] == Field(st[b], k)
    {
      SectionEntry(t, off, st, k, b);
    }
    assert t[lo..lo + n] == Column(st, k);
  }

  /** Entry `b` of section `k`. */
  lemma SectionEntry(t: seq<F3>, off: int, st: seq<Stats>, k: int, b: int)
    requires Holds(t, off, st) && 0 <= k < 6 && 0 <= b < |st|
    ensures 0 <= off + k * |st| + b < |t| && t[off + k * |st| + b] == Field(st[b], k)
  {
    var n := |st|;
    if k == 0 {
      assert t[off + b] == st[b].ssim1;
    } else if k == 1 {
      assert t[off + n + b] == st[b].ssim4;
    } else if k == 2 {
      assert t[off + 2 * n + b] == st[b].a1;
    } else if k == 3 {
      assert t[off + 3 * n + b] == st[b].a4;
    } else if k == 4 {
      assert t[off + 4 * n + b] == st[b].d1;
    } else {
      assert t[off + 5 * n + b] == st[b].d4;
    }
  }

  /** Over `6 * bl` entries, the running sum of section `k` ends as the sum of the `k`-th run. */
  lemma AccSection(v: seq<F3>, bl: int, k: int)
    requires |v| == 6 * bl && bl >= 0 && 0 <= k < 6
    ensures 0 <= k * bl && k * bl + bl <= |v|
    ensures Acc(v, bl, k, |v|) == SumF3(v[k * bl..k * bl + bl])
  {
    MulMono(k, 5, bl);
    forall j | 0 <= j < |v|
      ensures Section(j, bl) == k <==> k * bl <= j < k * bl + bl
    {
      SectionRun(bl, k, j);
    }
    AccWindow(v, bl, k, k * bl, k * bl + bl, |v|);
  }

  lemma SliceOfSlice(t: seq<F3>, a: int, b: int, i: int, j: int)
    requires 0 <= a <= b <= |t| && 0 <= i <= j <= b - a
    ensures t[a..b][i..j] == t[a + i..a + j]
  {
    assert forall x :: 0 <= x < j - i ==> t[a..b][i..j][x] == t[a + i + x];
  }

  /** After all `6 * bl` turns, entry `k` has gained exactly field `k` summed over the level's records. */
  lemma AccComplete(t: seq<F3>, off: int, st: seq<Stats>, k: int)
    requires Holds(t, off, st) && 0 <= k < 6
    ensures Acc(t[off..off + 6 * |st|], |st|, k, 6 * |st|) == Field(SumStats(st), k)
  {
    SectionOfLayout(t, off, st, k);
    AccColumn(t[off..off + 6 * |st|], st, k);
  }

  /** The host sum over a section that holds column `k` of `st` is field `k` of their total. */
  lemma AccColumn(v: seq<F3>, st: seq<Stats>, k: int)
    requires |v| == 6 * |st| && 0 <= k < 6
    requires 0 <= k * |st| && k * |st| + |st| <= |v| && v[k * |st|..k * |st| + |st|] == Column(st, k)
    ensures Acc(v, |st|, k, |v|) == Field(SumStats(st), k)
  {
    AccSection(v, |st|, k);
    ColumnSum(st, k);
  }

  /** Section `k` of the `6 * |st|` entries at `off` is column `k` of `st`. */
  lemma SectionOfLayout(t: seq<F3>, off: int, st: seq<Stats>, k: int)
    requires Holds(t, off, st) && 0 <= k < 6
    ensures 0 <= k * |st| && k * |st| + |st| <= 6 * |st|
    ensures t[off..off + 6 * |st|][k * |st|..k * |st| + |st|] == Column(st, k)
  {
    HoldsSection(t, off, st, k);
    NestedSection(t, off, |st|, k, Column(st, k));
  }

  /** Section `k` of the `6 * n` entries at `off`, read inside their slice. */
  lemma NestedSection(t: seq<F3>, off: int, n: int, k: int, col: seq<F3>)
    requires 0 <= off && n >= 0 && off + 6 * n <= |t| && 0 <= k < 6
    requires 0 <= off + k * n && off + k * n + n <= |t| && t[off + k * n..off + k * n + n] == col
    ensures 0 <= k * n && k * n + n <= 6 * n
    ensures t[off..off + 6 * n][k * n..k * n + n] == col
  {
    MulMono(k, 5, n);
    var lo := k * n;
    SliceOfSlice(t, off, off + 6 * n, lo, lo + n);
    assert off + lo + n == off + (lo + n);
  }

  /**
   * The host loop of one level: `i` runs over the six sections of `bl`
   * records at `scaleoutdone[scale]` and adds entry `i` into
   * `result[6 * scale + k]` for the section `k` it falls in. Each of the six
   * entries gains its section's sum; no other entry changes.
   */
  method LevelGroupSums(result: array<F3>, hostback: array<F3>, base: int, off: int, bl: int, ghost st: seq<Stats>)
    requires result != hostback && result.Length == 6 * Scales && 0 <= base <= 6 * Scales - 6
    requires |st| == bl && Holds(hostback[..], off, st)
    modifies result
    ensures forall k :: 0 <= k < 6 ==> result[base + k] == Add(old(result[base + k]), Field(SumStats(st), k))
    ensures forall j :: 0 <= j < result.Length && !(base <= j < base + 6) ==> result[j] == old(result[j])
  {
    ghost var r0 := result[..];
    ghost var v := hostback[off..off + 6 * bl];
    var i := 0;
    while i < 6 * bl
      invariant 0 <= i <= 6 * bl
      invariant forall k :: 0 <= k < 6 ==> result[base + k] == Add(r0[base + k], Acc(v, bl, k, i))
      invariant forall j :: 0 <= j < result.Length && !(base <= j < base + 6) ==> result[j] == r0[j]
    {
      assert hostback[off + i] == v[i];
      if i < bl {
        result[base] := Add(result[base], hostback[off + i]);
      } else if i < 2 * bl {
        result[base + 1] := Add(result[base + 1], hostback[off + i]);
      } else if i < 3 * bl {
        result[base + 2] := Add(result[base + 2], hostback[off + i]);
      } else if i < 4 * bl {
        result[base + 3] := Add(result[base + 3], hostback[off + i]);
      } else if i < 5 * bl {
        result[base + 4] := Add(result[base + 4], hostback[off + i]);
      } else {
        result[base + 5] := Add(result[base + 5], hostback[off + i]);
      }
      i := i + 1;
    }
    forall k | 0 <= k < 6
      ensures result[base + k] == Add(r0[base + k], Field(SumStats(st), k))
    {
      AccComplete(hostback[..], off, st, k);
    }
  }

  /**
   * Level `j` is done: its `LevelPartials` final records sit at
   * `scaleoutdone[j]` in `t` and add up to the level's total.
   */
  ghost predicate LevelDone(t: seq<F3>, im1: seq<F3>, im2: seq<F3>, w: int, h: int, maxshared: int, g: seq<real>,
                            j: nat, fin: seq<Stats>)
    requires w >= 1 && h >= 1 && j < Scales && |g| == TableLength
    requires |im1| == TotalScaleSize(w, h) && |im2| == TotalScaleSize(w, h)
    requires PassesRun(maxshared, BlockCount(w, h))
  {
    |fin| == LevelPartials(w, h, maxshared, j) &&
    Holds(t, ScaleOffset(w, h, maxshared, j), fin) &&
    SumStats(fin) == LevelTotal(im1, im2, w, h, g, j)
  }

  /** What `ScaleScores` leaves for the level at `index` is level `scale` done. */
  lemma LevelDoneIntro(t: seq<F3>, im1: seq<F3>, im2: seq<F3>, basewidth: int, baseheight: int, maxshared: int, g: seq<real>,
                       scale: nat, w: int, h: int, index: int, fin: seq<Stats>)
    requires basewidth >= 1 && baseheight >= 1 && IsTable(g) && scale < Scales
    requires |im1| == TotalScaleSize(basewidth, baseheight) && |im2| == TotalScaleSize(basewidth, baseheight)
    requires PassesRun(maxshared, BlockCount(basewidth, baseheight))
    requires w == LevelDim(basewidth, scale) && h == LevelDim(baseheight, scale)
    requires index == LevelOffset(basewidth, baseheight, scale) && 0 <= index <= index + w * h <= |im1|
    requires PassesRun(maxshared, BlockCount(w, h))
    requires |fin| == Remaining(BlockCount(w, h), PassThreads(maxshared, BlockCount(w, h)))
    requires Holds(t, ScaleOffset(basewidth, baseheight, maxshared, scale), fin)
    requires SumStats(fin) == SumStats(MapBlocks(im1[index..index + w * h], im2[index..index + w * h], w, h, g))
    ensures LevelDone(t, im1, im2, basewidth, baseheight, maxshared, g, scale, fin)
  {
    assert LevelImage(im1, basewidth, baseheight, scale) == im1[index..index + w * h];
    assert LevelImage(im2, basewidth, baseheight, scale) == im2[index..index + w * h];
  }

  /** A copy of the first `n` entries carries every layout that lies inside them. */
  lemma HoldsCopy(t: seq<F3>, p: seq<F3>, off: int, st: seq<Stats>, n: int)
    requires Holds(t, off, st) && off + 6 * |st| <= n <= |p| && n <= |t|
    requires forall i :: 0 <= i < n ==> p[i] == t[i]
    ensures Holds(p, off, st)
  {}

  /**
   * One turn of the device loop of `allscore_map` (level `scale`, of size
   * `w` by `h`, at `index` in the pyramid buffers): earlier levels' final
   * records are left alone.
   */
  method DeviceLevel(temp: array<F3>, sodAt: int, im1: seq<F3>, im2: seq<F3>, basewidth: int, baseheight: int,
                     maxshared: int, g: seq<real>, scale: nat, w: int, h: int, index: int, ghost finals: seq<seq<Stats>>)
    returns (blr: int, ghost fin: seq<Stats>)
    requires basewidth >= 1 && baseheight >= 1 && IsTable(g) && scale < Scales && |finals| == scale
    requires |im1| == TotalScaleSize(basewidth, baseheight) && |im2| == TotalScaleSize(basewidth, baseheight)
    requires PassesRun(maxshared, BlockCount(basewidth, baseheight))
    requires ScratchNeed(basewidth, baseheight, maxshared, Scales) <= temp.Length
    requires w == LevelDim(basewidth, scale) && h == LevelDim(baseheight, scale)
    requires index == LevelOffset(basewidth, baseheight, scale) && sodAt == ScaleOffset(basewidth, baseheight, maxshared, scale)
    requires forall j :: 0 <= j < scale ==> LevelDone(temp[..], im1, im2, basewidth, baseheight, maxshared, g, j, finals[j])
    modifies temp
    ensures blr == LevelPartials(basewidth, baseheight, maxshared, scale)
    ensures forall j :: 0 <= j < scale ==> LevelDone(temp[..], im1, im2, basewidth, baseheight, maxshared, g, j, finals[j])
    ensures LevelDone(temp[..], im1, im2, basewidth, baseheight, maxshared, g, scale, fin)
  {
    LevelOffsetMonotone(basewidth, baseheight, scale, Scales);
    LevelPassesRun(basewidth, baseheight, maxshared, scale);
    ScratchNeedCovers(basewidth, baseheight, maxshared, scale, Scales);
    ghost var reach := ScaleReach(BlockCount(w, h), PassThreads(maxshared, BlockCount(w, h)));
    ghost var before := temp[..];
    blr, fin := ScaleScores(temp, sodAt, im1[index..index + w * h], im2[index..index + w * h], w, h, g, maxshared);
    LevelDoneIntro(temp[..], im1, im2, basewidth, baseheight, maxshared, g, scale, w, h, index, fin);
    forall j | 0 <= j < scale
      ensures LevelDone(temp[..], im1, im2, basewidth, baseheight, maxshared, g, j, finals[j])
    {
      ScaleOffsetMono(basewidth, baseheight, maxshared, j, scale);
      HoldsFrame(before, temp[..], ScaleOffset(basewidth, baseheight, maxshared, j), finals[j], sodAt, sodAt + reach);
    }
  }

  /** A level, then `scaleoutdone[scale + 1] = scaleoutdone[scale] + 6 * blr_x`. */
  method DeviceStep(temp: array<F3>, sod: array<int>, im1: seq<F3>, im2: seq<F3>, basewidth: int, baseheight: int,
                    maxshared: int, g: seq<real>, scale: nat, w: int, h: int, index: int, ghost finals: seq<seq<Stats>>)
    returns (ghost finals': seq<seq<Stats>>)
    requires basewidth >= 1 && baseheight >= 1 && IsTable(g) && scale < Scales && |finals| == scale
    requires |im1| == TotalScaleSize(basewidth, baseheight) && |im2| == TotalScaleSize(basewidth, baseheight)
    requires PassesRun(maxshared, BlockCount(basewidth, baseheight))
    requires ScratchNeed(basewidth, baseheight, maxshared, Scales) <= temp.Length
    requires w == LevelDim(basewidth, scale) && h == LevelDim(baseheight, scale)
    requires index == LevelOffset(basewidth, baseheight, scale)
    requires sod.Length == Scales + 1
    requires forall j :: 0 <= j <= scale ==> sod[j] == ScaleOffset(basewidth, baseheight, maxshared, j)
    requires forall j :: 0 <= j < scale ==> LevelDone(temp[..], im1, im2, basewidth, baseheight, maxshared, g, j, finals[j])
    modifies temp, sod
    ensures |finals'| == scale + 1
    ensures forall j :: 0 <= j <= scale + 1 ==> sod[j] == ScaleOffset(basewidth, baseheight, maxshared, j)
    ensures forall j :: 0 <= j <= scale ==> LevelDone(temp[..], im1, im2, basewidth, baseheight, maxshared, g, j, finals'[j])
  {
    var blr;
    ghost var fin;
    blr, fin := DeviceLevel(temp, sod[scale], im1, im2, basewidth, baseheight, maxshared, g, scale, w, h, index, finals);
    ghost var t := temp[..];
    ghost var prev := finals;
    ghost var sodPrev := sod[..];
    finals' := finals + [fin];
    sod[scale + 1] := sod[scale] + 6 * blr;
    assert temp[..] == t;
    DoneSnoc(t, im1, im2, basewidth, baseheight, maxshared, g, scale, prev, fin);
    forall j | 0 <= j <= scale + 1
      ensures sod[j] == ScaleOffset(basewidth, baseheight, maxshared, j)
    {
      if j <= scale { assert sod[j] == sodPrev[j]; }
    }
  }

  /** Appending the records of level `scale` to those of the levels before it. */
  lemma DoneSnoc(t: seq<F3>, im1: seq<F3>, im2: seq<F3>, w: int, h: int, maxshared: int, g: seq<real>,
                 scale: nat, finals: seq<seq<Stats>>, fin: seq<Stats>)
    requires w >= 1 && h >= 1 && IsTable(g) && scale < Scales && |finals| == scale
    requires |im1| == TotalScaleSize(w, h) && |im2| == TotalScaleSize(w, h)
    requires PassesRun(maxshared, BlockCount(w, h))
    requires forall j :: 0 <= j < scale ==> LevelDone(t, im1, im2, w, h, maxshared, g, j, finals[j])
    requires LevelDone(t, im1, im2, w, h, maxshared, g, scale, fin)
    ensures forall j :: 0 <= j <= scale ==> LevelDone(t, im1, im2, w, h, maxshared, g, j, (finals + [fin])[j])
  {
    forall j | 0 <= j <= scale
      ensures LevelDone(t, im1, im2, w, h, maxshared, g, j, (finals + [fin])[j])
    {
      if j < scale {
        assert (finals + [fin])[j] == finals[j];
      }
    }
  }

  /**
   * The device loop of `allscore_map`: for each level, the kernel and the
   * passes, then `scaleoutdone[scale + 1] = scaleoutdone[scale] + 6 * blr_x`,
   * `index += w * h` and both sizes halved.
   */
  method DeviceLevels(temp: array<F3>, im1: seq<F3>, im2: seq<F3>, basewidth: int, baseheight: int, maxshared: int, g: seq<real>)
    returns (sod: array<int>, ghost finals: seq<seq<Stats>>)
    requires basewidth >= 1 && baseheight >= 1 && IsTable(g)
    requires |im1| == TotalScaleSize(basewidth, baseheight) && |im2| == TotalScaleSize(basewidth, baseheight)
    requires PassesRun(maxshared, BlockCount(basewidth, baseheight))
    requires ScratchNeed(basewidth, baseheight, maxshared, Scales) <= temp.Length
    modifies temp
    ensures fresh(sod) && sod.Length == Scales + 1 && |finals| == Scales
    ensures forall j :: 0 <= j <= Scales ==> sod[j] == ScaleOffset(basewidth, baseheight, maxshared, j)
    ensures forall j :: 0 <= j < Scales ==> LevelDone(temp[..], im1, im2, basewidth, baseheight, maxshared, g, j, finals[j])
  {
    var w := basewidth;
    var h := baseheight;
    var index := 0;
    sod := new int[Scales + 1](_ => 0);
    finals := [];
    var scale := 0;
    while scale < Scales
      invariant 0 <= scale <= Scales && |finals| == scale
      invariant w == LevelDim(basewidth, scale) && h == LevelDim(baseheight, scale)
      invariant index == LevelOffset(basewidth, baseheight, scale)
      invariant forall j :: 0 <= j <= scale ==> sod[j] == ScaleOffset(basewidth, baseheight, maxshared, j)
      invariant forall j :: 0 <= j < scale ==> LevelDone(temp[..], im1, im2, basewidth, baseheight, maxshared, g, j, finals[j])
    {
      finals := DeviceStep(temp, sod, im1, im2, basewidth, baseheight, maxshared, g, scale, w, h, index, finals);
      w, h, index := NextLevel(w, h, index, basewidth, baseheight, scale);
      scale := scale + 1;
    }
  }

  /** `index += w * h` and both sizes halved: the next level's sizes and offset. */
  method NextLevel(w: int, h: int, index: int, ghost basewidth: int, ghost baseheight: int, ghost scale: nat)
    returns (w': int, h': int, index': int)
    requires basewidth >= 1 && baseheight >= 1
    requires w == LevelDim(basewidth, scale) && h == LevelDim(baseheight, scale)
    requires index == LevelOffset(basewidth, baseheight, scale)
    ensures w' == LevelDim(basewidth, scale + 1) && h' == LevelDim(baseheight, scale + 1)
    ensures index' == LevelOffset(basewidth, baseheight, scale + 1)
  {
    index' := index + w * h;
    w' := (w - 1) / 2 + 1;
    h' := (h - 1) / 2 + 1;
  }

  /** The last loop of `allscore_map`: the 4th root of every odd entry, lane by lane. */
  method FourthRoots(result: array<F3>, sqrt: real -> real)
    requires result.Length == 6 * Scales
    modifies result
    ensures forall j :: 0 <= j < result.Length ==>
      result[j] == if j % 2 == 1 then Root4(old(result[j]), sqrt) else old(result[j])
  {
    var i := 0;
    while i < 3 * Scales
      invariant 0 <= i <= 3 * Scales
      invariant forall j :: 0 <= j < result.Length ==>
        result[j] == if j % 2 == 1 && j < 2 * i then Root4(old(result[j]), sqrt) else old(result[j])
    {
      result[2 * i + 1] := result[2 * i + 1].(x := sqrt(sqrt(result[2 * i + 1].x)));
      result[2 * i + 1] := result[2 * i + 1].(y := sqrt(sqrt(result[2 * i + 1].y)));
      result[2 * i + 1] := result[2 * i + 1].(z := sqrt(sqrt(result[2 * i + 1].z)));
      i := i + 1;
    }
  }

  /** `stream.memcpy(hostback, temp, scaleoutdone[6] float3)`: every level's final records reach the host buffer. */
  method CopyToHost(pinned: array<F3>, temp: array<F3>, n: int, sod: array<int>, ghost finals: seq<seq<Stats>>)
    requires pinned != temp && 0 <= n <= temp.Length && n <= pinned.Length && |finals| < sod.Length
    requires forall j :: 0 <= j < |finals| ==> Holds(temp[..], sod[j], finals[j]) && sod[j] + 6 * |finals[j]| <= n
    modifies pinned
    ensures forall i :: 0 <= i < n ==> pinned[i] == temp[i]
    ensures forall i :: n <= i < pinned.Length ==> pinned[i] == old(pinned[i])
    ensures forall j :: 0 <= j < |finals| ==> Holds(pinned[..], sod[j], finals[j])
  {
    forall i | 0 <= i < n {
      pinned[i] := temp[i];
    }
    forall j | 0 <= j < |finals|
      ensures Holds(pinned[..], sod[j], finals[j])
    {
      HoldsCopy(temp[..], pinned[..], sod[j], finals[j], n);
    }
  }

  /**
   * The host loop of `allscore_map` over the six levels: entry `6 * s + k`
   * of the zeroed `result` becomes field `k` of level `s`'s records summed.
   */
  method HostSums(result: array<F3>, hostback: array<F3>, sod: array<int>, ghost finals: seq<seq<Stats>>)
    requires result != hostback && result.Length == 6 * Scales && sod.Length == Scales + 1 && |finals| == Scales
    requires forall j :: 0 <= j < result.Length ==> result[j] == Zero
    requires forall s :: 0 <= s < Scales ==>
      Holds(hostback[..], sod[s], finals[s]) && sod[s + 1] - sod[s] == 6 * |finals[s]|
    modifies result
    ensures forall j :: 0 <= j < result.Length ==> result[j] == Field(SumStats(finals[j / 6]), j % 6)
  {
    var scale := 0;
    while scale < Scales
      invariant 0 <= scale <= Scales
      invariant forall j :: 0 <= j < 6 * scale ==> result[j] == Field(SumStats(finals[j / 6]), j % 6)
      invariant forall j :: 6 * scale <= j < result.Length ==> result[j] == Zero
    {
      var bl := (sod[scale + 1] - sod[scale]) / 6;
      assert bl == |finals[scale]|;
      ghost var r0 := result[..];
      LevelGroupSums(result, hostback, 6 * scale, sod[scale], bl, finals[scale]);
      forall j | 0 <= j < 6 * scale + 6
        ensures result[j] == Field(SumStats(finals[j / 6]), j % 6)
      {
        if j >= 6 * scale {
          var k := j - 6 * scale;
          assert j / 6 == scale && j % 6 == k;
          assert result[6 * scale + k] == Add(r0[6 * scale + k], Field(SumStats(finals[scale]), k));
        }
      }
      scale := scale + 1;
    }
  }

  /**
   * `allscore_map`: the 36 entries, six per level, of the per-block records
   * summed over each level, with the 4th-power sums replaced by their 4th
   * roots. `temp` is the device scratch, `pinned` the host buffer the final
   * records are copied to.
   */
  method AllScoreMap(im1: seq<F3>, im2: seq<F3>, temp: array<F3>, pinned: array<F3>, basewidth: int, baseheight: int,
                     maxshared: int, g: seq<real>, sqrt: real -> real)
    returns (result: seq<F3>)
    requires basewidth >= 1 && baseheight >= 1 && IsTable(g)
    requires |im1| == TotalScaleSize(basewidth, baseheight) && |im2| == TotalScaleSize(basewidth, baseheight)
    requires PassesRun(maxshared, BlockCount(basewidth, baseheight))
    requires ScratchNeed(basewidth, baseheight, maxshared, Scales) <= temp.Length
    requires ScaleOffset(basewidth, baseheight, maxshared, Scales) <= pinned.Length
    requires temp != pinned
    modifies temp, pinned
    ensures result == ScoreVector(im1, im2, basewidth, baseheight, g, sqrt)
  {
    var sod;
    ghost var finals;
    sod, finals := DeviceLevels(temp, im1, im2, basewidth, baseheight, maxshared, g);
    ghost var t := temp[..];
    DoneLayout(t, im1, im2, basewidth, baseheight, maxshared, g, sod, finals);
    result := HostScores(temp, pinned, sod, finals, sqrt);
    ResultIsScoreVector(t, im1, im2, basewidth, baseheight, maxshared, g, sqrt, finals, result);
  }

  /** The host half of `allscore_map`: the copied records summed per level, then the odd entries' 4th roots. */
  method HostScores(temp: array<F3>, pinned: array<F3>, sod: array<int>, ghost finals: seq<seq<Stats>>, sqrt: real -> real)
    returns (result: seq<F3>)
    requires temp != pinned && sod.Length == Scales + 1 && |finals| == Scales
    requires 0 <= sod[Scales] <= temp.Length && sod[Scales] <= pinned.Length
    requires forall j :: 0 <= j < Scales ==> sod[j + 1] - sod[j] == 6 * |finals[j]| && sod[j] + 6 * |finals[j]| <= sod[Scales]
    requires forall j :: 0 <= j < |finals| ==> Holds(temp[..], sod[j], finals[j])
    modifies pinned
    ensures |result| == 6 * Scales
    ensures forall j :: 0 <= j < 6 * Scales ==>
      result[j] == if j % 2 == 1 then Root4(Field(SumStats(finals[j / 6]), j % 6), sqrt) else Field(SumStats(finals[j / 6]), j % 6)
  {
    var res := HostPhase(temp, pinned, sod, finals);
    FourthRoots(res, sqrt);
    result := res[..];
  }

  /** Finished levels lie back to back at their offsets, each inside the region the host copies. */
  lemma DoneLayout(t: seq<F3>, im1: seq<F3>, im2: seq<F3>, w: int, h: int, maxshared: int, g: seq<real>,
                   sod: array<int>, finals: seq<seq<Stats>>)
    requires w >= 1 && h >= 1 && IsTable(g) && |finals| == Scales && sod.Length == Scales + 1
    requires |im1| == TotalScaleSize(w, h) && |im2| == TotalScaleSize(w, h)
    requires PassesRun(maxshared, BlockCount(w, h))
    requires forall j :: 0 <= j <= Scales ==> sod[j] == ScaleOffset(w, h, maxshared, j)
    requires forall j :: 0 <= j < Scales ==> LevelDone(t, im1, im2, w, h, maxshared, g, j, finals[j])
    ensures forall j :: 0 <= j < Scales ==> sod[j + 1] - sod[j] == 6 * |finals[j]| && sod[j] + 6 * |finals[j]| <= sod[Scales]
    ensures forall j :: 0 <= j < Scales ==> Holds(t, sod[j], finals[j])
  {
    forall j | 0 <= j < Scales
      ensures sod[j + 1] - sod[j] == 6 * |finals[j]| && sod[j] + 6 * |finals[j]| <= sod[Scales]
      ensures Holds(t, sod[j], finals[j])
    {
      ScaleOffsetMono(w, h, maxshared, j, Scales);
      assert LevelDone(t, im1, im2, w, h, maxshared, g, j, finals[j]);
    }
  }

  /**
   * The host side of `allscore_map`: the final records of all levels are
   * copied to `pinned`, then summed section by section into a fresh
   * 36-entry result.
   */
  method HostPhase(temp: array<F3>, pinned: array<F3>, sod: array<int>, ghost finals: seq<seq<Stats>>)
    returns (res: array<F3>)
    requires temp != pinned && sod.Length == Scales + 1 && |finals| == Scales
    requires 0 <= sod[Scales] <= temp.Length && sod[Scales] <= pinned.Length
    requires forall j :: 0 <= j < Scales ==> sod[j + 1] - sod[j] == 6 * |finals[j]| && sod[j] + 6 * |finals[j]| <= sod[Scales]
    requires forall j :: 0 <= j < |finals| ==> Holds(temp[..], sod[j], finals[j])
    modifies pinned
    ensures fresh(res) && res.Length == 6 * Scales
    ensures forall j :: 0 <= j < res.Length ==> res[j] == Field(SumStats(finals[j / 6]), j % 6)
  {
    res := new F3[6 * Scales](_ => Zero);
    CopyToHost(pinned, temp, sod[Scales], sod, finals);
    HostSums(res, pinned, sod, finals);
  }

  /** The host's sums, with the odd entries' 4th roots taken, are the score vector. */
  lemma ResultIsScoreVector(t: seq<F3>, im1: seq<F3>, im2: seq<F3>, w: int, h: int, maxshared: int, g: seq<real>,
                            sqrt: real -> real, finals: seq<seq<Stats>>, result: seq<F3>)
    requires w >= 1 && h >= 1 && |g| == TableLength && |finals| == Scales
    requires |im1| == TotalScaleSize(w, h) && |im2| == TotalScaleSize(w, h)
    requires PassesRun(maxshared, BlockCount(w, h))
    requires forall j :: 0 <= j < Scales ==> LevelDone(t, im1, im2, w, h, maxshared, g, j, finals[j])
    requires |result| == 6 * Scales
    requires forall j :: 0 <= j < 6 * Scales ==>
      result[j] == if j % 2 == 1 then Root4(Field(SumStats(finals[j / 6]), j % 6), sqrt) else Field(SumStats(finals[j / 6]), j % 6)
    ensures result == ScoreVector(im1, im2, w, h, g, sqrt)
  {
    forall j | 0 <= j < 6 * Scales
      ensures result[j] == ScoreVector(im1, im2, w, h, g, sqrt)[j]
    {
      assert LevelDone(t, im1, im2, w, h, maxshared, g, j / 6, finals[j / 6]);
    }
  }

  /** `6 * sizeof(float3) / 32 * 32`: the divisor `allocsizeScore` uses, 96, where the rounding to 32 applies to the divisor instead of the quotient. */
  const AllocItemBytes: int := 6 * 16 / 32 * 32

  /**
   * `th_x` as `allocsizeScore` computes it: `maxshared / (6 * 16 / 32 * 32)`,
   * that is `maxshared / 96`, capped at 1024 and at the block count, and
   * zero when the device reports no local memory. Unlike `PassThreads`, it
   * is not rounded down to a multiple of 32.
   */
  function AllocThreads(maxshared: int, nb: int): (th: int)
    requires maxshared >= 0
    ensures maxshared >= 192 && nb >= ReduceUpTo ==> th >= 2
  {
    if maxshared != 0 then Min(maxshared / AllocItemBytes, Min(1024, nb)) else 0
  }

  /**
   * What `PassesRun` and `AllocRuns` rule out. Below 3072 bytes of local
   * memory the passes get `th_x == 0` once a level has 256 records or more,
   * and divide by it. `allocsizeScore` gets no work-item below 96 bytes, a
   * division by zero, and exactly one from 96 to 191 bytes, where a
   * reduction step leaves the record count unchanged and its loop never ends.
   */
  lemma ThreadCountsDegenerate(maxshared: int, nb: int)
    requires maxshared >= 0 && nb >= ReduceUpTo
    ensures maxshared < 3072 ==> PassThreads(maxshared, nb) == 0
    ensures maxshared < AllocItemBytes ==> AllocThreads(maxshared, nb) == 0
    ensures AllocItemBytes <= maxshared < 2 * AllocItemBytes ==> AllocThreads(maxshared, nb) == 1 && CeilDiv(nb, 1) == nb
  {
  }

  /**
   * `k` turns of the `while` of `allocsizeScore` from `n` records at a fixed
   * `th` work-items per group, stopping early once fewer than 256 are left:
   * `Remaining` without its guarantee of progress.
   */
  function AllocTurns(n: int, th: int, k: nat): (r: int)
    requires n >= 1 && th >= 1
    ensures 1 <= r <= n
  {
    if k == 0 || n < ReduceUpTo then n else AllocTurns(CeilDiv(n, th), th, k - 1)
  }

  /**
   * With 96 to 191 bytes of local memory and at least 256 blocks,
   * `allocsizeScore` runs its loop with one work-item per group: after any
   * number of turns the count is unchanged, so the loop never ends.
   */
  lemma {:induction false} AllocLoopStalls(maxshared: int, nb: int, k: nat)
    requires AllocItemBytes <= maxshared < 2 * AllocItemBytes && nb >= ReduceUpTo
    ensures AllocThreads(maxshared, nb) == 1 && AllocTurns(nb, AllocThreads(maxshared, nb), k) == nb
  {
    if k > 0 {
      AllocLoopStalls(maxshared, nb, k - 1);
    }
  }

  /** The loop of `allocsizeScore` terminates: it needs two work-items per group whenever it runs. */
  predicate AllocRuns(maxshared: int, nb: int)
  {
    maxshared >= 0 && (nb < ReduceUpTo || maxshared >= 192)
  }

  /** What `allocsizeScore` adds up for its first `s` levels: six entries per record its own count leaves. */
  function AllocSum(w: int, h: int, maxshared: int, s: nat): (r: int)
    requires w >= 1 && h >= 1 && AllocRuns(maxshared, BlockCount(w, h))
    ensures r >= 0
  {
    if s == 0 then 0
    else
      var nb := LevelBlocks(w, h, s - 1);
      LevelBlocksAtMost(w, h, s - 1);
      AllocSum(w, h, maxshared, s - 1) + 6 * Remaining(nb, AllocThreads(maxshared, nb))
  }

  /** `while (bl_x >= 256) bl_x = (bl_x - 1) / th_x + 1;`: the count the passes leave. */
  method ReduceCount(n: int, thX: int) returns (blx: int)
    requires n >= 1 && (n >= ReduceUpTo ==> thX >= 2)
    ensures blx == Remaining(n, thX)
  {
    blx := n;
    while blx >= ReduceUpTo
      invariant 1 <= blx <= n && Remaining(blx, thX) == Remaining(n, thX)
      decreases blx
    {
      RemainingStep(blx, thX);
      CeilDivShrinks(blx, thX);
      blx := (blx - 1) / thX + 1;
    }
  }

  /**
   * `allocsizeScore` as written: the pinned buffer size, in float3, that
   * `init` allocates for the final records `allscore_map` copies back.
   */
  method AllocSizeScore(width: int, height: int, maxshared: int) returns (pinnedsize: int)
    requires width >= 1 && height >= 1 && AllocRuns(maxshared, BlockCount(width, height))
    ensures pinnedsize == AllocSum(width, height, maxshared, Scales)
  {
    var w := width;
    var h := height;
    pinnedsize := 0;
    for i := 0 to Scales
      invariant w == LevelDim(width, i) && h == LevelDim(height, i)
      invariant pinnedsize == AllocSum(width, height, maxshared, i)
    {
      var blx := AllocLevel(w, h, maxshared, width, height, i);
      pinnedsize := pinnedsize + 6 * blx;
      w := (w - 1) / 2 + 1;
      h := (h - 1) / 2 + 1;
    }
  }

  /** One turn of the loop of `allocsizeScore`: the records left at level `i` by its own thread count. */
  method AllocLevel(w: int, h: int, maxshared: int, ghost width: int, ghost height: int, ghost i: nat) returns (blx: int)
    requires width >= 1 && height >= 1 && AllocRuns(maxshared, BlockCount(width, height))
    requires w == LevelDim(width, i) && h == LevelDim(height, i)
    ensures LevelBlocks(width, height, i) <= BlockCount(width, height)
    ensures blx == Remaining(LevelBlocks(width, height, i), AllocThreads(maxshared, LevelBlocks(width, height, i)))
    ensures AllocSum(width, height, maxshared, i + 1) == AllocSum(width, height, maxshared, i) + 6 * blx
  {
    blx := (w - 1) / GroupSide + 1;
    var bly := (h - 1) / GroupSide + 1;
    assert blx == CeilDiv(w, GroupSide) && bly == CeilDiv(h, GroupSide);
    blx := blx * bly;
    LevelBlocksAtMost(width, height, i);
    var thX := 0;
    if maxshared != 0 {
      thX := Min(maxshared / AllocItemBytes, Min(1024, blx));
    }
    assert thX == AllocThreads(maxshared, LevelBlocks(width, height, i));
    blx := ReduceCount(blx, thX);
  }

  /**
   * For a 720 by 480 image on a device with 64 KiB of local memory,
   * `allocsizeScore` reserves 786 float3 while `allscore_map` copies 792
   * into that buffer: at level 0 its 682 work-items per group leave 2 of
   * the 1350 records where the 672 of the real passes leave 3.
   */
  lemma AllocSizeTooSmall()
    ensures AllocSum(720, 480, 65536, Scales) == 786
    ensures ScaleOffset(720, 480, 65536, Scales) == 792
  {
    AllocSum720();
    ScaleOffset720();
  }

  lemma AllocSum720()
    ensures AllocSum(720, 480, 65536, Scales) == 786
  {
    LevelBlocks720();
    assert AllocThreads(65536, 1350) == 682 && CeilDiv(1350, 682) == 2;
    assert AllocSum(720, 480, 65536, 1) == 12;
    assert AllocThreads(65536, 345) == 345 && CeilDiv(345, 345) == 1;
    assert AllocSum(720, 480, 65536, 2) == 18;
    assert AllocSum(720, 480, 65536, 3) == 594;
    assert AllocSum(720, 480, 65536, 4) == 738;
    assert AllocSum(720, 480, 65536, 5) == 774;
  }

  lemma ScaleOffset720()
    ensures ScaleOffset(720, 480, 65536, Scales) == 792
  {
    LevelBlocks720();
    assert PassThreads(65536, 1350) == 672 && CeilDiv(1350, 672) == 3;
    assert ScaleOffset(720, 480, 65536, 1) == 18;
    assert PassThreads(65536, 345) == 345 && CeilDiv(345, 345) == 1;
    assert ScaleOffset(720, 480, 65536, 2) == 24;
    assert ScaleOffset(720, 480, 65536, 3) == 600;
    assert ScaleOffset(720, 480, 65536, 4) == 744;
    assert ScaleOffset(720, 480, 65536, 5) == 780;
  }

  /** Block counts of the six levels of a 720 by 480 image. */
  lemma LevelBlocks720()
    ensures LevelBlocks(720, 480, 0) == 1350 && LevelBlocks(720, 480, 1) == 345
    ensures LevelBlocks(720, 480, 2) == 96 && LevelBlocks(720, 480, 3) == 24
    ensures LevelBlocks(720, 480, 4) == 6 && LevelBlocks(720, 480, 5) == 2
  {
    assert LevelDim(720, 1) == 360 && LevelDim(480, 1) == 240;
    assert LevelDim(720, 2) == 180 && LevelDim(480, 2) == 120;
    assert LevelDim(720, 3) == 90 && LevelDim(480, 3) == 60;
    assert LevelDim(720, 4) == 45 && LevelDim(480, 4) == 30;
    assert LevelDim(720, 5) == 23 && LevelDim(480, 5) == 15;
    assert CeilDiv(720, 16) == 45 && CeilDiv(480, 16) == 30;
    assert CeilDiv(360, 16) == 23 && CeilDiv(240, 16) == 15;
    assert CeilDiv(180, 16) == 12 && CeilDiv(120, 16) == 8;
    assert CeilDiv(90, 16) == 6 && CeilDiv(60, 16) == 4;
    assert CeilDiv(45, 16) == 3 && CeilDiv(30, 16) == 2;
    assert CeilDiv(23, 16) == 2 && CeilDiv(15, 16) == 1;
  }

  /**
   * `allocsizeScore` with the passes' own thread count: exactly the
   * `scaleoutdone[6]` float3 that `allscore_map` copies back.
   */
  method AllocSizeScoreFixed(width: int, height: int, maxshared: int) returns (pinnedsize: int)
    requires width >= 1 && height >= 1 && PassesRun(maxshared, BlockCount(width, height))
    ensures pinnedsize == ScaleOffset(width, height, maxshared, Scales)
  {
    var w := width;
    var h := height;
    pinnedsize := 0;
    for i := 0 to Scales
      invariant w == LevelDim(width, i) && h == LevelDim(height, i)
      invariant pinnedsize == ScaleOffset(width, height, maxshared, i)
    {
      var blx := FixedLevel(w, h, maxshared, width, height, i);
      pinnedsize := pinnedsize + 6 * blx;
      w := (w - 1) / 2 + 1;
      h := (h - 1) / 2 + 1;
    }
  }

  /** One turn of the loop of the corrected `allocsizeScore`: the records level `i` leaves for the host. */
  method FixedLevel(w: int, h: int, maxshared: int, ghost width: int, ghost height: int, ghost i: nat) returns (blx: int)
    requires width >= 1 && height >= 1 && PassesRun(maxshared, BlockCount(width, height))
    requires w == LevelDim(width, i) && h == LevelDim(height, i)
    ensures blx == LevelPartials(width, height, maxshared, i)
    ensures ScaleOffset(width, height, maxshared, i + 1) == ScaleOffset(width, height, maxshared, i) + 6 * blx
  {
    blx := (w - 1) / GroupSide + 1;
    var bly := (h - 1) / GroupSide + 1;
    assert blx == CeilDiv(w, GroupSide) && bly == CeilDiv(h, GroupSide);
    blx := blx * bly;
    LevelBlocksAtMost(width, height, i);
    var thX := Min((maxshared / PassItemBytes) / 32 * 32, Min(1024, blx));
    assert thX == PassThreads(maxshared, LevelBlocks(width, height, i));
    blx := ReduceCount(blx, thX);
  }
}
