/**
 * `final_score` (src/ssimu2/score.hpp): the 108 measurements weighted and
 * summed, rescaled, passed through a cubic, and mapped to the 0 to 100
 * scale with a power law (100 is a perfect match).
 *
 * The weights are the 108 constants of the source, read as exact reals;
 * `pow` is a parameter.
 */
module FinalScore {

  /** Number of measurements: 3 planes by 6 levels by 6 statistics. */
  const MeasureCount: int := 108

  /**
   * The source's `weights`, by measurement index
   * `plane * 36 + scale * 6 + n * 3 + i`, one row of 27 at a time.
   */
  const Weights: seq<real> := WeightsRow0 + WeightsRow1 + WeightsRow2 + WeightsRow3

  /** First plane, entries 0 to 26. */
  const WeightsRow0: seq<real> := [
    0.0, 0.0007376606707406586, 0.0,
    0.0, 0.0007793481682867309, 0.0,
    0.0, 0.0004371155730107379, 0.0,
    1.1041726426657346, 0.00066284834129271, 0.00015231632783718752,
    0.0, 0.0016406437456599754, 0.0,
    1.8422455520539298, 11.441172603757666, 0.0,
    0.0007989109436015163, 0.000176816438078653, 0.0,
    1.8787594979546387, 10.94906990605142, 0.0,
    0.0007289346991508072, 0.9677937080626833, 0.0
  ]

  /** First plane, 27 to 35, and second plane, 36 to 53. */
  const WeightsRow1: seq<real> := [
    0.00014003424285435884, 0.9981766977854967, 0.00031949755934435053,
    0.0004550992113792063, 0.0, 0.0,
    0.0013648766163243398, 0.0, 0.0,
    0.0, 0.0, 0.0,
    7.466890328078848, 0.0, 17.445833984131262,
    0.0006235601634041466, 0.0, 0.0,
    6.683678146179332, 0.00037724407979611296, 1.027889937768264,
    225.20515300849274, 0.0, 0.0,
    19.213238186143016, 0.0011401524586618361, 0.001237755635509985
  ]

  /** Second plane, 54 to 71, and third plane, 72 to 80. */
  const WeightsRow2: seq<real> := [
    176.39317598450694, 0.0, 0.0,
    24.43300999870476, 0.28520802612117757, 0.0004485436923833408,
    0.0, 0.0, 0.0,
    34.77906344483772, 44.835625328877896, 0.0,
    0.0, 0.0, 0.0,
    0.0, 0.0, 0.0,
    0.0, 0.0008680556573291698, 0.0,
    0.0, 0.0, 0.0,
    0.0, 0.0005313191874358747, 0.0
  ]

  /** Third plane, 81 to 107. */
  const WeightsRow3: seq<real> := [
    0.00016533814161379112, 0.0, 0.0,
    0.0, 0.0, 0.0,
    0.0004179171803251336, 0.0017290828234722833, 0.0,
    0.0020827005846636437, 0.0, 0.0,
    8.826982764996862, 23.19243343998926, 0.0,
    95.1080498811086, 0.9863978034400682, 0.9834382792465353,
    0.0012286405048278493, 171.2667255897307, 0.9807858872435379,
    0.0, 0.0, 0.0,
    0.0005130064588990679, 0.0, 0.00010854057858411537
  ]

  const Rescale: real := 0.9562382616834844
  const Cube: real := 0.00006248496625763138
  const Linear: real := 2.326765642916932
  const Square: real := 0.020884521182843837
  const Exponent: real := 0.6276336467831387

  /** `fma(a, b, c)`: `a * b + c`. */
  function Fma(a: real, b: real, c: real): real { a * b + c }

  /** The first `n` measurements weighted by `w` and summed by `fma` from index 0. */
  function WeightedSum(w: seq<real>, scores: seq<real>, n: int): real
    requires 0 <= n <= |w| && n <= |scores|
  {
    if n == 0 then 0.0 else Fma(w[n - 1], scores[n - 1], WeightedSum(w, scores, n - 1))
  }

  /** The rescaled sum through the cubic `a t^3 + b t - c t^2`. */
  function Curve(s: real): real
  {
    var t := s * Rescale;
    (Cube * t * t) * t + Linear * t - Square * t * t
  }

  /** The score for weights `w`: `100 - 10 * curve^0.6276...` for a positive curve value, 100 otherwise. */
  function Score(w: seq<real>, scores: seq<real>, pow: (real, real) -> real): real
    requires |w| == |scores| == MeasureCount
  {
    var c := Curve(WeightedSum(w, scores, MeasureCount));
    if c > 0.0 then pow(c, Exponent) * -10.0 + 100.0 else 100.0
  }

  /** `final_score`: the weighted sum by `fma` over the 108 measurements, then the curve and the power law. */
  method ComputeScore(scores: seq<real>, pow: (real, real) -> real) returns (ssim: real)
    requires |scores| == MeasureCount
    ensures ssim == Score(Weights, scores, pow)
  {
    WeightsLength();
    ssim := 0.0;
    for i := 0 to MeasureCount
      invariant ssim == WeightedSum(Weights, scores, i)
    {
      ssim := Fma(Weights[i], scores[i], ssim);
    }
    ghost var sum := ssim;
    ssim := ssim * Rescale;
    ssim := (Cube * ssim * ssim) * ssim + Linear * ssim - Square * ssim * ssim;
    assert ssim == Curve(sum);
    if ssim > 0.0 {
      ssim := pow(ssim, Exponent) * -10.0 + 100.0;
    } else {
      ssim := 100.0;
    }
  }

  lemma WeightsLength()
    ensures |Weights| == MeasureCount
  {
    assert |WeightsRow0| == |WeightsRow1| == |WeightsRow2| == |WeightsRow3| == 27;
  }

  /** All entries of `s` are non-negative. */
  predicate AllNonNeg(s: seq<real>)
  {
    forall i :: 0 <= i < |s| ==> s[i] >= 0.0
  }

  lemma Row0NonNeg()
    ensures AllNonNeg(WeightsRow0)
  {
    forall i | 0 <= i < |WeightsRow0| ensures WeightsRow0[i] >= 0.0 {}
  }

  lemma Row1NonNeg()
    ensures AllNonNeg(WeightsRow1)
  {
    forall i | 0 <= i < |WeightsRow1| ensures WeightsRow1[i] >= 0.0 {}
  }

  lemma Row2NonNeg()
    ensures AllNonNeg(WeightsRow2)
  {
    forall i | 0 <= i < |WeightsRow2| ensures WeightsRow2[i] >= 0.0 {}
  }

  lemma Row3NonNeg()
    ensures AllNonNeg(WeightsRow3)
  {
    forall i | 0 <= i < |WeightsRow3| ensures WeightsRow3[i] >= 0.0 {}
  }

  /** Every weight of the source is non-negative. */
  lemma WeightsNonNeg()
    ensures |Weights| == MeasureCount && AllNonNeg(Weights)
  {
    WeightsLength();
    Row0NonNeg();
    Row1NonNeg();
    Row2NonNeg();
    Row3NonNeg();
    ConcatNonNeg(WeightsRow0, WeightsRow1);
    ConcatNonNeg(WeightsRow0 + WeightsRow1, WeightsRow2);
    ConcatNonNeg(WeightsRow0 + WeightsRow1 + WeightsRow2, WeightsRow3);
  }

  lemma ConcatNonNeg(a: seq<real>, b: seq<real>)
    requires AllNonNeg(a) && AllNonNeg(b)
    ensures AllNonNeg(a + b)
  {
    forall i | 0 <= i < |a + b| ensures (a + b)[i] >= 0.0 {
      if i >= |a| { assert (a + b)[i] == b[i - |a|]; }
    }
  }

  lemma MulLeftMono(w: real, a: real, b: real)
    requires w >= 0.0 && a <= b
    ensures w * a <= w * b
  {}

  /** With non-negative weights, larger measurements never give a smaller weighted sum. */
  lemma {:induction false} WeightedSumMono(w: seq<real>, a: seq<real>, b: seq<real>, n: int)
    requires |w| == |a| == |b| && 0 <= n <= |w| && AllNonNeg(w)
    requires forall i :: 0 <= i < |a| ==> a[i] <= b[i]
    ensures WeightedSum(w, a, n) <= WeightedSum(w, b, n)
  {
    if n > 0 {
      WeightedSumMono(w, a, b, n - 1);
      MulLeftMono(w[n - 1], a[n - 1], b[n - 1]);
    }
  }

  /** All-zero measurements weigh nothing. */
  lemma {:induction false} WeightedSumZero(w: seq<real>, scores: seq<real>, n: int)
    requires 0 <= n <= |w| && n <= |scores|
    requires forall i :: 0 <= i < |scores| ==> scores[i] == 0.0
    ensures WeightedSum(w, scores, n) == 0.0
  {
    if n > 0 {
      WeightedSumZero(w, scores, n - 1);
    }
  }

  /**
   * The cubic is positive for every positive sum: `a t^2 - c t + b` has no
   * real root since `c^2 < 4 a b`.
   */
  lemma CurvePositive(s: real)
    requires s > 0.0
    ensures Curve(s) > 0.0
  {
    var t := s * Rescale;
    var m := Square / (2.0 * Cube);
    var q := Cube * t * t - Square * t + Linear;
    assert q == Cube * (t - m) * (t - m) + (Linear - Cube * m * m);
    assert (t - m) * (t - m) >= 0.0;
    assert Linear - Cube * m * m > 0.0;
    assert q > 0.0;
    assert Curve(s) == t * q;
  }

  /** All-zero measurements give the perfect score, 100. */
  lemma PerfectScore(scores: seq<real>, pow: (real, real) -> real)
    requires |scores| == MeasureCount
    requires forall i :: 0 <= i < MeasureCount ==> scores[i] == 0.0
    ensures |Weights| == MeasureCount && Score(Weights, scores, pow) == 100.0
  {
    WeightsLength();
    WeightedSumZero(Weights, scores, MeasureCount);
  }

  /**
   * With the source's weights, non-negative measurements and a `pow` that
   * is positive on positive arguments, the score is at most 100, and below
   * 100 exactly when the weighted sum is positive.
   */
  lemma ScoreBelowPerfect(scores: seq<real>, pow: (real, real) -> real)
    requires |scores| == MeasureCount
    requires forall i :: 0 <= i < MeasureCount ==> scores[i] >= 0.0
    requires forall x: real :: x > 0.0 ==> pow(x, Exponent) > 0.0
    ensures |Weights| == MeasureCount
    ensures Score(Weights, scores, pow) <= 100.0
    ensures Score(Weights, scores, pow) < 100.0 <==> WeightedSum(Weights, scores, MeasureCount) > 0.0
  {
    WeightsNonNeg();
    var zero := seq(MeasureCount, i => 0.0);
    WeightedSumZero(Weights, zero, MeasureCount);
    WeightedSumMono(Weights, zero, scores, MeasureCount);
    var s := WeightedSum(Weights, scores, MeasureCount);
    if s > 0.0 {
      CurvePositive(s);
    } else {
      assert s == 0.0;
      assert Curve(s) == 0.0;
    }
  }
}
