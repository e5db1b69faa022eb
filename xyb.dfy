/**
 * Colour conversions of the metric (src/ssimu2/makeXYB.hpp): the sRGB
 * transfer curve to linear light, and linear RGB to the "positive XYB"
 * space in which the metric compares images.
 *
 * The cube root and the power function are supplied by the caller (`cbrt`,
 * `pow`): the model does not fix their floating-point implementation, and
 * every property proved here holds whatever they are, unless a lemma states
 * an assumption about them.
 */
module Xyb {
  import opened Geometry
  import opened Float3

  const OpsinBias: real := 0.0037930734
  const AbsBias: real := -0.1559542025327239

  /** Linear sRGB values at or below this magnitude are on the straight segment of the curve. */
  const LinearThreshold: real := 0.04045

  /**
   * `opsin_absorbance`: each lane becomes a weighted sum of the three
   * channels plus a small bias, written as three nested `fma`s. On
   * non-negative light every lane is at least the bias, so it is positive.
   */
  function OpsinAbsorbance(a: F3): (r: F3)
    ensures NonNeg(a) ==> r.x >= OpsinBias && r.y >= OpsinBias && r.z >= OpsinBias
  {
    F3(0.30 * a.x + (0.622 * a.y + (0.078 * a.z + OpsinBias)),
       0.23 * a.x + (0.692 * a.y + (0.078 * a.z + OpsinBias)),
       0.24342269 * a.x + (0.20476745 * a.y + (0.55180986 * a.z + OpsinBias)))
  }

  /** The weights of each lane sum to one, so a grey input `v` gives `v` plus the bias in all three lanes. */
  lemma OpsinGray(v: real)
    ensures OpsinAbsorbance(Splat(v)) == Splat(v + OpsinBias)
  {}

  /**
   * `mixed_to_xyb`: `x` becomes half the difference of `x` and `y`, and `y`
   * the old `y` plus that, i.e. half their sum.
   */
  function MixedToXyb(a: F3): (r: F3)
    ensures r.x == 0.5 * (a.x - a.y) && r.y == 0.5 * (a.x + a.y) && r.z == a.z
  {
    var x := 0.5 * (a.x - a.y);
    F3(x, a.y + x, a.z)
  }

  /** `mixed_to_xyb` loses nothing: the two lanes come back as `y + x` and `y - x`. */
  lemma MixedToXybInvertible(a: F3)
    ensures var r := MixedToXyb(a); F3(r.y + r.x, r.y - r.x, r.z) == a
  {}

  /** `cbrt(v * (int)(v >= 0))`: the cube root of `v`, or of zero when `v` is negative. */
  function ClampedCbrt(v: real, cbrt: real -> real): (r: real)
    ensures v >= 0.0 ==> r == cbrt(v)
    ensures v < 0.0 ==> r == cbrt(0.0)
  {
    cbrt(v * (if v >= 0.0 then 1.0 else 0.0))
  }

  /** `linear_rgb_to_xyb`: opsin absorbance, clamped cube root plus the bias, then the mixing step. */
  function LinearRgbToXyb(a: F3, cbrt: real -> real): F3
  {
    var o := OpsinAbsorbance(a);
    MixedToXyb(F3(ClampedCbrt(o.x, cbrt) + AbsBias, ClampedCbrt(o.y, cbrt) + AbsBias, ClampedCbrt(o.z, cbrt) + AbsBias))
  }

  /** On non-negative light the clamp before the cube root never fires. */
  lemma LinearRgbToXybNonNeg(a: F3, cbrt: real -> real)
    requires NonNeg(a)
    ensures var o := OpsinAbsorbance(a);
            LinearRgbToXyb(a, cbrt) == MixedToXyb(F3(cbrt(o.x) + AbsBias, cbrt(o.y) + AbsBias, cbrt(o.z) + AbsBias))
  {}

  /** `make_positive_xyb`: `z` becomes `z - y + 0.55` (with the old `y`), `y` grows by 0.01, `x` becomes `14 x + 0.42`. */
  function MakePositiveXyb(a: F3): (r: F3)
    ensures F3((r.x - 0.42) / 14.0, r.y - 0.01, r.z - 0.55 + (r.y - 0.01)) == a
  {
    var z := (a.z - a.y) + 0.55;
    var y := a.y + 0.01;
    F3(a.x * 14.0 + 0.42, y, z)
  }

  /** `rgb_to_positive_xyb_d`: one pixel from linear RGB to positive XYB. */
  function RgbToPositiveXybPixel(a: F3, cbrt: real -> real): F3
  {
    MakePositiveXyb(LinearRgbToXyb(a, cbrt))
  }

  /**
   * A grey pixel carries no colour: whatever the cube root is, its X lane
   * is exactly the offset 0.42 and its B lane the offset 0.55.
   */
  lemma GrayIsNeutral(v: real, cbrt: real -> real)
    ensures RgbToPositiveXybPixel(Splat(v), cbrt).x == 0.42
    ensures RgbToPositiveXybPixel(Splat(v), cbrt).z == 0.55
  {
    OpsinGray(v);
  }

  /**
   * `rgb_to_linrgbfunc`: the sRGB transfer curve, applied to either sign.
   * Beyond the threshold it is `((|a| + 0.055) / 1.055) ^ 2.4` with the sign
   * of `a`; at or below it, `a / 12.92`.
   */
  function RgbToLinrgbFunc(a: real, pow: (real, real) -> real): (r: real)
    ensures -LinearThreshold <= a <= LinearThreshold ==> r == a * (1.0 / 12.92)
  {
    if a < 0.0 then
      if a < -LinearThreshold then -pow((-a + 0.055) * (1.0 / 1.055), 2.4) else a * (1.0 / 12.92)
    else if a > LinearThreshold then pow((a + 0.055) * (1.0 / 1.055), 2.4)
    else a * (1.0 / 12.92)
  }

  /** The curve is odd: negative inputs mirror positive ones, threshold included. */
  lemma RgbToLinrgbFuncOdd(a: real, pow: (real, real) -> real)
    ensures RgbToLinrgbFunc(-a, pow) == -RgbToLinrgbFunc(a, pow)
  {}

  /** The curve keeps the sign of its input whenever the power function is positive on positive bases. */
  lemma RgbToLinrgbFuncKeepsSign(a: real, pow: (real, real) -> real)
    requires forall b :: b > 0.0 ==> pow(b, 2.4) > 0.0
    ensures a > 0.0 ==> RgbToLinrgbFunc(a, pow) > 0.0
    ensures a < 0.0 ==> RgbToLinrgbFunc(a, pow) < 0.0
    ensures a == 0.0 ==> RgbToLinrgbFunc(a, pow) == 0.0
  {
    if a > LinearThreshold {
      assert (a + 0.055) * (1.0 / 1.055) > 0.0;
    } else if a < -LinearThreshold {
      assert (-a + 0.055) * (1.0 / 1.055) > 0.0;
    }
  }

  /** `rgb_to_linrgb`: the transfer curve on each lane. */
  function RgbToLinrgb(a: F3, pow: (real, real) -> real): F3
  {
    F3(RgbToLinrgbFunc(a.x, pow), RgbToLinrgbFunc(a.y, pow), RgbToLinrgbFunc(a.z, pow))
  }

  /**
   * `rgb_to_positive_xyb`: a 1-D launch over the first `width` pixels of
   * the array, each converted in place; the rest of the launch returns at once.
   */
  method RgbToPositiveXyb(a: array<F3>, width: int, cbrt: real -> real)
    requires 1 <= width <= a.Length
    modifies a
    ensures forall x :: 0 <= x < width ==> a[x] == RgbToPositiveXybPixel(old(a[x]), cbrt)
    ensures forall x :: width <= x < a.Length ==> a[x] == old(a[x])
  {
    var g := Launch1D(width);
    var id := 0;
    while id < g
      invariant 0 <= id <= g
      invariant forall x :: 0 <= x < Min(id, width) ==> a[x] == RgbToPositiveXybPixel(old(a[x]), cbrt)
      invariant forall x :: Min(id, width) <= x < a.Length ==> a[x] == old(a[x])
    {
      if id < width {
        a[id] := RgbToPositiveXybPixel(a[id], cbrt);
      }
      id := id + 1;
    }
  }

  /**
   * `rgb_to_linear`: a 1-D launch over the first `width` pixels of the
   * array, each linearised in place; the rest of the launch returns at once.
   */
  method RgbToLinear(a: array<F3>, width: int, pow: (real, real) -> real)
    requires 1 <= width <= a.Length
    modifies a
    ensures forall x :: 0 <= x < width ==> a[x] == RgbToLinrgb(old(a[x]), pow)
    ensures forall x :: width <= x < a.Length ==> a[x] == old(a[x])
  {
    var g := Launch1D(width);
    var id := 0;
    while id < g
      invariant 0 <= id <= g
      invariant forall x :: 0 <= x < Min(id, width) ==> a[x] == RgbToLinrgb(old(a[x]), pow)
      invariant forall x :: Min(id, width) <= x < a.Length ==> a[x] == old(a[x])
    {
      if id < width {
        a[id] := RgbToLinrgb(a[id], pow);
      }
      id := id + 1;
    }
  }
}
