/**
 * The spectral model of a diamond: the sample-wavelength table, the
 * two-term Sellmeier index of refraction, the dispersion between two
 * wavelengths, the piecewise-linear wavelength-to-colour mapping and the
 * `mix`/`clamp` helpers. Everything is exact arithmetic over `real`; the
 * square root is a parameter that is only required to be a square root.
 */
module Spectral {
  import opened Reals

  // ---------------------------------------------------------------------
  // Wavelength constants (nanometres)
  // ---------------------------------------------------------------------

  const MinWavelength: real := 380.0
  const MaxWavelength: real := 780.0

  /** The representative wavelengths used for sampling. */
  const VisibleWavelengths: seq<real> :=
    [380.0, 420.0, 460.0, 500.0, 540.0, 580.0, 620.0, 660.0, 700.0, 740.0, 780.0]
  const NumVisibleWavelengths: nat := 11

  /** The table has its declared length and climbs from the violet edge to
      the infrared edge in equal steps of 40 nm. */
  lemma VisibleWavelengthsTable()
    ensures |VisibleWavelengths| == NumVisibleWavelengths
    ensures VisibleWavelengths[0] == MinWavelength
    ensures VisibleWavelengths[NumVisibleWavelengths - 1] == MaxWavelength
    ensures forall i :: 0 <= i < |VisibleWavelengths| ==>
              VisibleWavelengths[i] == MinWavelength + 40.0 * i as real
    ensures forall i, j :: 0 <= i < j < |VisibleWavelengths| ==>
              VisibleWavelengths[i] < VisibleWavelengths[j]
  {
  }

  // ---------------------------------------------------------------------
  // Sellmeier index of refraction
  // ---------------------------------------------------------------------

  const B1: real := 0.3306
  const C1: real := 0.1750 * 0.1750
  const B2: real := 4.3356
  const C2: real := 0.1060 * 0.1060

  /** The wavelength converted to micrometres, squared. */
  function MicronsSquared(wavelength: real): real
  {
    var micro := wavelength / 1000.0;
    micro * micro
  }

  /** The Sellmeier relation has a pole at each resonance, 175 nm and 106 nm
      (and their negatives); everywhere else it is defined. */
  predicate SellmeierDefined(wavelength: real)
  {
    MicronsSquared(wavelength) != C1 && MicronsSquared(wavelength) != C2
  }

  /** n^2 = 1 + B1 l^2 / (l^2 - C1) + B2 l^2 / (l^2 - C2), before clamping. */
  function SellmeierSquared(wavelength: real): real
    requires SellmeierDefined(wavelength)
  {
    var l2 := MicronsSquared(wavelength);
    1.0 + B1 * l2 / (l2 - C1) + B2 * l2 / (l2 - C2)
  }

  /** n^2 clamped from below at 1, as it is before the square root. */
  function ClampedSquared(wavelength: real): (n2: real)
    requires SellmeierDefined(wavelength)
    ensures n2 >= 1.0
    ensures n2 >= SellmeierSquared(wavelength)
    ensures SellmeierSquared(wavelength) >= 1.0 ==> n2 == SellmeierSquared(wavelength)
    ensures SellmeierSquared(wavelength) < 1.0 ==> n2 == 1.0
  {
    Max(SellmeierSquared(wavelength), 1.0)
  }

  /** `sqrt` computes the non-negative square root of every non-negative real. */
  ghost predicate IsSqrt(sqrt: real -> real)
  {
    forall x :: 0.0 <= x ==> 0.0 <= sqrt(x) && sqrt(x) * sqrt(x) == x
  }

  /** The index of refraction at a wavelength: never below 1, and its square
      is the clamped Sellmeier value. */
  function DiamondIorSellmeier(sqrt: real -> real, wavelength: real): (n: real)
    requires IsSqrt(sqrt)
    requires SellmeierDefined(wavelength)
    ensures n >= 1.0
    ensures n * n == ClampedSquared(wavelength)
  {
    var n2 := ClampedSquared(wavelength);
    SqrtAtLeastOne(sqrt, n2);
    sqrt(n2)
  }

  /** The public name of the same index of refraction. */
  function DiamondIor(sqrt: real -> real, wavelength: real): (n: real)
    requires IsSqrt(sqrt)
    requires SellmeierDefined(wavelength)
    ensures n >= 1.0
    ensures n == DiamondIorSellmeier(sqrt, wavelength)
  {
    DiamondIorSellmeier(sqrt, wavelength)
  }

  lemma SqrtAtLeastOne(sqrt: real -> real, x: real)
    requires IsSqrt(sqrt)
    requires x >= 1.0
    ensures sqrt(x) >= 1.0
    ensures sqrt(x) * sqrt(x) == x
  {
    var s := sqrt(x);
    assert 0.0 <= s && s * s == x;
    if s < 1.0 {
      ProductStrict(s, 1.0);
    }
  }

  /** For non-negative s and t, s^2 < t^2 forces s < t. */
  lemma SquareMonotone(s: real, t: real)
    requires 0.0 <= s && 0.0 <= t
    requires s * s < t * t
    ensures s < t
  {
    if t < s {
      ProductStrict(t, s);
    }
  }

  /** Bracketing a square root between two rationals whose squares bracket
      its argument. */
  lemma SqrtBracket(sqrt: real -> real, x: real, lo: real, hi: real)
    requires IsSqrt(sqrt)
    requires 0.0 <= lo && 0.0 <= hi && 0.0 <= x
    requires lo * lo <= x <= hi * hi
    ensures lo <= sqrt(x) <= hi
  {
    var s := sqrt(x);
    assert 0.0 <= s && s * s == x;
    if s < lo {
      ProductStrict(s, lo);
    }
    if hi < s {
      ProductStrict(hi, s);
    }
  }

  lemma ProductStrict(s: real, t: real)
    requires 0.0 <= s < t
    ensures s * s < t * t
  {
    var d := t - s;
    assert 0.0 < d;
    assert t * t == s * s + 2.0 * s * d + d * d;
    assert 0.0 <= s * d;
    assert 0.0 < d * d;
  }

  lemma PositiveFactor(a: real, b: real)
    requires 0.0 < b && 0.0 < a * b
    ensures 0.0 < a
  {
  }

  lemma PositiveProduct(a: real, b: real)
    requires 0.0 < a && 0.0 < b
    ensures 0.0 < a * b
  {
  }

  /** Above the C1 resonance each Sellmeier term l2 / (l2 - C) shrinks as l2 grows. */
  lemma TermDecreasing(c: real, x: real, y: real)
    requires 0.0 < c < x < y
    ensures y / (y - c) < x / (x - c)
    ensures 1.0 < y / (y - c)
  {
    var fx, fy := x / (x - c), y / (y - c);
    var k := (x - c) * (y - c);
    PositiveProduct(x - c, y - c);
    assert fx * (x - c) == x;
    assert fy * (y - c) == y;
    assert fx * k == x * (y - c) by {
      assert fx * k == (fx * (x - c)) * (y - c);
    }
    assert fy * k == y * (x - c) by {
      assert fy * k == (fy * (y - c)) * (x - c);
    }
    assert x * (y - c) - y * (x - c) == c * (y - x);
    PositiveProduct(c, y - x);
    assert (fx - fy) * k == c * (y - x);
    PositiveFactor(fx - fy, k);
    QuotientAboveOne(y, y - c);
  }

  lemma QuotientAboveOne(p: real, q: real)
    requires 0.0 < q < p
    ensures 1.0 < p / q
  {
    var f := p / q;
    assert f * q == p;
    assert (f - 1.0) * q == p - q;
    PositiveFactor(f - 1.0, q);
  }

  /** A positive multiple of a Sellmeier term falls as well and stays positive. */
  lemma ScaledTermDecreasing(b: real, c: real, x: real, y: real)
    requires 0.0 < b && 0.0 < c < x < y
    ensures b * y / (y - c) < b * x / (x - c)
    ensures 0.0 < b * y / (y - c)
  {
    TermDecreasing(c, x, y);
    var fx, fy := x / (x - c), y / (y - c);
    assert b * y / (y - c) == b * fy;
    assert b * x / (x - c) == b * fx;
    PositiveProduct(b, fx - fy);
    PositiveProduct(b, fy);
  }

  /** Normal dispersion: throughout the range above the 175 nm resonance the
      (unclamped) n^2 strictly falls as the wavelength grows, and stays above 1. */
  lemma {:induction false} SellmeierDecreasing(a: real, b: real)
    requires 175.0 < a < b
    ensures SellmeierDefined(a) && SellmeierDefined(b)
    ensures SellmeierSquared(b) < SellmeierSquared(a)
    ensures 1.0 < SellmeierSquared(b)
  {
    var la, lb := a / 1000.0, b / 1000.0;
    assert 0.175 < la < lb;
    var xa, xb := MicronsSquared(a), MicronsSquared(b);
    assert C1 < xa by { ProductStrict(0.175, la); }
    assert xa < xb by { ProductStrict(la, lb); }
    assert C2 < C1;
    ScaledTermDecreasing(B1, C1, xa, xb);
    ScaledTermDecreasing(B2, C2, xa, xb);
  }

  // ---------------------------------------------------------------------
  // Dispersion
  // ---------------------------------------------------------------------

  /** The index at the "blue" wavelength minus the index at the "red" one. */
  function DispersionValue(sqrt: real -> real, redWavelength: real, blueWavelength: real): real
    requires IsSqrt(sqrt)
    requires SellmeierDefined(redWavelength) && SellmeierDefined(blueWavelength)
  {
    DiamondIor(sqrt, blueWavelength) - DiamondIor(sqrt, redWavelength)
  }

  /** Equal wavelengths have no dispersion, and exchanging the two negates it. */
  lemma DispersionSymmetry(sqrt: real -> real, a: real, b: real)
    requires IsSqrt(sqrt)
    requires SellmeierDefined(a) && SellmeierDefined(b)
    ensures DispersionValue(sqrt, a, a) == 0.0
    ensures DispersionValue(sqrt, a, b) == -DispersionValue(sqrt, b, a)
  {
  }

  /** Above the resonance a shorter "blue" wavelength always has the larger
      index, so the dispersion between a red and a blue wavelength is positive. */
  lemma NormalDispersion(sqrt: real -> real, redWavelength: real, blueWavelength: real)
    requires IsSqrt(sqrt)
    requires 175.0 < blueWavelength < redWavelength
    ensures SellmeierDefined(redWavelength) && SellmeierDefined(blueWavelength)
    ensures DispersionValue(sqrt, redWavelength, blueWavelength) > 0.0
  {
    SellmeierDecreasing(blueWavelength, redWavelength);
    var nr := DiamondIor(sqrt, redWavelength);
    var nb := DiamondIor(sqrt, blueWavelength);
    assert nr * nr == SellmeierSquared(redWavelength);
    assert nb * nb == SellmeierSquared(blueWavelength);
    SquareMonotone(nr, nb);
  }

  /** The dispersion between the hydrogen C line (656.3 nm) and F line (486.1 nm). */
  function DiamondDispersion(sqrt: real -> real): (d: real)
    requires IsSqrt(sqrt)
    ensures SellmeierDefined(656.3) && SellmeierDefined(486.1)
    ensures d == DispersionValue(sqrt, 656.3, 486.1)
    ensures d > 0.0
  {
    NormalDispersion(sqrt, 656.3, 486.1);
    DispersionValue(sqrt, 656.3, 486.1)
  }

  /** With exact arithmetic the C-F dispersion of these constants lies in
      [0.0255, 0.0257]: far from the 0.044 the source's comment expects. */
  lemma DiamondDispersionValue(sqrt: real -> real)
    requires IsSqrt(sqrt)
    ensures 0.0255 <= DiamondDispersion(sqrt) <= 0.0257
    ensures !(0.043 <= DiamondDispersion(sqrt) <= 0.045)
  {
    var red := ClampedSquared(656.3);
    var blue := ClampedSquared(486.1);
    SellmeierDecreasing(656.3, 656.4);
    SellmeierDecreasing(486.1, 486.2);
    assert red == SellmeierSquared(656.3);
    assert blue == SellmeierSquared(486.1);
    assert red == 5415339648585331099.0 / 932452182191145000.0;
    assert blue == 1525387492079963419.0 / 257150630712745000.0;
    SqrtBracket(sqrt, red, 2.4099, 2.4100);
    SqrtBracket(sqrt, blue, 2.4355, 2.4356);
  }

  /** The dispersion between the B line (686.7 nm) and the G line (430.8 nm):
      the pair for which diamond's dispersion is the familiar 0.044. */
  function DiamondDispersionBG(sqrt: real -> real): (d: real)
    requires IsSqrt(sqrt)
    ensures SellmeierDefined(686.7) && SellmeierDefined(430.8)
    ensures d == DispersionValue(sqrt, 686.7, 430.8)
    ensures d > 0.0
  {
    NormalDispersion(sqrt, 686.7, 430.8);
    DispersionValue(sqrt, 686.7, 430.8)
  }

  /** For the B-G pair the same constants do give 0.044 within 0.001. */
  lemma DiamondDispersionBGValue(sqrt: real -> real)
    requires IsSqrt(sqrt)
    ensures 0.043 <= DiamondDispersionBG(sqrt) <= 0.045
  {
    var red := ClampedSquared(686.7);
    var blue := ClampedSquared(430.8);
    SellmeierDecreasing(686.7, 686.8);
    SellmeierDecreasing(430.8, 430.9);
    assert red == SellmeierSquared(686.7);
    assert blue == SellmeierSquared(430.8);
    SqrtBracket(sqrt, red, 2.4072, 2.4073);
    SqrtBracket(sqrt, blue, 2.4517, 2.4518);
  }

  // ---------------------------------------------------------------------
  // Wavelength to RGB
  // ---------------------------------------------------------------------

  datatype Rgb = Rgb(r: real, g: real, b: real)

  /** The seven branches of the colour mapping, in the order the if-chain examines them. */
  datatype Band = UvViolet | VioletBlue | BlueCyan | CyanGreen | GreenYellow | YellowRed | DeepRed

  /** The branch a wavelength falls into, by the thresholds 420, 490, 575,
      585, 620 and 750 nm (each one the first wavelength of the next branch). */
  function BandOf(wavelength: real): Band
  {
    if wavelength < 420.0 then UvViolet
    else if wavelength < 490.0 then VioletBlue
    else if wavelength < 575.0 then BlueCyan
    else if wavelength < 585.0 then CyanGreen
    else if wavelength < 620.0 then GreenYellow
    else if wavelength < 750.0 then YellowRed
    else DeepRed
  }

  /** The channel formulas of one branch, evaluated at a wavelength. */
  function BandColor(band: Band, wave: real): Rgb
  {
    match band
    case UvViolet => Rgb(0.3 + 0.7 * (-(wave - 380.0) / (420.0 - 380.0)), 0.0, 1.0)
    case VioletBlue => Rgb(0.0, (wave - 420.0) / (490.0 - 420.0), 1.0)
    case BlueCyan => Rgb(0.0, 1.0, 1.0 - (wave - 490.0) / (575.0 - 490.0))
    case CyanGreen => Rgb(0.0, 1.0, 0.0)
    case GreenYellow => Rgb((wave - 585.0) / (620.0 - 585.0), 1.0, 0.0)
    case YellowRed => Rgb(1.0, 1.0 - (wave - 620.0) / (750.0 - 620.0), 0.0)
    case DeepRed => Rgb(Min(1.0 + 0.3 * ((780.0 - wave) / (780.0 - 750.0)), 1.0), 0.0, 0.0)
  }

  /** The colour before the intensity correction. */
  function BaseColor(wavelength: real): Rgb
  {
    BandColor(BandOf(wavelength), wavelength)
  }

  /** The edge taper: 1 on [420, 700], 0.3 + 0.7 (1 - |w - 550| / 170) elsewhere. */
  function Intensity(wave: real): real
  {
    if wave < 420.0 || wave > 700.0 then 0.3 + 0.7 * (1.0 - Abs(wave - 550.0) / 170.0)
    else 1.0
  }

  function Scale(c: Rgb, k: real): Rgb
  {
    Rgb(c.r * k, c.g * k, c.b * k)
  }

  /** The colour of a wavelength: the branch colour times the intensity. */
  function WavelengthToRgb(wavelength: real): Rgb
  {
    Scale(BaseColor(wavelength), Intensity(wavelength))
  }

  /** Exactly one branch applies, and which one is decided by the thresholds. */
  lemma BandThresholds(w: real)
    ensures BandOf(w) == UvViolet <==> w < 420.0
    ensures BandOf(w) == VioletBlue <==> 420.0 <= w < 490.0
    ensures BandOf(w) == BlueCyan <==> 490.0 <= w < 575.0
    ensures BandOf(w) == CyanGreen <==> 575.0 <= w < 585.0
    ensures BandOf(w) == GreenYellow <==> 585.0 <= w < 620.0
    ensures BandOf(w) == YellowRed <==> 620.0 <= w < 750.0
    ensures BandOf(w) == DeepRed <==> 750.0 <= w
  {
  }

  /** On the visible band the green and blue channels stay in [0, 1]; green
      is zero exactly up to 420 nm and from 750 nm on, blue is zero exactly
      from 575 nm on, and red is 1 exactly from 620 nm on (the min at the
      deep-red end caps it). Red never reaches -0.4 and never exceeds 1. */
  lemma BaseColorChannels(w: real)
    requires MinWavelength <= w <= MaxWavelength
    ensures 0.0 <= BaseColor(w).g <= 1.0
    ensures 0.0 <= BaseColor(w).b <= 1.0
    ensures -0.4 < BaseColor(w).r <= 1.0
    ensures BaseColor(w).g == 0.0 <==> (w <= 420.0 || 750.0 <= w)
    ensures BaseColor(w).b == 0.0 <==> 575.0 <= w
    ensures BaseColor(w).r == 1.0 <==> 620.0 <= w
  {
  }

  /** The violet branch is not clamped: red starts at 0.3 at 380 nm and turns
      negative past 380 + 120/7 nm, heading for -0.4 at the 420 nm threshold. */
  lemma VioletRedGoesNegative(w: real)
    requires MinWavelength <= w < 420.0
    ensures BaseColor(MinWavelength).r == 0.3
    ensures BaseColor(w).r < 0.0 <==> w > 380.0 + 120.0 / 7.0
    ensures BandColor(UvViolet, 420.0).r == -0.4
  {
  }

  /** Neighbouring branches meet at every threshold except 420 nm, where red
      jumps from -0.4 (violet formula) to 0 (blue formula). */
  lemma BandBoundaries()
    ensures BandColor(VioletBlue, 490.0) == BandColor(BlueCyan, 490.0)
    ensures BandColor(BlueCyan, 575.0) == BandColor(CyanGreen, 575.0)
    ensures BandColor(CyanGreen, 585.0) == BandColor(GreenYellow, 585.0)
    ensures BandColor(GreenYellow, 620.0) == BandColor(YellowRed, 620.0)
    ensures BandColor(YellowRed, 750.0) == BandColor(DeepRed, 750.0)
    ensures BandColor(UvViolet, 420.0) != BandColor(VioletBlue, 420.0)
  {
  }

  /** The intensity is exactly 1 on [420, 700] and 0.3 at 380 nm; at 780 nm
      the same formula gives 9/170 (about 0.053), not 0.3. */
  lemma IntensityTaper(w: real)
    ensures 420.0 <= w <= 700.0 ==> Intensity(w) == 1.0
    ensures Intensity(380.0) == 0.3
    ensures Intensity(780.0) == 9.0 / 170.0
    ensures MinWavelength <= w < 420.0 ==> 0.3 <= Intensity(w) < 1.0
    ensures 700.0 < w <= MaxWavelength ==> 9.0 / 170.0 <= Intensity(w) < 1.0
    ensures w < 420.0 ==> Intensity(w) < 79.0 / 170.0
    ensures 700.0 < w ==> Intensity(w) < 65.0 / 170.0
  {
  }

  /** The edge taper the colour mapping evidently aims at: a linear fade from
      full intensity at 420 nm down to 0.3 at 380 nm, and from 700 nm down to
      0.3 at 780 nm. */
  function EdgeFade(wave: real): real
  {
    if wave < 420.0 then 0.3 + 0.7 * (wave - 380.0) / 40.0
    else if wave > 700.0 then 0.3 + 0.7 * (780.0 - wave) / 80.0
    else 1.0
  }

  /** The fade is 0.3 at both edges and 1 inside [420, 700], and it is
      continuous: between two visible wavelengths it changes by at most
      0.0175 per nanometre, so it has no jump at 420 or 700. */
  lemma EdgeFadeContinuous(a: real, b: real)
    requires MinWavelength <= a <= b <= MaxWavelength
    ensures EdgeFade(MinWavelength) == 0.3 && EdgeFade(MaxWavelength) == 0.3
    ensures 420.0 <= a <= 700.0 ==> EdgeFade(a) == 1.0
    ensures 0.3 <= EdgeFade(a) <= 1.0
    ensures b <= 420.0 ==> EdgeFade(a) <= EdgeFade(b)
    ensures 700.0 <= a ==> EdgeFade(b) <= EdgeFade(a)
    ensures -0.0175 * (b - a) <= EdgeFade(b) - EdgeFade(a) <= 0.0175 * (b - a)
  {
  }

  /** Inside [420, 700] the mapping returns the branch colour unscaled, and
      at 550 nm that is full green over a partly faded blue. */
  lemma WavelengthToRgbUntapered(w: real)
    requires 420.0 <= w <= 700.0
    ensures WavelengthToRgb(w) == BaseColor(w)
    ensures WavelengthToRgb(550.0) == Rgb(0.0, 1.0, 5.0 / 17.0)
  {
  }

  /** At both edges of the visible band each channel is the branch channel
      times the taper. */
  lemma WavelengthToRgbEdges()
    ensures WavelengthToRgb(380.0) == Rgb(0.09, 0.0, 0.3)
    ensures WavelengthToRgb(780.0) == Rgb(9.0 / 170.0, 0.0, 0.0)
  {
  }

  // ---------------------------------------------------------------------
  // mix and clamp
  // ---------------------------------------------------------------------

  /** Linear interpolation: a at t = 0, b at t = 1, in between for t in [0, 1]. */
  function Mix(a: real, b: real, t: real): (r: real)
    ensures t == 0.0 ==> r == a
    ensures t == 1.0 ==> r == b
    ensures 0.0 <= t <= 1.0 ==> Min(a, b) <= r <= Max(a, b)
  {
    MixBetween(a, b, t);
    a * (1.0 - t) + b * t
  }

  lemma MixBetween(a: real, b: real, t: real)
    ensures 0.0 <= t <= 1.0 ==> Min(a, b) <= a * (1.0 - t) + b * t <= Max(a, b)
  {
    if 0.0 <= t <= 1.0 {
      assert a * (1.0 - t) + b * t == a + (b - a) * t;
      if a <= b {
        ScaleBetween(b - a, t);
      } else {
        ScaleBetween(a - b, t);
        assert (b - a) * t == -((a - b) * t);
      }
    }
  }

  /** Scaling a non-negative d by a factor in [0, 1] stays in [0, d]. */
  lemma ScaleBetween(d: real, t: real)
    requires 0.0 <= d && 0.0 <= t <= 1.0
    ensures 0.0 <= d * t <= d
  {
    NonNegativeProduct(d, t);
    NonNegativeProduct(d, 1.0 - t);
    assert d * (1.0 - t) == d - d * t;
  }

  lemma NonNegativeProduct(a: real, b: real)
    requires 0.0 <= a && 0.0 <= b
    ensures 0.0 <= a * b
  {
  }

  /** std::max(minVal, std::min(value, maxVal)). */
  function Clamp(value: real, minVal: real, maxVal: real): (r: real)
    ensures minVal <= maxVal ==> minVal <= r <= maxVal
    ensures minVal <= value <= maxVal ==> r == value
    ensures value < minVal ==> r == minVal
    ensures minVal <= maxVal < value ==> r == maxVal
    ensures maxVal < minVal ==> r == minVal
  {
    Max(minVal, Min(value, maxVal))
  }
}
