/** `remap` of noise/main.cpp: the affine rescale of a value from one range onto another,
    over exact reals. */
module Remapping {

  /** Maps `value` from [min, max] onto [newMin, newMax]. The source divides by
      `max - min`, so the two bounds of the old range must differ. */
  function Remap(value: real, min: real, max: real, newMin: real, newMax: real): (r: real)
    requires max != min
    ensures (r - newMin) * (max - min) == (value - min) * (newMax - newMin)
    ensures value == min ==> r == newMin
    ensures value == max ==> r == newMax
    ensures min == newMin && max == newMax ==> r == value
  {
    Lerp(Fraction(value, min, max), newMin, newMax)
  }

  /** How far `value` lies along [min, max], as a fraction of its length: 0 at `min`,
      1 at `max`. */
  function Fraction(value: real, min: real, max: real): (k: real)
    requires max != min
    ensures k * (max - min) == value - min
    ensures value == min ==> k == 0.0
    ensures value == max ==> k == 1.0
  {
    QuotientFacts(value - min, max - min);
    (value - min) / (max - min)
  }

  /** The point the fraction `k` along from `lo` to `hi`. */
  function Lerp(k: real, lo: real, hi: real): (r: real)
    ensures k == 0.0 ==> r == lo
    ensures k == 1.0 ==> r == hi
    ensures r - lo == k * (hi - lo)
  {
    lo + k * (hi - lo)
  }

  /** Remapping back onto the old range undoes a remap. */
  lemma RemapInverse(value: real, min: real, max: real, newMin: real, newMax: real)
    requires max != min && newMax != newMin
    ensures Remap(Remap(value, min, max, newMin, newMax), newMin, newMax, min, max) == value
  {
    var k := Fraction(value, min, max);
    var r := Lerp(k, newMin, newMax);
    QuotientOfProduct(k, newMax - newMin);
    assert Fraction(r, newMin, newMax) == k;
  }

  /** A value of [min, max] lies the fraction [0, 1] along it. */
  lemma FractionInUnit(value: real, min: real, max: real)
    requires min < max && min <= value <= max
    ensures 0.0 <= Fraction(value, min, max) <= 1.0
  {
    QuotientInUnit(value - min, max - min);
  }

  /** A value inside an increasing old range lands inside the new range, whichever way the
      new range is oriented. */
  lemma RemapBetween(value: real, min: real, max: real, newMin: real, newMax: real)
    requires min < max && min <= value <= max
    ensures newMin <= newMax ==> newMin <= Remap(value, min, max, newMin, newMax) <= newMax
    ensures newMax <= newMin ==> newMax <= Remap(value, min, max, newMin, newMax) <= newMin
  {
    FractionInUnit(value, min, max);
    LerpBetween(Fraction(value, min, max), newMin, newMax);
  }

  /** Remapping between increasing ranges preserves order. */
  lemma RemapMonotone(v1: real, v2: real, min: real, max: real, newMin: real, newMax: real)
    requires min < max && newMin <= newMax && v1 <= v2
    ensures Remap(v1, min, max, newMin, newMax) <= Remap(v2, min, max, newMin, newMax)
  {
    QuotientMonotone(v1 - min, v2 - min, max - min);
    LerpMonotone(Fraction(v1, min, max), Fraction(v2, min, max), newMin, newMax);
  }

  /** Interpolating by a fraction of [0, 1] stays between the two ends. */
  lemma LerpBetween(k: real, lo: real, hi: real)
    requires 0.0 <= k <= 1.0
    ensures lo <= hi ==> lo <= Lerp(k, lo, hi) <= hi
    ensures hi <= lo ==> hi <= Lerp(k, lo, hi) <= lo
  {
    if lo <= hi {
      MulNonNeg(k, hi - lo);
      MulNonNeg(1.0 - k, hi - lo);
    } else {
      MulNonNeg(k, lo - hi);
      MulNonNeg(1.0 - k, lo - hi);
    }
  }

  /** Interpolation towards a higher end grows with the fraction. */
  lemma LerpMonotone(k1: real, k2: real, lo: real, hi: real)
    requires k1 <= k2 && lo <= hi
    ensures Lerp(k1, lo, hi) <= Lerp(k2, lo, hi)
  {
    MulNonNeg(k2 - k1, hi - lo);
  }

  /** Scaling a non-negative length by a factor of [0, 1] keeps it within the length. */
  lemma ScaleBelow(k: real, len: real)
    requires 0.0 <= k <= 1.0 && 0.0 <= len
    ensures 0.0 <= k * len <= len
  {
    MulNonNeg(k, len);
    MulNonNeg(1.0 - k, len);
  }

  lemma QuotientFacts(a: real, d: real)
    requires d != 0.0
    ensures (a / d) * d == a
    ensures a == 0.0 ==> a / d == 0.0
    ensures a == d ==> a / d == 1.0
  {
  }

  lemma QuotientOfProduct(k: real, d: real)
    requires d != 0.0
    ensures (k * d) / d == k
  {
  }

  lemma QuotientInUnit(a: real, d: real)
    requires 0.0 < d && 0.0 <= a <= d
    ensures 0.0 <= a / d <= 1.0
  {
  }

  lemma QuotientMonotone(a1: real, a2: real, d: real)
    requires 0.0 < d && a1 <= a2
    ensures a1 / d <= a2 / d
  {
  }

  lemma MulNonNeg(a: real, b: real)
    requires a >= 0.0 && b >= 0.0
    ensures a * b >= 0.0
  {
  }
}
