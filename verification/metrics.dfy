/**
 * Derived health metrics of a patient: the body-mass index, rounded to
 * hundredths as Python's `round(x, 2)` does (ties go to the even digit), and
 * the four-band verdict computed from it.
 *
 * Numbers are exact reals: the rounding is applied to the exact quotient
 * weight / height², not to its binary floating-point approximation.
 */
module Metrics {

  /** True when `x` is a whole number of hundredths. */
  predicate IsHundredths(x: real) {
    (x * 100.0).Floor as real == x * 100.0
  }

  /** The whole number of hundredths nearest to `x`, ties to the even one. */
  function RoundedCount(x: real): (k: int)
    ensures k as real - 0.5 <= x * 100.0 <= k as real + 0.5
    ensures x * 100.0 == k as real - 0.5 || x * 100.0 == k as real + 0.5 ==> k % 2 == 0
  {
    var y := x * 100.0;
    var n := y.Floor;
    var frac := y - n as real;
    if frac < 0.5 then n
    else if frac > 0.5 then n + 1
    else if n % 2 == 0 then n else n + 1
  }

  /** Round to two decimal places, ties to even. */
  function RoundHundredths(x: real): (r: real)
    ensures IsHundredths(r)
    ensures x - 0.005 <= r <= x + 0.005
  {
    var k := RoundedCount(x);
    var r := k as real / 100.0;
    assert r * 100.0 == k as real;
    assert (k as real).Floor == k;
    assert x * 100.0 - 0.5 <= r * 100.0 <= x * 100.0 + 0.5;
    r
  }

  /** Rounding never reverses the order of two values. */
  lemma {:induction false} RoundMonotone(x: real, y: real)
    requires x <= y
    ensures RoundHundredths(x) <= RoundHundredths(y)
  {
    var nx, ny := (x * 100.0).Floor, (y * 100.0).Floor;
    assert x * 100.0 <= y * 100.0;
    assert nx <= ny;
    if nx < ny {
      assert RoundedCount(x) <= nx + 1 <= ny <= RoundedCount(y);
    } else {
      assert x * 100.0 - nx as real <= y * 100.0 - ny as real;
      assert RoundedCount(x) <= RoundedCount(y);
    }
  }

  /** A value that already has at most two decimals is left as it is. */
  lemma {:induction false} RoundFixesHundredths(x: real)
    requires IsHundredths(x)
    ensures RoundHundredths(x) == x
  {
    assert RoundedCount(x) == (x * 100.0).Floor;
  }

  /**
   * The `bmi` computed field: weight / height² rounded to hundredths, and 0
   * when the height is not positive (the guard against division by zero).
   */
  function Bmi(height: real, weight: real): (b: real)
    ensures height <= 0.0 ==> b == 0.0
    ensures height > 0.0 ==> IsHundredths(b)
    ensures height > 0.0 ==>
              weight / (height * height) - 0.005 <= b <= weight / (height * height) + 0.005
  {
    if height > 0.0 then RoundHundredths(weight / (height * height)) else 0.0
  }

  /** For positive height and weight the index is never negative. */
  lemma {:induction false} BmiNonNegative(height: real, weight: real)
    requires height > 0.0 && weight > 0.0
    ensures Bmi(height, weight) >= 0.0
  {
    assert weight / (height * height) > 0.0;
    RoundMonotone(0.0, weight / (height * height));
    RoundFixesHundredths(0.0);
  }

  /** The four verdict bands, from lowest to highest index. */
  datatype Verdict = Underweight | Normal | Overweight | Obesity {
    /** The text the service stores in the `verdict` field. */
    function Label(): string {
      match this
      case Underweight => "Underweight"
      case Normal => "Normal"
      case Overweight => "Overweight"
      case Obesity => "Obesity"
    }

    /** Position of the band on the index scale. */
    function Rank(): nat {
      match this
      case Underweight => 0
      case Normal => 1
      case Overweight => 2
      case Obesity => 3
    }
  }

  /** The `verdict` computed field over a bmi value. */
  function Classify(bmi: real): (v: Verdict)
    ensures v == Underweight <==> bmi < 18.5
    ensures v == Normal <==> 18.5 <= bmi < 25.0
    ensures v == Overweight <==> 25.0 <= bmi < 30.0
    ensures v == Obesity <==> 30.0 <= bmi
  {
    if bmi < 18.5 then Underweight
    else if bmi < 25.0 then Normal
    else if bmi < 30.0 then Overweight
    else Obesity
  }

  /** A higher index never gives a lower band. */
  lemma ClassifyMonotone(b1: real, b2: real)
    requires b1 <= b2
    ensures Classify(b1).Rank() <= Classify(b2).Rank()
  {
  }

  /** Each threshold belongs to the band above it. */
  lemma ClassifyBoundaries()
    ensures Classify(18.5) == Normal
    ensures Classify(25.0) == Overweight
    ensures Classify(30.0) == Obesity
  {
  }

  /** Labels are distinct, so the stored text identifies the band. */
  lemma LabelInjective(v: Verdict, w: Verdict)
    requires v.Label() == w.Label()
    ensures v == w
  {
  }

  /** The verdict of the derived index is monotone in the unrounded index. */
  lemma {:induction false} VerdictMonotone(h1: real, w1: real, h2: real, w2: real)
    requires h1 > 0.0 && h2 > 0.0
    requires w1 / (h1 * h1) <= w2 / (h2 * h2)
    ensures Classify(Bmi(h1, w1)).Rank() <= Classify(Bmi(h2, w2)).Rank()
  {
    RoundMonotone(w1 / (h1 * h1), w2 / (h2 * h2));
    ClassifyMonotone(Bmi(h1, w1), Bmi(h2, w2));
  }

  /** The zero returned for a non-positive height is classified Underweight. */
  lemma NonPositiveHeightIsUnderweight(height: real, weight: real)
    requires height <= 0.0
    ensures Classify(Bmi(height, weight)) == Underweight
  {
  }

  /** The two worked examples: 1.75 m, 70 kg and 1.60 m, 90 kg. */
  lemma {:induction false} BmiExamples()
    ensures Bmi(1.75, 70.0) == 22.86 && Classify(Bmi(1.75, 70.0)) == Normal
    ensures Bmi(1.60, 90.0) == 35.16 && Classify(Bmi(1.60, 90.0)) == Obesity
  {
    assert 70.0 / (1.75 * 1.75) * 100.0 == 160000.0 / 70.0;
    assert (160000.0 / 70.0).Floor == 2285;
    assert 90.0 / (1.60 * 1.60) * 100.0 == 3515.625;
    assert (3515.625).Floor == 3515;
  }
}
