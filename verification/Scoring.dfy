/**
 The verdict of pkg/anomaly/scoring.go on one value: is it within its baseline's band? Numbers are reals.
 */
module Scoring {

  datatype Baseline = Baseline(mean: real, stdDev: real)

  datatype VarianceFloor = VarianceFloor(relativePct: real, absoluteFloor: real)

  datatype MetricFloor = MetricFloor(minValue: real, minStdDev: real)

  datatype Score = NoScore | Score(z: real)

  function Abs(x: real): real { if x < 0.0 then -x else x }

  function Max(x: real, y: real): real { if x < y then y else x }

  function RelativeFloor(b: Baseline, vf: VarianceFloor): real { Abs(b.mean) * vf.relativePct }

  /** The divisor of the score. */
  function EffectiveStdDev(b: Baseline, vf: VarianceFloor, mf: MetricFloor): real {
    Max(Max(b.stdDev, Max(RelativeFloor(b, vf), vf.absoluteFloor)), mf.minStdDev)
  }

  /** The distance from the mean in units of `stdDev`, cut off at `maxZ` when that is positive. */
  method ZScore(value: real, b: Baseline, stdDev: real, maxZ: real) returns (score: Score)
    ensures score == Scored(value, b, stdDev, maxZ)
  {
    if stdDev == 0.0 {
      return NoScore;
    }
    var z := (value - b.mean) / stdDev;
    if maxZ > 0.0 {
      if z > maxZ {
        z := maxZ;
      } else if z < -maxZ {
        z := -maxZ;
      }
    }
    score := Score(z);
  }

  function Clamp(z: real, maxZ: real): real {
    if maxZ <= 0.0 then z else if z > maxZ then maxZ else if z < -maxZ then -maxZ else z
  }

  function Scored(value: real, b: Baseline, stdDev: real, maxZ: real): Score {
    if stdDev == 0.0 then NoScore else Score(Clamp((value - b.mean) / stdDev, maxZ))
  }

  predicate BelowValueFloor(mf: MetricFloor, value: real) { mf.minValue > 0.0 && value < mf.minValue }

  predicate InBand(value: real, z: real, sensitivity: real, mf: MetricFloor) {
    BelowValueFloor(mf, value) || (z <= sensitivity && z >= -sensitivity)
  }

  /** The verdict on a value, where its divisor is not zero. */
  predicate Normal(value: real, b: Baseline, vf: VarianceFloor, mf: MetricFloor, maxZ: real, sensitivity: real)
    requires EffectiveStdDev(b, vf, mf) != 0.0
  {
    InBand(value, Scored(value, b, EffectiveStdDev(b, vf, mf), maxZ).z, sensitivity, mf)
  }

  /** What the verdict means: the value is under its floor, or no further from the mean than the
      sensitivity allows, in units of the divisor. */
  lemma {:induction false} NormalMeans(value: real, b: Baseline, vf: VarianceFloor, mf: MetricFloor, maxZ: real, sensitivity: real)
    requires 0.0 < EffectiveStdDev(b, vf, mf) && 0.0 <= sensitivity && (maxZ <= 0.0 || sensitivity < maxZ)
    ensures Normal(value, b, vf, mf, maxZ, sensitivity) <==>
            BelowValueFloor(mf, value) || Abs(value - b.mean) <= sensitivity * EffectiveStdDev(b, vf, mf)
  {
    var d := value - b.mean;
    var e := EffectiveStdDev(b, vf, mf);
    Quotient(d, e, sensitivity);
    Quotient(-d, e, sensitivity);
    assert (-d) / e == -(d / e);
  }

  lemma {:induction false} Quotient(d: real, e: real, s: real)
    requires e > 0.0
    ensures d / e <= s <==> d <= s * e
  {
    var q := d / e;
    assert q * e == d;
    if q <= s {
      assert (s - q) * e >= 0.0;
    } else {
      assert (q - s) * e > 0.0;
    }
  }

  function Size(x: real): real { if x >= 0.0 then x else 0.0 - x }

  /** The share of the mean's size. */
  function Share(b: Baseline, vf: VarianceFloor): real { Size(b.mean) * vf.relativePct }

  /** The divisor is the least number not below the deviation, the share of the mean's size, the absolute floor and
      the metric's own floor. */
  lemma {:induction false} DivisorLeast(b: Baseline, vf: VarianceFloor, mf: MetricFloor, x: real)
    ensures EffectiveStdDev(b, vf, mf) <= x <==>
            && b.stdDev <= x && vf.absoluteFloor <= x && mf.minStdDev <= x
            && Share(b, vf) <= x
  {
  }

  /** The distance is no more than so many times the unit. */
  predicate Within(d: real, times: real, unit: real) { -(times * unit) <= d <= times * unit }

  /** The verdict without the divisor: the value is under its floor, or one of the four lets it pass. */
  lemma {:induction false} NormalExactly(value: real, b: Baseline, vf: VarianceFloor, mf: MetricFloor, maxZ: real, sensitivity: real)
    requires 0.0 < EffectiveStdDev(b, vf, mf) && 0.0 <= sensitivity && (maxZ <= 0.0 || sensitivity < maxZ)
    ensures Normal(value, b, vf, mf, maxZ, sensitivity) <==>
            || (0.0 < mf.minValue && value < mf.minValue)
            || Within(value - b.mean, sensitivity, b.stdDev)
            || Within(value - b.mean, sensitivity, Share(b, vf))
            || Within(value - b.mean, sensitivity, vf.absoluteFloor)
            || Within(value - b.mean, sensitivity, mf.minStdDev)
  {
    hide EffectiveStdDev, Normal, Within, Share;
    NormalWithin(value, b, vf, mf, maxZ, sensitivity);
    DivisorIs(b, vf, mf);
    var d, e := value - b.mean, EffectiveStdDev(b, vf, mf);
    Wider(d, sensitivity, b.stdDev, e);
    Wider(d, sensitivity, Share(b, vf), e);
    Wider(d, sensitivity, vf.absoluteFloor, e);
    Wider(d, sensitivity, mf.minStdDev, e);
  }

  lemma {:induction false} NormalWithin(value: real, b: Baseline, vf: VarianceFloor, mf: MetricFloor, maxZ: real, sensitivity: real)
    requires 0.0 < EffectiveStdDev(b, vf, mf) && 0.0 <= sensitivity && (maxZ <= 0.0 || sensitivity < maxZ)
    ensures Normal(value, b, vf, mf, maxZ, sensitivity) <==>
            BelowValueFloor(mf, value) || Within(value - b.mean, sensitivity, EffectiveStdDev(b, vf, mf))
  {
    hide EffectiveStdDev, Normal;
    NormalMeans(value, b, vf, mf, maxZ, sensitivity);
  }

  lemma {:induction false} Wider(d: real, times: real, unit: real, unit': real)
    requires 0.0 <= times && unit <= unit'
    ensures Within(d, times, unit) ==> Within(d, times, unit')
  {
    Scaled(times, unit, unit');
  }

  lemma {:induction false} DivisorIs(b: Baseline, vf: VarianceFloor, mf: MetricFloor)
    ensures var e, r := EffectiveStdDev(b, vf, mf), Share(b, vf);
            && b.stdDev <= e && r <= e && vf.absoluteFloor <= e && mf.minStdDev <= e
            && (e == b.stdDev || e == r || e == vf.absoluteFloor || e == mf.minStdDev)
  {
  }

  /** Clamping the score changes no verdict, whatever the score, exactly when the sensitivity is below
      the bound. */
  lemma {:induction false} ClampNeutral(sensitivity: real, maxZ: real)
    requires 0.0 <= sensitivity && 0.0 < maxZ
    ensures (forall z: real, value: real, mf: MetricFloor ::
               InBand(value, Clamp(z, maxZ), sensitivity, mf) == InBand(value, z, sensitivity, mf)) <==> sensitivity < maxZ
  {
    if maxZ <= sensitivity {
      var z, mf := sensitivity + 1.0, MetricFloor(0.0, 0.0);
      assert InBand(0.0, Clamp(z, maxZ), sensitivity, mf) && !InBand(0.0, z, sensitivity, mf);
    }
  }

  predicate AtLeast(vf: VarianceFloor, mf: MetricFloor, vf': VarianceFloor, mf': MetricFloor) {
    vf.relativePct <= vf'.relativePct && vf.absoluteFloor <= vf'.absoluteFloor &&
    mf.minValue <= mf'.minValue && mf.minStdDev <= mf'.minStdDev
  }

  /** Raising any of the floors never turns a normal value into an anomaly. */
  lemma {:induction false} FloorsMonotone(value: real, b: Baseline, vf: VarianceFloor, mf: MetricFloor,
                                          vf': VarianceFloor, mf': MetricFloor, maxZ: real, sensitivity: real)
    requires 0.0 < EffectiveStdDev(b, vf, mf) && AtLeast(vf, mf, vf', mf')
    requires Normal(value, b, vf, mf, maxZ, sensitivity)
    ensures EffectiveStdDev(b, vf, mf) <= EffectiveStdDev(b, vf', mf')
    ensures Normal(value, b, vf', mf', maxZ, sensitivity)
  {
    hide EffectiveStdDev, Clamp;
    var e, e' := EffectiveStdDev(b, vf, mf), EffectiveStdDev(b, vf', mf');
    DivisorMonotone(b, vf, mf, vf', mf');
    Nearer(value - b.mean, e, e');
    ClampNearer((value - b.mean) / e', (value - b.mean) / e, maxZ);
  }

  lemma {:induction false} DivisorMonotone(b: Baseline, vf: VarianceFloor, mf: MetricFloor, vf': VarianceFloor, mf': MetricFloor)
    requires AtLeast(vf, mf, vf', mf')
    ensures EffectiveStdDev(b, vf, mf) <= EffectiveStdDev(b, vf', mf')
  {
    hide RelativeFloor;
    RelativeMonotone(b, vf, vf');
  }

  lemma {:induction false} RelativeMonotone(b: Baseline, vf: VarianceFloor, vf': VarianceFloor)
    requires vf.relativePct <= vf'.relativePct
    ensures RelativeFloor(b, vf) <= RelativeFloor(b, vf')
  {
    Scaled(Abs(b.mean), vf.relativePct, vf'.relativePct);
  }

  lemma {:induction false} Scaled(m: real, x: real, y: real)
    requires 0.0 <= m && x <= y
    ensures m * x <= m * y
  {
  }

  lemma {:induction false} Nearer(d: real, e: real, e': real)
    requires 0.0 < e <= e'
    ensures 0.0 <= d / e' <= d / e || d / e <= d / e' <= 0.0
  {
    var q := d / e;
    assert q * e == d && (-d) / e == -q && (-d) / e' == -(d / e');
    Quotient(d, e', q);
    Quotient(-d, e', -q);
    Quotient(d, e, 0.0);
    Quotient(-d, e, 0.0);
    Quotient(d, e', 0.0);
    Quotient(-d, e', 0.0);
    if d >= 0.0 {
      Scaled(q, e, e');
    } else {
      Scaled(-q, e, e');
    }
  }

  lemma {:induction false} ClampNearer(z: real, far: real, maxZ: real)
    requires 0.0 <= z <= far || far <= z <= 0.0
    ensures 0.0 <= Clamp(z, maxZ) <= Clamp(far, maxZ) || Clamp(far, maxZ) <= Clamp(z, maxZ) <= 0.0
  {
  }
}
