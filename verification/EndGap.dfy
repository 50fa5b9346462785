/**
 How large the jump to the stored endpoint is.  Three floored segments add up
 to less than the commanded distance; the terminal latch hides the difference.
 */
module EndGap {
  import opened CArith
  import opened Profiles
  import opened Envelope

  /** The accel ramp falls short of v^2 / 2a by less than v / 10^6 + 1. */
  lemma AccelLoss(v: nat, a: nat)
    requires v > 0 && a > 0
    ensures (RampDistance(v, a) - DxFromA(a, DtToReach(v, a)) - 1) * US_PER_S < v
  {
    var t := DtToReach(v, a);
    RampTime(v, a);
    FloorDiv(v * v, 2 * a);
    AlmostSquare(v * US_PER_S, t * a, a);
    assert a * t * t < (DxFromA(a, t) + 1) * (2 * US2_PER_S2);
    AccelLossAlgebra(RampDistance(v, a), DxFromA(a, t) + 1, t, v, a);
  }

  lemma AlmostSquare(m: nat, n: nat, a: nat)
    requires n <= m < n + a
    ensures n * n >= m * m - 2 * (m * a)
  {
    var e := m - n;
    assert n * n == m * m - 2 * (m * e) + e * e;
    MulMono(e, a, m);
    assert e * e >= 0;
  }

  lemma AccelLossAlgebra(q: nat, y: nat, t: nat, v: nat, a: nat)
    requires a > 0 && q * (2 * a) <= v * v && a * t * t < y * (2 * US2_PER_S2)
    requires (t * a) * (t * a) >= (v * US_PER_S) * (v * US_PER_S) - 2 * (v * US_PER_S * a)
    ensures (q - y) * US_PER_S < v
  {
    ScaleStrict(a * t * t, y * (2 * US2_PER_S2), a);
    assert a * t * t * a == (t * a) * (t * a);
    assert (v * US_PER_S) * (v * US_PER_S) == v * v * US2_PER_S2;
    LossCancel(q, y, v, a);
  }

  lemma LossCancel(q: nat, y: nat, v: nat, a: nat)
    requires a > 0
    requires q * (2 * a) * US2_PER_S2 - 2 * (v * US_PER_S * a) < y * (2 * US2_PER_S2) * a
    ensures (q - y) * US_PER_S < v
  {
    assert ((q - y) * US_PER_S) * (2 * US_PER_S * a) < v * (2 * US_PER_S * a) by {
      assert q * (2 * a) * US2_PER_S2 == (q * US_PER_S) * (2 * US_PER_S * a);
      assert y * (2 * US2_PER_S2) * a == (y * US_PER_S) * (2 * US_PER_S * a);
      assert 2 * (v * US_PER_S * a) == v * (2 * US_PER_S * a);
    }
    CancelStrict((q - y) * US_PER_S, v, 2 * US_PER_S * a);
  }

  /** The cruise falls short of the distance left to it by less than v / 10^6 + 1. */
  lemma CruiseLoss(left: nat, v: nat)
    requires v > 0
    ensures (left - DxFromV(v, left * US_PER_S / v) - 1) * US_PER_S < v
  {
    FloorDiv(left * US_PER_S, v);
  }

  /** One microsecond before its end the decel segment is within one milli-degree of v^2 / 2d. */
  lemma DecelLoss(v: nat, d: nat)
    requires 0 < d <= INT32_MAX && DtToReach(v, d) >= 1
    ensures RampDistance(v, d) - DecelDx(v, d, DtToReach(v, d) - 1) <= 1
  {
    var s := DtToReach(v, d) - 1;
    RampTime(v, d);
    FloorDiv(v * v, 2 * d);
    DecelScaled(v, d, s);
    CurveSquare(v, d, s);
    var w := v * US_PER_S - d * s;
    assert 0 <= w < 2 * d by { assert (s + 1) * d == d * s + d; }
    SquareMono(w, 2 * d);
    DecelLossAlgebra(RampDistance(v, d), DecelDx(v, d, s) + 1, Curve(v, d, s), v, d);
  }

  lemma DecelLossAlgebra(q: nat, y: int, c: int, v: nat, d: nat)
    requires 0 < d <= INT32_MAX && q * (2 * d) <= v * v && c < y * (2 * US2_PER_S2)
    requires d * c >= v * v * US2_PER_S2 - 2 * d * (2 * d)
    ensures q <= y
  {
    ScaleStrict(c, y * (2 * US2_PER_S2), d);
    assert ((q - y) * US2_PER_S2) * (2 * d) < (2 * d) * (2 * d) by {
      assert y * (2 * US2_PER_S2) * d == (y * US2_PER_S2) * (2 * d);
      assert q * (2 * d) * US2_PER_S2 == (q * US2_PER_S2) * (2 * d);
    }
    CancelStrict((q - y) * US2_PER_S2, 2 * d, 2 * d);
  }

  /** A decel segment shorter than one microsecond belongs to a peak below 2148 mdeg/s and covers nothing. */
  lemma NoDecel(v: nat, d: nat)
    requires 0 < v && 0 < d <= INT32_MAX && DtToReach(v, d) == 0
    ensures v < US_PER_S && RampDistance(v, d) == 0
  {
    RampTime(v, d);
    FloorDiv(v * v, 2 * d);
    assert v * v < 2 * d by { MulMono(v, US_PER_S, v); }
    if RampDistance(v, d) >= 1 { MulMono(1, RampDistance(v, d), 2 * d); }
  }

  /** The offset one microsecond before the end of a trapezoid, from below. */
  lemma LastOffset(p: Profile, left: nat)
    requires Shaped(p) && p.decel <= INT32_MAX && left > 0 && p.cruiseDt == left * US_PER_S / p.vPeak
    ensures p.totalDt >= 1
    ensures Offset(p, p.totalDt - 1) >= AccelEnd(p) + DxFromV(p.vPeak, p.cruiseDt) + RampDistance(p.vPeak, p.decel) - 1
  {
    FloorDiv(left * US_PER_S, p.vPeak);
    if p.decelDt >= 1 {
      DecelLoss(p.vPeak, p.decel);
    } else {
      NoDecel(p.vPeak, p.decel);
      DivAtLeast(1, left * US_PER_S, p.vPeak);
      var s := p.cruiseDt - 1;
      assert p.vPeak * p.cruiseDt == p.vPeak * s + p.vPeak;
    }
    OffsetByPhase(p, p.totalDt - 1);
  }

  /**
   End gap: for every move long enough to cruise, the reference one microsecond
   before its end is within 2 v / 10^6 + 3 milli-degrees of the endpoint it then
   latches, whatever the accelerations; on the far side it is within one.
   */
  lemma EndGapBound(t0: nat, x0: int, x1: int, v: int32, accel: int32, decel: int32)
    requires x0 != x1 && v > 0
    requires !IsTriangle(Abs(x1 - x0), v, EffectiveAccel(accel), EffectiveDecel(accel, decel))
    ensures var p := Plan(t0, x0, x1, v, accel, decel);
            p.totalDt >= 1 &&
            var gap := Sign(x1 - x0) * (x1 - Sample(p, t0 + p.totalDt - 1).x);
            -1 <= gap <= 2 * v / US_PER_S + 3 &&
            Sample(p, t0 + p.totalDt) == Ref(x1, 0, 0, true)
  {
    PlanIsShaped(t0, x0, x1, v, accel, decel);
    var p := Plan(t0, x0, x1, v, accel, decel);
    var left := Abs(x1 - x0) - RampDistance(v, p.accel) - RampDistance(v, p.decel);
    LastOffset(p, left);
    AccelLoss(v, p.accel);
    CruiseLoss(left, v);
    PlannedOffset(t0, x0, x1, v, accel, decel, p.totalDt - 1);
    GapOfOffset(x0, x1, Sample(p, t0 + p.totalDt - 1).x, Offset(p, p.totalDt - 1));
  }

  lemma GapOfOffset(x0: int, x1: int, x: int, off: int)
    requires x0 != x1 && off == Sign(x1 - x0) * (x - x0)
    ensures Sign(x1 - x0) * (x1 - x) == Abs(x1 - x0) - off
  {
  }

  // ----- moves too short to cruise

  /**
   What the two floors of a triangular peak cost: with k the floored factor and v
   the floored root, the two ramps fall short of the distance by less than
   (D + 2v) / (k + 1) + 2.
   */
  lemma TriangleLoss(dist: nat, a: nat, d: nat, v: nat)
    requires a > 0 && d > 0 && dist * TriangleFactor(a, d) < (v + 1) * (v + 1)
    ensures dist - RampDistance(v, a) - RampDistance(v, d) <= (dist + 2 * v) / (TriangleFactor(a, d) + 1) + 2
  {
    var k, s := TriangleFactor(a, d), RampDistance(v, a) + RampDistance(v, d) + 2;
    RampsBelow(v, a, d);
    FloorDiv(2 * a * d, a + d);
    CancelFactor(v * v, s, 2 * a * d, a + d, k);
    ShortBy(dist, k, v, s);
    hide TriangleFactor, RampDistance;
  }

  lemma RampsBelow(v: nat, a: nat, d: nat)
    requires a > 0 && d > 0
    ensures v * v * (a + d) < (RampDistance(v, a) + RampDistance(v, d) + 2) * (2 * a * d)
  {
    var qa, qd, n := RampDistance(v, a), RampDistance(v, d), 2 * a * d;
    OneRampBelow(v * v, a, d);
    OneRampBelow(v * v, d, a);
    assert 2 * d * a == n;
    SumBelow(v * v, a, d, qa, qd, n);
  }

  lemma OneRampBelow(vv: nat, a: nat, d: nat)
    requires a > 0 && d > 0
    ensures vv * d < (vv / (2 * a) + 1) * (2 * a * d)
  {
    var q := vv / (2 * a);
    FloorDiv(vv, 2 * a);
    assert vv < (q + 1) * (2 * a);
    ScaleStrict(vv, (q + 1) * (2 * a), d);
    assert (q + 1) * (2 * a) * d == (q + 1) * (2 * a * d);
  }

  lemma SumBelow(vv: nat, a: nat, d: nat, qa: nat, qd: nat, n: nat)
    requires vv * d < (qa + 1) * n && vv * a < (qd + 1) * n
    ensures vv * (a + d) < (qa + qd + 2) * n
  {
    assert vv * (a + d) == vv * a + vv * d;
    assert (qa + qd + 2) * n == (qa + 1) * n + (qd + 1) * n;
  }

  lemma CancelFactor(vv: nat, s: nat, n: nat, m: nat, k: nat)
    requires m > 0 && vv * m < s * n && n <= k * m + m
    ensures vv < s * (k + 1)
  {
    MulMono(n, (k + 1) * m, s);
    assert n * s == s * n && (k + 1) * m * s == s * (k + 1) * m;
    CancelStrict(vv, s * (k + 1), m);
  }

  lemma ShortBy(dist: nat, k: nat, v: nat, s: nat)
    requires dist * k < (v + 1) * (v + 1) && v * v < s * (k + 1)
    ensures dist - s <= (dist + 2 * v) / (k + 1)
  {
    var short := dist - s;
    assert short * (k + 1) == dist * k + dist - s * (k + 1);
    assert (v + 1) * (v + 1) == v * v + 2 * v + 1;
    if short > 0 { DivAtLeast(short, dist + 2 * v, k + 1); } else { FloorDiv(dist + 2 * v, k + 1); }
  }

  /** The last microsecond of an accel ramp below 1000 deg/s covers at most one milli-degree. */
  lemma LastOfRamp(v: nat, a: nat)
    requires v < US_PER_S && a > 0 && DtToReach(v, a) >= 1
    ensures DxFromA(a, DtToReach(v, a) - 1) >= DxFromA(a, DtToReach(v, a)) - 1
  {
    var t := DtToReach(v, a);
    RampTime(v, a);
    assert a * t * t == a * (t - 1) * (t - 1) + 2 * (a * t) - a;
    assert a * t == t * a;
  }

  /** One microsecond before its end a profile without a cruise has covered its two ramps, up to rounding. */
  lemma LastOffsetNoCruise(p: Profile)
    requires Shaped(p) && p.decel <= INT32_MAX && p.cruiseDt == 0 && p.totalDt >= 1
    ensures Offset(p, p.totalDt - 1) >= RampDistance(p.vPeak, p.accel) + RampDistance(p.vPeak, p.decel) - 2 - p.vPeak / US_PER_S
  {
    AccelLoss(p.vPeak, p.accel);
    OffsetByPhase(p, p.totalDt - 1);
    hide Offset, DxFromA, RampDistance;
    if p.decelDt >= 1 {
      DecelLoss(p.vPeak, p.decel);
    } else {
      NoDecel(p.vPeak, p.decel);
      LastOfRamp(p.vPeak, p.accel);
    }
  }

  /**
   End gap of a move too short to cruise: what it has left one microsecond before
   its end is bounded by distance, peak and factor.  Only a small factor - very
   low accelerations - makes it a real share of the distance.
   */
  lemma TriangleEndGap(t0: nat, x0: int, x1: int, v: int32, accel: int32, decel: int32)
    requires x0 != x1 && v > 0
    requires IsTriangle(Abs(x1 - x0), v, EffectiveAccel(accel), EffectiveDecel(accel, decel))
    ensures var p := Plan(t0, x0, x1, v, accel, decel);
            p.totalDt >= 1 ==>
            var gap := Sign(x1 - x0) * (x1 - Sample(p, t0 + p.totalDt - 1).x);
            -1 <= gap <= (Abs(x1 - x0) + 2 * p.vPeak) / (TriangleFactor(p.accel, p.decel) + 1) + p.vPeak / US_PER_S + 4
  {
    PlanIsShaped(t0, x0, x1, v, accel, decel);
    var p := Plan(t0, x0, x1, v, accel, decel);
    var dist := Abs(x1 - x0);
    TrianglePeakInRange(dist, v, p.accel, p.decel);
    if p.totalDt >= 1 {
      TriangleLoss(dist, p.accel, p.decel, p.vPeak);
      LastOffsetNoCruise(p);
      PlannedOffset(t0, x0, x1, v, accel, decel, p.totalDt - 1);
      GapOfOffset(x0, x1, Sample(p, t0 + p.totalDt - 1).x, Offset(p, p.totalDt - 1));
    }
    hide TriangleFactor, RampDistance, TrianglePeakOf, FloorSqrt, DtToReach, IsTriangle;
  }
}
