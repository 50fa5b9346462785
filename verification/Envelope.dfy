/**
 How far a profile can stray.  A profile is studied through its offset: the
 distance travelled in the direction of motion, a sum of up to three floored
 segments.
 */
module Envelope {
  import opened CArith
  import opened Profiles

  /** The finite profiles db_trajectory_init_position and _stretch_to_total produce. */
  ghost predicate Shaped(p: Profile) {
    p.accel > 0 && p.decel > 0 && p.vPeak > 0 && (p.direction == 1 || p.direction == -1) &&
    p == Shape(p.t0, p.x0, p.x1, p.direction, p.vPeak, p.accel, p.decel, p.cruiseDt)
  }

  /** Distance travelled dt microseconds after the start, in the direction of motion. */
  function Offset(p: Profile, dt: nat): int {
    p.direction * (SampleAfter(p, dt).x - p.x0)
  }

  function AccelEnd(p: Profile): nat {
    DxFromA(p.accel, p.accelDt)
  }

  function CruiseEnd(p: Profile): nat {
    AccelEnd(p) + DxFromV(p.vPeak, p.cruiseDt)
  }

  // ----- single segments

  lemma RampTime(v: nat, a: nat)
    requires a > 0
    ensures DtToReach(v, a) * a <= v * US_PER_S < DtToReach(v, a) * a + a
  {
    FloorDiv(v * US_PER_S, a);
  }

  lemma RampTimeMono(u: nat, v: nat, a: nat)
    requires a > 0 && u <= v
    ensures DtToReach(u, a) <= DtToReach(v, a)
  {
    RampTime(u, a);
    DivAtLeast(DtToReach(u, a), v * US_PER_S, a);
  }

  /** While a ramp lasts, the speed it has added does not exceed the peak. */
  lemma RampSpeed(v: nat, a: nat, s: nat)
    requires a > 0 && s <= DtToReach(v, a)
    ensures a * s <= v * US_PER_S && VFromA(a, s) <= v
  {
    RampTime(v, a);
    MulMono(s, DtToReach(v, a), a);
  }

  lemma DxFromVMono(v: nat, s: nat, t: nat)
    requires s <= t
    ensures DxFromV(v, s) <= DxFromV(v, t)
  {
    MulMono(s, t, v);
  }

  lemma DxFromAMono(a: nat, s: nat, t: nat)
    requires s <= t
    ensures DxFromA(a, s) <= DxFromA(a, t)
  {
    MulMono(s, t, a);
    MulMono(a * s, a * t, s);
    MulMono(s, t, a * t);
  }

  /** The ramp covers at most v^2 / 2a: 2a times its floored length stays below v^2. */
  lemma AccelCoversAtMost(v: nat, a: nat)
    requires a > 0
    ensures DxFromA(a, DtToReach(v, a)) * (2 * a) <= v * v
  {
    var t := DtToReach(v, a);
    var x := DxFromA(a, t);
    RampTime(v, a);
    SquareMono(t * a, v * US_PER_S);
    assert (v * US_PER_S) * (v * US_PER_S) == v * v * US2_PER_S2;
    assert x * (2 * US2_PER_S2) <= a * t * t;
    MulMono(x * (2 * US2_PER_S2), a * t * t, a);
    assert a * t * t * a == (t * a) * (t * a);
    assert x * (2 * US2_PER_S2) * a == x * (2 * a) * US2_PER_S2;
  }

  /** The decel curve 2 v s - d s^2, scaled so that no division remains. */
  function Curve(v: nat, d: nat, s: nat): int {
    2 * (v * US_PER_S * s) - d * s * s
  }

  lemma DecelScaled(v: nat, d: nat, s: nat)
    ensures (DecelDx(v, d, s) - 1) * (2 * US2_PER_S2) < Curve(v, d, s) < (DecelDx(v, d, s) + 1) * (2 * US2_PER_S2)
  {
    assert d * s * s >= 0;
    assert v * US_PER_S * s == US_PER_S * (v * s);
  }

  /** Completing the square. */
  lemma CurveSquare(v: nat, d: nat, s: nat)
    ensures d * Curve(v, d, s) == v * v * US2_PER_S2 - (v * US_PER_S - d * s) * (v * US_PER_S - d * s)
  {
    var vm, ds := v * US_PER_S, d * s;
    assert (vm - ds) * (vm - ds) == vm * vm - 2 * (vm * ds) + ds * ds;
    assert vm * vm == v * v * US2_PER_S2;
    assert vm * ds == d * (vm * s);
    assert d * (d * s * s) == ds * ds;
  }

  /** The curve grows as long as the remaining speed is not negative. */
  lemma CurveMono(v: nat, d: nat, s: nat, t: nat)
    requires s <= t && d * t <= v * US_PER_S
    ensures Curve(v, d, s) <= Curve(v, d, t)
  {
    var u, ds, dt := v * US_PER_S, d * s, d * t;
    MulMono(s, t, d);
    assert 0 <= (u - ds) * (t - s) && 0 <= (u - dt) * (t - s);
    assert (u - ds) * (t - s) == u * t - u * s - ds * t + ds * s;
    assert (u - dt) * (t - s) == u * t - u * s - dt * t + dt * s;
    assert ds * t == dt * s;
  }

  /** The decel segment never goes backwards from its start and covers at most v^2 / 2d + 1. */
  lemma DecelCovers(v: nat, d: nat, s: nat)
    requires d > 0 && s <= DtToReach(v, d)
    ensures 0 <= DecelDx(v, d, s)
    ensures (DecelDx(v, d, s) - 1) * (2 * d) < v * v || DecelDx(v, d, s) <= 1
  {
    RampSpeed(v, d, s);
    assert DecelDx(v, d, s) >= 0 by {
      MulMono(d * s, v * US_PER_S, s);
      assert d * s * s <= US_PER_S * (v * s);
    }
    if DecelDx(v, d, s) > 1 {
      DecelScaled(v, d, s);
      CurveSquare(v, d, s);
      var w := v * US_PER_S - d * s;
      assert w * w >= 0;
      DecelCoversAlgebra(DecelDx(v, d, s) - 1, Curve(v, d, s), v, d);
    }
  }

  lemma DecelCoversAlgebra(i: nat, c: int, v: nat, d: nat)
    requires d > 0 && i * (2 * US2_PER_S2) < c && d * c <= v * v * US2_PER_S2
    ensures i * (2 * d) < v * v
  {
    ScaleStrict(i * (2 * US2_PER_S2), c, d);
    assert i * (2 * US2_PER_S2) * d == i * (2 * d) * US2_PER_S2;
  }

  lemma ScaleStrict(x: int, y: int, k: int)
    requires x < y && k > 0
    ensures x * k < y * k
  {
  }

  /** The decel curve loses at most one milli-degree to its two floors as time advances. */
  lemma DecelAlmostMono(v: nat, d: nat, s: nat, t: nat)
    requires d > 0 && s <= t <= DtToReach(v, d)
    ensures DecelDx(v, d, s) <= DecelDx(v, d, t) + 1
  {
    RampSpeed(v, d, t);
    DecelScaled(v, d, s);
    DecelScaled(v, d, t);
    CurveMono(v, d, s, t);
  }

  // ----- whole profiles

  lemma OffsetOfX(p: Profile, dt: nat, off: int)
    requires p.direction * p.direction == 1 && SampleAfter(p, dt).x == p.x0 + p.direction * off
    ensures Offset(p, dt) == off
  {
    assert p.direction * (p.direction * off) == (p.direction * p.direction) * off;
  }

  /** The offset by phase, for a finite profile before its end. */
  lemma OffsetByPhase(p: Profile, dt: nat)
    requires Shaped(p) && dt < p.totalDt
    ensures dt < p.accelDt ==> Offset(p, dt) == DxFromA(p.accel, dt)
    ensures p.accelDt <= dt < p.accelDt + p.cruiseDt ==>
              Offset(p, dt) == AccelEnd(p) + DxFromV(p.vPeak, dt - p.accelDt)
    ensures p.accelDt + p.cruiseDt <= dt ==>
              Offset(p, dt) == CruiseEnd(p) + DecelDx(p.vPeak, p.decel, dt - p.accelDt - p.cruiseDt)
  {
    if dt < p.accelDt {
      OffsetOfX(p, dt, DxFromA(p.accel, dt));
    } else if dt < p.accelDt + p.cruiseDt {
      OffsetOfX(p, dt, AccelEnd(p) + DxFromV(p.vPeak, dt - p.accelDt));
    } else {
      OffsetOfX(p, dt, CruiseEnd(p) + DecelDx(p.vPeak, p.decel, dt - p.accelDt - p.cruiseDt));
    }
  }

  /** Before its end a profile never lies behind its start and never exceeds what its three segments add up to. */
  lemma OffsetBounds(p: Profile, dt: nat)
    requires Shaped(p) && dt < p.totalDt
    ensures 0 <= Offset(p, dt)
    ensures Offset(p, dt) <= CruiseEnd(p) ||
            exists s: nat :: s <= p.decelDt && Offset(p, dt) == CruiseEnd(p) + DecelDx(p.vPeak, p.decel, s)
  {
    OffsetByPhase(p, dt);
    if dt < p.accelDt {
      DxFromAMono(p.accel, dt, p.accelDt);
    } else if dt < p.accelDt + p.cruiseDt {
      DxFromVMono(p.vPeak, dt - p.accelDt, p.cruiseDt);
    } else {
      var s := dt - p.accelDt - p.cruiseDt;
      DecelCovers(p.vPeak, p.decel, s);
      assert Offset(p, dt) == CruiseEnd(p) + DecelDx(p.vPeak, p.decel, s);
    }
  }

  /** Monotone up to the one milli-degree the floors can take back. */
  lemma OffsetAlmostMono(p: Profile, dt: nat, later: nat)
    requires Shaped(p) && dt <= later < p.totalDt
    ensures Offset(p, dt) <= Offset(p, later) + 1
  {
    OffsetByPhase(p, dt);
    OffsetByPhase(p, later);
    var c := p.accelDt + p.cruiseDt;
    if later < p.accelDt {
      DxFromAMono(p.accel, dt, later);
    } else if later < c {
      if dt < p.accelDt { DxFromAMono(p.accel, dt, p.accelDt); }
      else { DxFromVMono(p.vPeak, dt - p.accelDt, later - p.accelDt); }
    } else {
      DecelCovers(p.vPeak, p.decel, later - c);
      if dt < c {
        OffsetBeforeCruiseEnd(p, dt);
      } else {
        DecelAlmostMono(p.vPeak, p.decel, dt - c, later - c);
      }
    }
  }

  lemma OffsetBeforeCruiseEnd(p: Profile, dt: nat)
    requires Shaped(p) && dt < p.accelDt + p.cruiseDt
    ensures Offset(p, dt) <= CruiseEnd(p)
  {
    OffsetByPhase(p, dt);
    if dt < p.accelDt { DxFromAMono(p.accel, dt, p.accelDt); }
    else { DxFromVMono(p.vPeak, dt - p.accelDt, p.cruiseDt); }
  }

  /**
   The reference speed never exceeds the peak, points in the direction of
   motion, and the decel phase's clamp at zero is never taken.
   */
  lemma SpeedBound(p: Profile, dt: nat)
    requires Shaped(p)
    ensures 0 <= p.direction * SampleAfter(p, dt).v <= p.vPeak
    ensures p.accelDt + p.cruiseDt <= dt < p.totalDt ==>
              VFromA(p.decel, dt - p.accelDt - p.cruiseDt) <= p.vPeak
  {
    if dt < p.accelDt {
      RampSpeed(p.vPeak, p.accel, dt);
      SignedSpeed(p.direction, VFromA(p.accel, dt));
    } else if dt < p.accelDt + p.cruiseDt {
      SignedSpeed(p.direction, p.vPeak);
    } else if dt < p.totalDt {
      var s := dt - p.accelDt - p.cruiseDt;
      RampSpeed(p.vPeak, p.decel, s);
      SignedSpeed(p.direction, p.vPeak - VFromA(p.decel, s));
    }
  }

  lemma SignedSpeed(direction: int, v: int)
    requires direction == 1 || direction == -1
    ensures direction * (direction * v) == v
  {
  }

  // ----- planned moves

  /** Every non-trivial planned move is shaped and heads from x0 to x1. */
  lemma PlanIsShaped(t0: nat, x0: int, x1: int, v: int32, accel: int32, decel: int32)
    requires x0 != x1 && v > 0
    ensures var p := Plan(t0, x0, x1, v, accel, decel);
            Shaped(p) && p.t0 == t0 && p.x0 == x0 && p.x1 == x1 &&
            p.direction == Sign(x1 - x0) && p.direction * (x1 - x0) == Abs(x1 - x0) &&
            p.accel == EffectiveAccel(accel) && p.decel == EffectiveDecel(accel, decel) &&
            1 <= p.vPeak <= v
  {
  }

  /** The accel ramp, the cruise and the whole decel add up to at most one milli-degree too much. */
  lemma SegmentsFit(dist: nat, v: nat, a: nat, d: nat, s: nat)
    requires dist > 0 && 0 < v <= INT32_MAX && a > 0 && d > 0
    requires s <= DtToReach(PlannedPeak(dist, v, a, d), d)
    ensures var peak := PlannedPeak(dist, v, a, d);
            var run := DxFromA(a, DtToReach(peak, a)) + DxFromV(peak, PlannedCruise(dist, v, a, d));
            run <= dist + 1 && run + DecelDx(peak, d, s) <= dist + 1
  {
    var peak := PlannedPeak(dist, v, a, d);
    var x := DxFromA(a, DtToReach(peak, a));
    var i := DecelDx(peak, d, s);
    AccelCoversAtMost(peak, a);
    DecelCovers(peak, d, s);
    if IsTriangle(dist, v, a, d) {
      TrianglePeakInRange(dist, v, a, d);
      TriangleSegments(dist, a, d, peak, x, i);
    } else {
      DivAtLeast(x, v * v, 2 * a);
      if i > 1 { DivAtLeast(i - 1, v * v, 2 * d); }
      CruiseFits(dist - RampDistance(v, a) - RampDistance(v, d), v);
    }
  }

  lemma CruiseFits(left: nat, v: nat)
    requires v > 0
    ensures DxFromV(v, left * US_PER_S / v) <= left
  {
    FloorDiv(left * US_PER_S, v);
  }

  lemma TriangleSegments(dist: nat, a: nat, d: nat, v: nat, x: nat, i: nat)
    requires a > 0 && d > 0 && dist > 0
    requires v * v <= dist * TriangleFactor(a, d)
    requires x * (2 * a) <= v * v && ((i - 1) * (2 * d) < v * v || i <= 1)
    ensures x <= dist && x + i <= dist + 1
  {
    var k := TriangleFactor(a, d);
    FloorDiv(2 * a * d, a + d);
    TriangleSum(dist, a, d, k, v * v, x, if i <= 1 then 0 else i - 1);
  }

  lemma TriangleSum(dist: nat, a: nat, d: nat, k: nat, vv: nat, x: nat, j: nat)
    requires a > 0 && d > 0
    requires vv <= dist * k && k * (a + d) <= 2 * a * d
    requires x * (2 * a) <= vv && j * (2 * d) <= vv
    ensures x + j <= dist
  {
    var m := 2 * a * d;
    assert m > 0 by { assert a * d > 0; }
    MulMono(vv, dist * k, a + d);
    MulMono(k * (a + d), m, dist);
    MulMono(x * (2 * a), vv, d);
    MulMono(j * (2 * d), vv, a);
    calc {
      (x + j) * m;
    ==
      x * (2 * a) * d + j * (2 * d) * a;
    <=
      vv * d + vv * a;
    ==
      vv * (a + d);
    <=
      dist * k * (a + d);
    ==
      k * (a + d) * dist;
    <=
      dist * m;
    }
    Cancel(x + j, dist, m);
  }

  /**
   The envelope of every planned finite move: from the time origin on, the
   reference stays between x0 and x1 with at most one milli-degree of overshoot,
   its speed never exceeds the planned peak nor the requested speed, and the
   decel clamp is dead code.
   */
  lemma PlannedEnvelope(t0: nat, x0: int, x1: int, v: int32, accel: int32, decel: int32, t: nat)
    requires t0 <= t
    ensures var p := Plan(t0, x0, x1, v, accel, decel);
            var r := Sample(p, t);
            (v > 0 ==> 0 <= Sign(x1 - x0) * (r.x - x0) <= Abs(x1 - x0) + 1) &&
            (v <= 0 ==> r.x == x0) &&
            Abs(r.v) <= p.vPeak <= (if v > 0 then v else 0) &&
            (p.accelDt + p.cruiseDt <= t - t0 < p.totalDt ==>
               VFromA(p.decel, t - t0 - p.accelDt - p.cruiseDt) <= p.vPeak)
  {
    if x0 != x1 && v > 0 {
      PlanIsShaped(t0, x0, x1, v, accel, decel);
      var p := Plan(t0, x0, x1, v, accel, decel);
      SpeedBound(p, t - t0);
      if t - t0 < p.totalDt {
        PlannedOffset(t0, x0, x1, v, accel, decel, t - t0);
      } else {
        assert Sample(p, t).x == x1;
      }
    }
  }

  lemma PlannedOffset(t0: nat, x0: int, x1: int, v: int32, accel: int32, decel: int32, dt: nat)
    requires x0 != x1 && v > 0
    requires dt < Plan(t0, x0, x1, v, accel, decel).totalDt
    ensures 0 <= Offset(Plan(t0, x0, x1, v, accel, decel), dt) <= Abs(x1 - x0) + 1
  {
    PlanIsShaped(t0, x0, x1, v, accel, decel);
    var p := Plan(t0, x0, x1, v, accel, decel);
    OffsetBounds(p, dt);
    SegmentsFit(Abs(x1 - x0), v, p.accel, p.decel, 0);
    if Offset(p, dt) > CruiseEnd(p) {
      var s: nat :| s <= p.decelDt && Offset(p, dt) == CruiseEnd(p) + DecelDx(p.vPeak, p.decel, s);
      SegmentsFit(Abs(x1 - x0), v, p.accel, p.decel, s);
    }
  }
}
