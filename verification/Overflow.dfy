/**
 Why unbounded integers are a fair model of the planner: inside the limits the
 source documents (drivebase_trajectory.c:8-18) every product it forms while
 planning a move and sampling it fits its C type.
 */
module Overflow {
  import opened CArith
  import opened Profiles
  import opened Envelope

  const MAX_SPEED: int := 1_500_000
  const MAX_ACCEL: int := 10_000_000
  const MAX_RAMP_US: int := 250_000
  const MAX_DISTANCE: int := 9_000_000_000_000

  ghost predicate WithinLimits(dist: nat, v: int, a: int, d: int) {
    0 < v <= MAX_SPEED && 0 < a <= MAX_ACCEL && 0 < d <= MAX_ACCEL && 0 < dist <= MAX_DISTANCE &&
    DtToReach(v, a) <= MAX_RAMP_US && DtToReach(v, d) <= MAX_RAMP_US
  }

  lemma PlanningFits(dist: nat, v: int, a: int, d: int)
    requires WithinLimits(dist, v, a, d)
    ensures v * v <= UINT64_MAX && 2 * a < UINT32_MOD && 2 * d < UINT32_MOD
    ensures 2 * a * d <= UINT64_MAX && dist * US_PER_S <= INT64_MAX && v * US_PER_S <= INT64_MAX
    ensures IsTriangle(dist, v, a, d) ==> dist * TriangleFactor(a, d) <= INT64_MAX
    ensures PlannedCruise(dist, v, a, d) <= dist * US_PER_S
    ensures var peak := PlannedPeak(dist, v, a, d);
            var ta, td := DtToReach(peak, a), DtToReach(peak, d);
            a * ta * ta <= INT64_MAX && d * td * td <= INT64_MAX && peak * PlannedCruise(dist, v, a, d) <= INT64_MAX
  {
    SegmentProducts(dist, v, a, d);
    hide DtToReach, PlannedPeak, PlannedCruise;
    SquareMono(v, MAX_SPEED);
    assert 2 * a * d <= 2 * MAX_ACCEL * MAX_ACCEL by {
      MulMono(a, MAX_ACCEL, d);
      MulMono(d, MAX_ACCEL, MAX_ACCEL);
      assert 2 * a * d == 2 * (a * d);
    }
    if IsTriangle(dist, v, a, d) {
      TriangleProduct(dist, v, a, d);
    }
  }

  /** The products behind the two stored segment positions. */
  lemma SegmentProducts(dist: nat, v: int, a: int, d: int)
    requires WithinLimits(dist, v, a, d)
    ensures PlannedCruise(dist, v, a, d) <= dist * US_PER_S
    ensures var peak := PlannedPeak(dist, v, a, d);
            var ta, td := DtToReach(peak, a), DtToReach(peak, d);
            a * ta * ta <= INT64_MAX && d * td * td <= INT64_MAX && peak * PlannedCruise(dist, v, a, d) <= INT64_MAX
  {
    var peak := PlannedPeak(dist, v, a, d);
    RampTimeMono(peak, v, a);
    RampTimeMono(peak, v, d);
    if !IsTriangle(dist, v, a, d) {
      CruiseTimeFits(dist - RampDistance(v, a) - RampDistance(v, d), v);
    }
    hide DtToReach, RampDistance, IsTriangle, TrianglePeakOf;
    RampFits(a, DtToReach(peak, a));
    RampFits(d, DtToReach(peak, d));
  }

  lemma CruiseTimeFits(left: nat, v: nat)
    requires v > 0
    ensures left * US_PER_S / v <= left * US_PER_S && v * (left * US_PER_S / v) <= left * US_PER_S
  {
    FloorDiv(left * US_PER_S, v);
    MulMono(1, v, left * US_PER_S / v);
  }

  /** The squared ramp time of the accel and decel phases. */
  lemma RampFits(a: nat, dt: nat)
    requires a <= MAX_ACCEL && dt <= MAX_RAMP_US
    ensures a * dt <= INT64_MAX && a * dt * dt <= 625_000_000_000_000_000 <= INT64_MAX
  {
    MulMono(a, MAX_ACCEL, dt);
    MulMono(dt, MAX_RAMP_US, MAX_ACCEL);
    MulMono(a * dt, MAX_ACCEL * MAX_RAMP_US, dt);
    MulMono(dt, MAX_RAMP_US, MAX_ACCEL * MAX_RAMP_US);
  }

  /** Every product formed while sampling the planned profile dt microseconds after its start. */
  lemma SamplingFits(t0: nat, x0: int, x1: int, v: int32, accel: int32, decel: int32, dt: nat)
    requires x0 != x1
    requires WithinLimits(Abs(x1 - x0), v, EffectiveAccel(accel), EffectiveDecel(accel, decel))
    requires dt < Plan(t0, x0, x1, v, accel, decel).totalDt
    ensures var p := Plan(t0, x0, x1, v, accel, decel);
            var c := p.accelDt + p.cruiseDt;
            p.totalDt <= INT64_MAX &&
            (dt < p.accelDt ==> p.accel * dt * dt <= INT64_MAX) &&
            (p.accelDt <= dt < c ==> p.vPeak * (dt - p.accelDt) <= INT64_MAX) &&
            (c <= dt ==> p.vPeak * (dt - c) <= INT64_MAX && p.decel * (dt - c) * (dt - c) <= INT64_MAX)
  {
    SegmentTimes(t0, x0, x1, v, accel, decel);
    hide Plan, DtToReach, PlannedPeak, PlannedCruise, RampDistance, EffectiveAccel, EffectiveDecel, TruncDiv;
    var p := Plan(t0, x0, x1, v, accel, decel);
    var c := p.accelDt + p.cruiseDt;
    if dt < p.accelDt {
      RampFits(p.accel, dt);
    } else if dt < c {
      CruiseFits(p.vPeak, p.cruiseDt, dt - p.accelDt);
    } else {
      RampFits(p.decel, dt - c);
      DecelSpeedFits(p.vPeak, dt - c);
    }
  }

  lemma CruiseFits(v: nat, cruise: nat, s: nat)
    requires s <= cruise && v * cruise <= INT64_MAX
    ensures v * s <= INT64_MAX
  {
    MulMono(s, cruise, v);
  }

  lemma DecelSpeedFits(v: nat, s: nat)
    requires v <= MAX_SPEED && s <= MAX_RAMP_US
    ensures v * s <= INT64_MAX
  {
    MulMono(v, MAX_SPEED, s);
    MulMono(s, MAX_RAMP_US, MAX_SPEED);
  }

  /** How long the three segments of a planned profile last. */
  lemma SegmentTimes(t0: nat, x0: int, x1: int, v: int32, accel: int32, decel: int32)
    requires x0 != x1
    requires WithinLimits(Abs(x1 - x0), v, EffectiveAccel(accel), EffectiveDecel(accel, decel))
    ensures var p := Plan(t0, x0, x1, v, accel, decel);
            0 < p.vPeak <= MAX_SPEED && p.accel <= MAX_ACCEL && p.decel <= MAX_ACCEL &&
            p.accelDt <= MAX_RAMP_US && p.decelDt <= MAX_RAMP_US && p.totalDt == p.accelDt + p.cruiseDt + p.decelDt &&
            p.vPeak * p.cruiseDt <= INT64_MAX && p.totalDt <= INT64_MAX
  {
    PlanIsShaped(t0, x0, x1, v, accel, decel);
    var p := Plan(t0, x0, x1, v, accel, decel);
    var dist := Abs(x1 - x0);
    SegmentProducts(dist, v, p.accel, p.decel);
    RampTimeMono(p.vPeak, v, p.accel);
    RampTimeMono(p.vPeak, v, p.decel);
    hide DtToReach, RampDistance, IsTriangle, TrianglePeakOf, TruncDiv;
  }
}
