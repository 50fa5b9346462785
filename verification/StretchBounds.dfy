/**
 How far an accepted stretch is from its endpoint when it latches.  The gate
 vouches for an earlier moment when the time origin is not zero; these bounds
 and conditions are in terms of origin, peak and target, for every stretch.
 */
module StretchBounds {
  import opened CArith
  import opened Profiles
  import opened Envelope
  import opened Stretching
  import R = Retargeting
  import E = EndGap

  // ----- growth of a profile

  lemma DxFromVGrowth(v: nat, s: nat, t: nat)
    requires s <= t
    ensures (DxFromV(v, t) - DxFromV(v, s) - 1) * US_PER_S <= v * (t - s)
    ensures v * (t - s) <= (DxFromV(v, t) - DxFromV(v, s) + 1) * US_PER_S
  {
    assert v * t == v * s + v * (t - s);
  }

  lemma DxFromVSum(v: nat, s: nat, t: nat)
    ensures DxFromV(v, s) + DxFromV(v, t) <= DxFromV(v, s + t)
  {
    assert v * (s + t) == v * s + v * t;
  }

  /** The infinite profile that starts with the same ramp. */
  function Twin(p: Profile): Profile {
    Ramp(0, 0, 0, p.vPeak, p.accel, 0, 0, 0)
  }

  /** A finite profile never gets ahead of its twin, and keeps up with it until the decel begins. */
  lemma BelowTwin(p: Profile, dt: nat)
    requires Shaped(p) && dt < p.totalDt
    ensures R.Forever(Twin(p)) && Twin(p).vPeak == p.vPeak
    ensures Offset(p, dt) <= R.ForeverOffset(Twin(p), dt)
    ensures dt < p.accelDt + p.cruiseDt ==> Offset(p, dt) == R.ForeverOffset(Twin(p), dt)
  {
    OffsetByPhase(p, dt);
    hide Offset;
    if p.accelDt + p.cruiseDt <= dt {
      DxFromVSum(p.vPeak, p.cruiseDt, dt - p.accelDt - p.cruiseDt);
    }
  }

  /** Between any two times before its end a profile moves forward no faster than its peak, up to one milli-degree. */
  lemma OffsetGrowth(p: Profile, s: nat, t: nat)
    requires Shaped(p) && s <= t < p.totalDt
    ensures (Offset(p, t) - Offset(p, s) - 1) * US_PER_S <= p.vPeak * (t - s)
  {
    var c := p.accelDt + p.cruiseDt;
    if s < c {
      BelowTwin(p, s);
      BelowTwin(p, t);
      hide Offset, R.ForeverOffset, Twin;
      R.ForeverTravel(Twin(p), s, t);
    } else {
      OffsetByPhase(p, s);
      OffsetByPhase(p, t);
      hide Offset;
      DxFromVGrowth(p.vPeak, s - c, t - c);
      DxFromAMono(p.decel, s - c, t - c);
    }
  }

  // ----- origins before the target

  /**
   The gate's sample lies t0 before the last one, so what an accepted stretch
   overshoots grows with peak times origin: it is at most 101 milli-degrees plus
   that product, and at least that product over the cruise less 101.
   */
  lemma StretchOvershootGrows(p: Profile, target: nat)
    requires Stretched(p) && p.t0 < target && Stretch(p, target).0 == Ok
    ensures var q := Stretch(p, target).1;
            var over := Offset(q, q.totalDt - 1) - Abs(q.x1 - q.x0);
            over >= -101 && (over - 101) * US_PER_S <= q.vPeak * p.t0 &&
            q.vPeak * Min(p.t0 - q.decelDt, q.cruiseDt - 1) <= (over + 101) * US_PER_S
  {
    var q := Stretch(p, target).1;
    StretchKeepsTheMove(p, target);
    StretchUndershoot(p, target);
    var gate := target - 1 - q.t0;
    OffsetAndResidual(q, gate);
    OffsetGrowth(q, gate, q.totalDt - 1);
    hide Stretch, Offset, SampleAfter, Stretched;
    if p.t0 >= q.decelDt {
      CruiseGrowth(q, gate);
    } else {
      NegativeProduct(q.vPeak, p.t0 - q.decelDt);
    }
  }

  /**
   So the documented bound needs an early origin: within a cruise, the peak may
   not travel more than 201 milli-degrees between the end of the decel and the
   origin.
   */
  lemma BoundNeedsEarlyOrigin(p: Profile, target: nat)
    requires Stretched(p) && p.t0 < target && Stretch(p, target).0 == Ok
    ensures var q := Stretch(p, target).1;
            MeetsBound(q) ==> q.vPeak * Min(p.t0 - q.decelDt, q.cruiseDt - 1) <= 201 * US_PER_S
  {
    var q := Stretch(p, target).1;
    StretchKeepsTheMove(p, target);
    StretchOvershootGrows(p, target);
    hide Stretch;
    ResidualAtEnd(q);
    hide Offset, MeetsBound, Min;
  }

  function Min(x: int, y: int): int {
    if x < y then x else y
  }

  lemma NegativeProduct(v: nat, x: int)
    requires x < 0
    ensures forall y :: v * Min(x, y) <= 0
  {
    forall y ensures v * Min(x, y) <= 0 { MulMono(Min(x, y), 0, v); }
  }

  /** From a time before the decel to its end, a profile gains at least what is left of the cruise. */
  lemma CruiseGrowth(q: Profile, s: nat)
    requires Shaped(q) && q.cruiseDt > 0 && s < q.accelDt + q.cruiseDt
    ensures var left := q.accelDt + q.cruiseDt - 1 - s;
            q.vPeak * Min(left, q.cruiseDt - 1) <= (Offset(q, q.totalDt - 1) - Offset(q, s) + 1) * US_PER_S
  {
    var from := if s < q.accelDt then 0 else s - q.accelDt;
    OffsetByPhase(q, s);
    OffsetByPhase(q, q.totalDt - 1);
    DxFromVGrowth(q.vPeak, from, q.cruiseDt - 1);
    DxFromVMono(q.vPeak, q.cruiseDt - 1, q.cruiseDt);
    hide Offset, DxFromV;
    if s < q.accelDt { DxFromAMono(q.accel, s, q.accelDt); }
    if q.decelDt >= 1 { DecelCovers(q.vPeak, q.decel, q.decelDt - 1); }
  }

  // ----- every origin

  /** Distance a stretched profile of this peak and duration has covered one microsecond before its end. */
  function EndOffset(v: nat, a: nat, d: nat, total: nat): int
    requires DtToReach(v, a) + DtToReach(v, d) < total
  {
    var ta, td := DtToReach(v, a), DtToReach(v, d);
    var cruise := total - ta - td;
    if td == 0 then DxFromA(a, ta) + DxFromV(v, cruise - 1)
    else DxFromA(a, ta) + DxFromV(v, cruise) + DecelDx(v, d, td - 1)
  }

  /** Distance of a trapezoid of this peak and duration, by the kinematic formula v^2 / 2a. */
  function Covered(v: nat, a: nat, d: nat, total: nat): nat
    requires a > 0 && d > 0 && DtToReach(v, a) + DtToReach(v, d) < total
  {
    RampDistance(v, a) + DxFromV(v, total - DtToReach(v, a) - DtToReach(v, d)) + RampDistance(v, d)
  }

  /** The documented residual bound of a profile. */
  ghost predicate MeetsBound(q: Profile) {
    q.totalDt >= 1 && Abs(Sample(q, q.t0 + q.totalDt - 1).x - q.x1) <= 100
  }

  /**
   Exactly when an accepted stretch keeps the documented bound, for every origin:
   its peak, its two ramps and the target determine the distance it covers.
   */
  lemma StretchMeetsBoundExactly(p: Profile, target: nat)
    requires Stretched(p) && Stretch(p, target).0 == Ok
    ensures var q := Stretch(p, target).1;
            DtToReach(q.vPeak, q.accel) + DtToReach(q.vPeak, q.decel) < target &&
            (MeetsBound(q) <==> Abs(EndOffset(q.vPeak, q.accel, q.decel, target) - Abs(q.x1 - q.x0)) <= 100)
  {
    var q := Stretch(p, target).1;
    StretchKeepsTheMove(p, target);
    hide Stretch;
    ResidualAtEnd(q);
    EndOffsetReached(q);
    hide Offset, MeetsBound, EndOffset, DtToReach;
  }

  lemma ResidualAtEnd(q: Profile)
    requires Stretched(q) && q.totalDt >= 1
    ensures MeetsBound(q) <==> Abs(Offset(q, q.totalDt - 1) - Abs(q.x1 - q.x0)) <= 100
  {
    OffsetAndResidual(q, q.totalDt - 1);
    hide Offset, SampleAfter, Stretched;
  }

  lemma EndOffsetReached(q: Profile)
    requires Shaped(q) && q.cruiseDt > 0
    ensures DtToReach(q.vPeak, q.accel) + DtToReach(q.vPeak, q.decel) < q.totalDt
    ensures Offset(q, q.totalDt - 1) == EndOffset(q.vPeak, q.accel, q.decel, q.totalDt)
  {
    OffsetByPhase(q, q.totalDt - 1);
    hide Offset, DxFromA, DxFromV, DecelDx, DtToReach;
  }

  /** The covered distance is the kinematic one up to the rounding of the three segments. */
  lemma EndOffsetNearCovered(v: nat, a: nat, d: nat, total: nat)
    requires v > 0 && a > 0 && 0 < d <= INT32_MAX && DtToReach(v, a) + DtToReach(v, d) < total
    ensures Covered(v, a, d, total) - 2 - v / US_PER_S <= EndOffset(v, a, d, total) <= Covered(v, a, d, total) + 1
  {
    var ta, td := DtToReach(v, a), DtToReach(v, d);
    var cruise := total - ta - td;
    AccelBetween(v, a);
    if td >= 1 {
      E.DecelLoss(v, d);
      DecelAtMost(v, d, td - 1);
    } else {
      E.NoDecel(v, d);
      OneMicrosecond(v, cruise - 1);
    }
    hide DxFromA, DxFromV, DecelDx, RampDistance, DtToReach;
  }

  lemma AccelBetween(v: nat, a: nat)
    requires v > 0 && a > 0
    ensures RampDistance(v, a) - 1 - v / US_PER_S <= DxFromA(a, DtToReach(v, a)) <= RampDistance(v, a)
  {
    E.AccelLoss(v, a);
    AccelCoversAtMost(v, a);
    DivAtLeast(DxFromA(a, DtToReach(v, a)), v * v, 2 * a);
  }

  lemma DecelAtMost(v: nat, d: nat, s: nat)
    requires d > 0 && s <= DtToReach(v, d)
    ensures DecelDx(v, d, s) <= RampDistance(v, d) + 1
  {
    DecelCovers(v, d, s);
    if DecelDx(v, d, s) > 1 { DivAtLeast(DecelDx(v, d, s) - 1, v * v, 2 * d); }
  }

  lemma OneMicrosecond(v: nat, s: nat)
    requires v < US_PER_S
    ensures DxFromV(v, s) <= DxFromV(v, s + 1) <= DxFromV(v, s) + 1
  {
    assert v * (s + 1) == v * s + v;
  }

  /**
   In kinematic terms: an accepted stretch keeps the documented bound when the
   distance its peak covers in the target time is within 98 - v / 10^6 below or
   99 above the commanded one, and breaks it when that distance is more than 101
   below or 102 + v / 10^6 above.
   */
  lemma StretchMeetsBound(p: Profile, target: nat)
    requires Stretched(p) && p.decel <= INT32_MAX && Stretch(p, target).0 == Ok
    ensures var q := Stretch(p, target).1;
            DtToReach(q.vPeak, q.accel) + DtToReach(q.vPeak, q.decel) < target &&
            var extra := Covered(q.vPeak, q.accel, q.decel, target) - Abs(q.x1 - q.x0);
            (q.vPeak / US_PER_S - 98 <= extra <= 99 ==> MeetsBound(q)) &&
            (MeetsBound(q) ==> -101 <= extra <= 102 + q.vPeak / US_PER_S)
  {
    var q := Stretch(p, target).1;
    StretchKeepsTheMove(p, target);
    StretchMeetsBoundExactly(p, target);
    hide Stretch, MeetsBound, EndOffset, Covered, DtToReach;
    EndOffsetNearCovered(q.vPeak, q.accel, q.decel, target);
  }
}
