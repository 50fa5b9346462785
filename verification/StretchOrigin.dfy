/**
 How early a plan's time origin must be for its stretch to be accepted at all:
 the gate looks t0 before the end, and what the profile still has to go from
 there grows with the square of the origin.
 */
module StretchOrigin {
  import opened CArith
  import opened Profiles
  import opened Envelope
  import opened Stretching
  import opened StretchBounds
  import S = StretchSearch
  import O = Overflow

  // ----- what each segment still covers

  lemma AccelLeft(v: nat, a: nat, s: nat)
    requires 0 < v <= O.MAX_SPEED && a > 0 && s <= DtToReach(v, a)
    ensures v * (DtToReach(v, a) - s) <= (DxFromA(a, DtToReach(v, a)) - DxFromA(a, s) + 2) * (2 * US_PER_S)
  {
    var t := DtToReach(v, a);
    RampTime(v, a);
    SquareGap(v * US_PER_S, a, s, t);
    assert v * US_PER_S * (t - s) == US_PER_S * (v * (t - s));
  }

  lemma SquareGap(m: nat, a: nat, s: nat, t: nat)
    requires s <= t && t * a <= m < t * a + a
    ensures m * (t - s) - m <= a * t * t - a * s * s
  {
    var g := t - s;
    MulMono(m - a, a * t, g);
    MulMono(g, t, a);
    MulMono(0, a * s, g);
    assert a * t * t - a * s * s == a * t * g + a * s * g by { assert a * t * g == a * t * t - a * t * s; assert a * s * g == a * s * t - a * s * s; }
    assert (m - a) * g == m * g - g * a && t * a == a * t;
  }

  lemma DecelLeft(v: nat, d: nat)
    requires v > 0 && d > 0 && DtToReach(v, d) >= 1
    ensures v * (DtToReach(v, d) - 1) <= (DecelDx(v, d, DtToReach(v, d) - 1) + 1) * (2 * US_PER_S)
  {
    var s := DtToReach(v, d) - 1;
    RampTime(v, d);
    DecelScaled(v, d, s);
    HalfCurve(v, d, s);
    hide DecelDx, DtToReach;
  }

  lemma HalfCurve(v: nat, d: nat, s: nat)
    requires d * s <= v * US_PER_S
    ensures US_PER_S * (v * s) <= Curve(v, d, s)
  {
    MulMono(d * s, v * US_PER_S, s);
    assert v * US_PER_S * s == US_PER_S * (v * s);
  }

  /** The last t0 microseconds of a decel segment, one microsecond before its end. */
  lemma DecelTail(v: nat, d: nat, t0: nat, total: nat)
    requires v > 0 && d > 0 && t0 < DtToReach(v, d) < total
    ensures var r := DtToReach(v, d) - 1;
            v * (t0 * t0) <= (DecelDx(v, d, r) - DecelDx(v, d, r - t0) + 2) * (2 * US_PER_S) * total
  {
    var r := DtToReach(v, d) - 1;
    RampTime(v, d);
    hide DecelDx, DtToReach, Curve;
    DecelScaled(v, d, r);
    DecelScaled(v, d, r - t0);
    CurveTail(v, d, r, t0);
    assert d * (t0 * t0) <= (DecelDx(v, d, r) - DecelDx(v, d, r - t0) + 2) * (2 * US2_PER_S2);
    TailTimesTotal(v, d, t0, total, DecelDx(v, d, r) - DecelDx(v, d, r - t0) + 2, r);
  }

  lemma CurveTail(v: nat, d: nat, r: nat, t0: nat)
    requires t0 <= r && d * (r + 1) <= v * US_PER_S
    ensures d * (t0 * t0) <= Curve(v, d, r) - Curve(v, d, r - t0)
  {
    var s := r - t0;
    assert Curve(v, d, r) - Curve(v, d, s) == t0 * (2 * (v * US_PER_S) - d * (r + s));
    MulMono(d * t0, 2 * (v * US_PER_S) - d * (r + s), t0);
    assert d * (r + 1) * 2 == d * (r + s) + d * t0 + 2 * d;
  }

  lemma TailTimesTotal(v: nat, d: nat, t0: nat, total: nat, left: int, r: nat)
    requires d * (t0 * t0) <= left * (2 * US2_PER_S2) && v * US_PER_S < d * (r + 2) && r + 2 <= total
    ensures v * (t0 * t0) <= left * (2 * US_PER_S) * total
  {
    var sq := t0 * t0;
    MulMono(r + 2, total, d);
    MulMono(v * US_PER_S, d * total, sq);
    MulMono(d * sq, left * (2 * US2_PER_S2), total);
    assert d * total * sq == d * sq * total;
    assert v * US_PER_S * sq == v * sq * US_PER_S;
    assert left * (2 * US2_PER_S2) * total == left * (2 * US_PER_S) * total * US_PER_S;
    Cancel(v * sq, left * (2 * US_PER_S) * total, US_PER_S);
  }

  // ----- what a whole profile still covers

  /** Before the decel, half the peak is a lower bound of the average speed to the end. */
  lemma LeftBeforeDecel(q: Profile, s: nat)
    requires Shaped(q) && q.vPeak <= O.MAX_SPEED && q.cruiseDt > 0 && s < q.accelDt + q.cruiseDt
    ensures q.vPeak * (q.totalDt - 1 - s) <= (Offset(q, q.totalDt - 1) - Offset(q, s) + 4) * (2 * US_PER_S)
  {
    var v, ta := q.vPeak, q.accelDt;
    OffsetByPhase(q, s);
    OffsetByPhase(q, q.totalDt - 1);
    var from := if s < ta then 0 else s - ta;
    var to := if q.decelDt >= 1 then q.cruiseDt else q.cruiseDt - 1;
    DxFromVGrowth(v, from, to);
    var accel, decel := if s < ta then ta - s else 0, if q.decelDt >= 1 then q.decelDt - 1 else 0;
    if s < ta { AccelLeft(v, q.accel, s); }
    if q.decelDt >= 1 { DecelLeft(v, q.decel); }
    hide Offset, DxFromA, DxFromV, DecelDx, DtToReach;
    SumTimes(v, accel, to - from, decel, q.totalDt - 1 - s);
  }

  lemma SumTimes(v: nat, x: nat, y: nat, z: nat, t: nat)
    requires t <= x + 2 * y + z
    ensures v * t <= v * x + 2 * (v * y) + v * z
  {
    MulMono(t, x + 2 * y + z, v);
    assert v * (x + 2 * y + z) == v * x + 2 * (v * y) + v * z;
  }

  /** Between any time t0 before the last microsecond and that, in terms of origin, peak and duration. */
  lemma LeftToGo(q: Profile, t0: nat)
    requires Shaped(q) && q.vPeak <= O.MAX_SPEED && q.cruiseDt > 0 && t0 < q.totalDt
    ensures q.vPeak * (t0 * t0) <= (Offset(q, q.totalDt - 1) - Offset(q, q.totalDt - 1 - t0) + 4) * (2 * US_PER_S) * q.totalDt
  {
    var s := q.totalDt - 1 - t0;
    var left := Offset(q, q.totalDt - 1) - Offset(q, s);
    if s < q.accelDt + q.cruiseDt {
      LeftBeforeDecel(q, s);
      hide Offset;
      TimesTotal(q.vPeak, t0, q.totalDt, (left + 4) * (2 * US_PER_S));
    } else {
      OffsetByPhase(q, s);
      OffsetByPhase(q, q.totalDt - 1);
      DecelTail(q.vPeak, q.decel, t0, q.totalDt);
      hide Offset, DecelDx;
      MulMono((left + 2) * (2 * US_PER_S), (left + 4) * (2 * US_PER_S), q.totalDt);
    }
  }

  lemma TimesTotal(v: nat, t0: nat, total: nat, work: int)
    requires v * t0 <= work && t0 <= total
    ensures v * (t0 * t0) <= work * total
  {
    MulMono(v * t0, work, total);
    MulMono(t0, total, v * t0);
    assert v * t0 * t0 == v * (t0 * t0) && t0 * (v * t0) == v * (t0 * t0);
    assert total * (v * t0) == v * t0 * total;
  }

  // ----- acceptance

  /** An accepted stretch of a long enough move has an early origin, and its square fits the target's. */
  lemma StretchNeedsEarlyOrigin(t0: nat, x0: int, x1: int, v: int32, accel: int32, decel: int32, target: nat)
    requires Abs(x1 - x0) >= S.MIN_DISTANCE && 0 < v <= O.MAX_SPEED && target <= S.MAX_TARGET
    requires Stretch(Plan(t0, x0, x1, v, accel, decel), target).0 == Ok
    ensures t0 < target && (Abs(x1 - x0) - 102) * (t0 * t0) <= 400 * (target * target)
  {
    S.PlannedIsOrdinary(t0, x0, x1, v, accel, decel);
    PlanIsShaped(t0, x0, x1, v, accel, decel);
    hide Plan, Stretch, Shaped, S.Ordinary;
    AcceptedIsEarly(Plan(t0, x0, x1, v, accel, decel), target);
  }

  lemma AcceptedIsEarly(p: Profile, target: nat)
    requires S.Ordinary(p) && Stretch(p, target).0 == Ok && target <= S.MAX_TARGET
    ensures p.t0 < target && (Abs(p.x1 - p.x0) - 102) * (p.t0 * p.t0) <= 400 * (target * target)
  {
    hide *;
    S.OrdinaryPeak(p);
    var q := Stretch(p, target).1;
    S.AcceptedFacts(p, target);
    S.AcceptedEndsNear(p, target);
    GateNear(p, target);
    S.SignedResidual(q);
    OriginSquare(q, p.t0, Abs(p.x1 - p.x0));
  }

  lemma OriginSquare(q: Profile, t0: nat, dist: nat)
    requires Shaped(q) && q.vPeak <= O.MAX_SPEED && q.cruiseDt > 0 && t0 < q.totalDt
    requires -101 <= Offset(q, q.totalDt - 1) - dist <= 96 && Offset(q, q.totalDt - 1 - t0) >= dist - 100
    ensures (dist - 102) * (t0 * t0) <= 400 * (q.totalDt * q.totalDt)
  {
    hide Offset, Shaped;
    LeftToGo(q, t0);
    PeakTimesTotal(q);
    Quadratic(dist, q.vPeak, t0, q.totalDt, Offset(q, q.totalDt - 1) - Offset(q, q.totalDt - 1 - t0));
  }

  /** What the gate has seen of an accepted stretch. */
  lemma GateNear(p: Profile, target: nat)
    requires Stretched(p) && p.t0 < target && Stretch(p, target).0 == Ok
    ensures Offset(Stretch(p, target).1, target - 1 - p.t0) >= Abs(p.x1 - p.x0) - 100
  {
    StretchKeepsTheMove(p, target);
    OffsetAndResidual(Stretch(p, target).1, target - 1 - p.t0);
    hide Offset, SampleAfter;
  }

  /** A profile covers no more than its peak allows. */
  lemma PeakTimesTotal(q: Profile)
    requires Shaped(q) && q.totalDt >= 1
    ensures (Offset(q, q.totalDt - 1) - 1) * US_PER_S <= q.vPeak * q.totalDt
  {
    OffsetAtStart(q);
    hide Offset, Shaped;
    OffsetGrowth(q, 0, q.totalDt - 1);
    WholeTime(Offset(q, q.totalDt - 1) - Offset(q, 0) - 1, q.vPeak, q.totalDt);
  }

  lemma WholeTime(x: int, v: nat, total: nat)
    requires total >= 1 && x * US_PER_S <= v * (total - 1)
    ensures x * US_PER_S <= v * total
  {
    assert v * total == v * (total - 1) + v;
  }

  lemma OffsetAtStart(q: Profile)
    requires Shaped(q) && q.totalDt >= 1
    ensures Offset(q, 0) == 0
  {
    OffsetByPhase(q, 0);
    assert DxFromA(q.accel, 0) == 0 && DxFromA(q.decel, 0) == 0 && DxFromV(q.vPeak, 0) == 0;
    hide Offset, DxFromA, DxFromV;
  }

  lemma Quadratic(dist: nat, v: nat, t0: nat, target: nat, left: int)
    requires left <= 196 && v * (t0 * t0) <= (left + 4) * (2 * US_PER_S) * target
    requires (dist - 102) * US_PER_S <= v * target
    ensures (dist - 102) * (t0 * t0) <= 400 * (target * target)
  {
    var sq := t0 * t0;
    MulMono((left + 4) * (2 * US_PER_S), 400 * US_PER_S, target);
    MulMono(v * sq, 400 * US_PER_S * target, target);
    MulMono((dist - 102) * US_PER_S, v * target, sq);
    assert v * target * sq == v * sq * target;
    assert 400 * US_PER_S * target * target == 400 * (target * target) * US_PER_S;
    assert (dist - 102) * US_PER_S * sq == (dist - 102) * sq * US_PER_S;
    Cancel((dist - 102) * sq, 400 * (target * target), US_PER_S);
  }
}
