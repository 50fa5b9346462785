/**
 When a stretch lowers the peak, as the header promises: for everything the
 curve command asks within two minutes, accelerations near zero excepted.
 */
module StretchPeak {
  import opened CArith
  import opened Profiles
  import opened Envelope
  import opened Stretching
  import opened StretchSearch
  import O = Overflow
  import B = StretchBounds
  import E = EndGap

  const MIN_ACCEL: int := 10
  const MIN_CURVE: nat := 250

  /** The old peak would be done too early by more than the search tolerates. */
  ghost predicate FarTooFast(v: nat, n: nat, target: nat) {
    v * (target - n) > MAX_ERROR_WORK
  }

  // ----- moves that cruise

  /** A cruising move's planned duration is the search's, up to the ramps' rounding. */
  lemma CruiseDuration(v: nat, a: nat, d: nat, dist: nat)
    requires 0 < v <= O.MAX_SPEED && a > 0 && d > 0 && !IsTriangle(dist, v, a, d)
    ensures var total := DtToReach(v, a) + PlannedCruise(dist, v, a, d) + DtToReach(v, d);
            v * TotalDt(v, a, d, dist) <= v * total + 4_000_000 + v
  {
    var r, k := RampsDx(v, a, d), RampDistance(v, a) + RampDistance(v, d);
    RampsNear(v, a, d);
    hide RampDistance, DtToReach, DxFromA;
    TwoQuotients(dist - r, dist - k, v);
    var ramps := DtToReach(v, a) + DtToReach(v, d);
    SearchDuration(v, a, d, dist);
    assert PlannedCruise(dist, v, a, d) == (dist - k) * US_PER_S / v;
    hide TotalDt, PlannedCruise, RampsDx;
    CommonRamps(v, ramps, (dist - r) * US_PER_S / v, (dist - k) * US_PER_S / v);
  }

  lemma SearchDuration(v: nat, a: nat, d: nat, dist: nat)
    requires v > 0 && RampsDx(v, a, d) < dist
    ensures TotalDt(v, a, d, dist) == DtToReach(v, a) + DtToReach(v, d) + (dist - RampsDx(v, a, d)) * US_PER_S / v
  {
  }

  lemma RampsNear(v: nat, a: nat, d: nat)
    requires 0 < v <= O.MAX_SPEED && a > 0 && d > 0
    ensures var k := RampDistance(v, a) + RampDistance(v, d); k - 4 <= RampsDx(v, a, d) <= k
  {
    B.AccelBetween(v, a);
    B.AccelBetween(v, d);
    hide RampDistance, DtToReach, DxFromA;
  }

  lemma TwoQuotients(x: nat, y: nat, v: nat)
    requires x <= y + 4 && v > 0
    ensures x * US_PER_S / v * v <= y * US_PER_S / v * v + 4_000_000 + v
  {
    FloorDiv(x * US_PER_S, v);
    FloorDiv(y * US_PER_S, v);
  }

  lemma CommonRamps(v: nat, ramps: nat, c: nat, e: nat)
    requires c * v <= e * v + 4_000_000 + v
    ensures v * (ramps + c) <= v * (ramps + e) + 4_000_000 + v
  {
    assert v * (ramps + c) == v * ramps + c * v && v * (ramps + e) == v * ramps + e * v;
  }

  lemma CruiseTooFast(v: nat, a: nat, d: nat, dist: nat, target: nat, total: nat)
    requires 0 < v <= O.MAX_SPEED && a > 0 && d > 0 && !IsTriangle(dist, v, a, d) && PeakFits(v, a, d, dist)
    requires total == DtToReach(v, a) + PlannedCruise(dist, v, a, d) + DtToReach(v, d)
    requires dist >= MIN_CURVE && 2 * target >= 3 * total
    ensures FarTooFast(v, TotalDt(v, a, d, dist), target)
  {
    CruiseDuration(v, a, d, dist);
    LongEnough(v, v, a, d, dist);
    hide TotalDt, PlannedCruise, DtToReach, PeakFits, IsTriangle;
    OneAndAHalf(v, total, TotalDt(v, a, d, dist), target);
  }

  lemma OneAndAHalf(v: nat, total: nat, n: nat, target: nat)
    requires v <= O.MAX_SPEED && 2 * target >= 3 * total && v * n <= v * total + 4_000_000 + v
    requires v * n >= US_PER_S * MIN_CURVE - 3 * v
    ensures FarTooFast(v, n, target)
  {
    MulMono(3 * total, 2 * target, v);
    assert v * (target - n) == v * target - v * n && 3 * total * v == 3 * (v * total) && 2 * target * v == 2 * (v * target);
  }

  // ----- moves too short to cruise

  /** A ramp lasts at least as long as twice its distance at the peak. */
  lemma RampTimeReal(u: nat, a: nat)
    requires a > 0
    ensures 2.0 * Ramp6(u, a) - u as real <= (u * DtToReach(u, a)) as real
  {
    var t, z := DtToReach(u, a), (2 * a) as real;
    RampTime(u, a);
    TimesPeak(u, t * a, a);
    hide DtToReach;
    assert u * (t * a) == a * (u * t);
    RampTimeBound(u * u, a, u, u * t);
  }

  lemma RampTimeBound(uu: nat, a: nat, u: nat, w: nat)
    requires a > 0 && US_PER_S * uu <= a * w + a * u
    ensures 2.0 * (1_000_000.0 * uu as real / (2 * a) as real) - u as real <= w as real
  {
    CastProduct(a, u);
    CastProduct(a, w);
    RampTimeDivide(1_000_000.0 * uu as real, a as real, u as real, w as real);
  }

  lemma RampTimeDivide(n: real, a: real, u: real, w: real)
    requires a > 0.0 && n <= a * w + a * u
    ensures 2.0 * (n / (2.0 * a)) - u <= w
  {
    var k := n / (2.0 * a);
    assert k * (2.0 * a) == n;
    assert (2.0 * k - u) * a == n - a * u && w * a == a * w;
    CancelReal(2.0 * k - u, w, a);
  }

  /** With accelerations of at least 10 the two ramps cover four fifths of the distance. */
  lemma FourFifths(dist: nat, a: nat, d: nat, v: nat)
    requires a >= MIN_ACCEL && d >= MIN_ACCEL && dist >= MIN_CURVE && v == FloorSqrt(dist * TriangleFactor(a, d))
    ensures 5 * (RampDistance(v, a) + RampDistance(v, d)) >= 4 * dist - 10
  {
    var k := TriangleFactor(a, d);
    FactorAtLeast(a, d);
    PeakSquare(dist, k, v);
    hide TriangleFactor, FloorSqrt, RampDistance;
    E.TriangleLoss(dist, a, d, v);
    SmallPeak(dist, k, v);
    assert dist * (k + 1) == dist * (k - 4) + 5 * dist;
    FifthAtMost(dist + 2 * v, k + 1, dist);
  }

  lemma PeakSquare(dist: nat, k: nat, v: nat)
    requires v == FloorSqrt(dist * k)
    ensures v * v <= dist * k < (v + 1) * (v + 1)
  {
  }

  lemma FactorAtLeast(a: nat, d: nat)
    requires a >= MIN_ACCEL && d >= MIN_ACCEL
    ensures TriangleFactor(a, d) >= MIN_ACCEL
  {
    MulMono(MIN_ACCEL, d, a);
    MulMono(MIN_ACCEL, a, d);
    assert MIN_ACCEL * (a + d) <= 2 * a * d by { assert 2 * a * d == a * d + a * d; assert d * a == a * d; }
    DivAtLeast(MIN_ACCEL, 2 * a * d, a + d);
  }

  lemma SmallPeak(dist: nat, k: nat, v: nat)
    requires k >= MIN_ACCEL && dist >= MIN_CURVE && v * v <= dist * k
    ensures 10 * v <= dist * (k - 4)
  {
    var m, g := dist * (k - 4), (k - 4) * (k - 4);
    MulMono(6, k - 4, k - 4);
    MulMono(MIN_CURVE, dist, g);
    MulMono(100 * k, dist * g, dist);
    assert m * m == dist * g * dist && 100 * k * dist == 100 * (dist * k) && 10 * v * (10 * v) == 100 * (v * v);
    RootMono(10 * v, m);
  }

  lemma RootMono(x: nat, y: nat)
    requires x * x <= y * y
    ensures x <= y
  {
    if x > y { SquareMono(y + 1, x); }
  }

  lemma FifthAtMost(n: nat, m: nat, dist: nat)
    requires m > 0 && 5 * n <= dist * m
    ensures 5 * (n / m) <= dist
  {
    FloorDiv(n, m);
    assert 5 * (n / m) * m == 5 * (n / m * m);
    Cancel(5 * (n / m), dist, m);
  }

  lemma TriangleTooFast(v: nat, a: nat, d: nat, dist: nat, target: nat)
    requires 0 < v <= O.MAX_SPEED && a >= MIN_ACCEL && d >= MIN_ACCEL && PeakFits(v, a, d, dist)
    requires v == FloorSqrt(dist * TriangleFactor(a, d)) && dist >= MIN_CURVE
    requires 2 * target >= 3 * (DtToReach(v, a) + DtToReach(v, d))
    ensures FarTooFast(v, TotalDt(v, a, d, dist), target)
  {
    assert a > 0 && d > 0;
    hide *;
    FourFifths(dist, a, d, v);
    WorkOfRamps(v, a, d, dist);
    RampTimeReal(v, a);
    RampTimeReal(v, d);
    RampsAtLeast(v, a, d);
    TriangleSlack(v, DtToReach(v, a), DtToReach(v, d), TotalDt(v, a, d, dist), target, dist, Ramp6(v, a) + Ramp6(v, d));
  }

  lemma WorkOfRamps(v: nat, a: nat, d: nat, dist: nat)
    requires v > 0 && a > 0 && d > 0 && PeakFits(v, a, d, dist)
    ensures (v * TotalDt(v, a, d, dist)) as real
         <= 1_000_000.0 * dist as real + (Ramp6(v, a) + Ramp6(v, d)) + 2.0 * v as real + 2_000_000.0
  {
    hide TotalDt, PeakFits, Curvature, Ramp6, RampsDx, RoomFor, WorkAtLeast;
    PeakFacts(v, v, a, d, dist);
    RampsQuadratic(v, a, d);
  }

  lemma RampsAtLeast(v: nat, a: nat, d: nat)
    requires a > 0 && d > 0
    ensures Ramp6(v, a) + Ramp6(v, d) >= 1_000_000.0 * (RampDistance(v, a) + RampDistance(v, d)) as real
  {
    RampRoom(v, a);
    RampRoom(v, d);
    hide Ramp6, RampDistance;
  }

  lemma TriangleSlack(v: nat, x: nat, y: nat, n: nat, target: nat, dist: nat, k: real)
    requires v <= O.MAX_SPEED && dist >= MIN_CURVE && 2 * target >= 3 * (x + y)
    requires 2.0 * k - 2.0 * v as real <= (v * x) as real + (v * y) as real
    requires (v * n) as real <= 1_000_000.0 * dist as real + k + 2.0 * v as real + 2_000_000.0
    requires 5.0 * k >= 1_000_000.0 * (4 * dist - 10) as real
    ensures FarTooFast(v, n, target)
  {
    MulMono(3 * (x + y), 2 * target, v);
    assert 3 * (x + y) * v == 3 * (v * x) + 3 * (v * y) && 2 * target * v == 2 * (v * target);
    assert v * (target - n) == v * target - v * n;
  }

  // ----- planned moves

  /**
   What the header promises holds for the curve command, which asks for at least
   one and a half times the planned duration: an accepted stretch of a planned
   move of at least 250 milli-degrees to at most two minutes lowers the peak.
   */
  lemma CurveLowersPeak(t0: nat, x0: int, x1: int, v: int32, accel: int32, decel: int32, target: nat)
    requires Abs(x1 - x0) >= MIN_CURVE && 0 < v <= O.MAX_SPEED && target <= MAX_TARGET
    requires EffectiveAccel(accel) >= MIN_ACCEL && EffectiveDecel(accel, decel) >= MIN_ACCEL
    requires var p := Plan(t0, x0, x1, v, accel, decel); 2 * target >= 3 * p.totalDt && Stretch(p, target).0 == Ok
    ensures var p := Plan(t0, x0, x1, v, accel, decel); Stretch(p, target).1.vPeak < p.vPeak
  {
    var dist, a, d := Abs(x1 - x0), EffectiveAccel(accel), EffectiveDecel(accel, decel);
    PlanIsShaped(t0, x0, x1, v, accel, decel);
    PlannedIsOrdinary(t0, x0, x1, v, accel, decel);
    var p := Plan(t0, x0, x1, v, accel, decel);
    assert p.vPeak == PlannedPeak(dist, v, a, d);
    assert p.totalDt == DtToReach(p.vPeak, a) + PlannedCruise(dist, v, a, d) + DtToReach(p.vPeak, d);
    hide *;
    PlannedTooFast(dist, v, a, d, target, p.totalDt);
    OldPeakRejected(p, target);
  }

  lemma OldPeakRejected(p: Profile, target: nat)
    requires Ordinary(p) && Stretch(p, target).0 == Ok && target <= MAX_TARGET
    requires FarTooFast(p.vPeak, TotalDt(p.vPeak, p.accel, p.decel, Abs(p.x1 - p.x0)), target)
    ensures Stretch(p, target).1.vPeak < p.vPeak
  {
    hide Ordinary, PeakFits, Curvature, Stretch, Stretched, TotalDt, Shaped, Searched;
    OrdinaryPeak(p);
    AcceptedFacts(p, target);
    SearchError(p.vPeak, p.accel, p.decel, Abs(p.x1 - p.x0), target);
  }

  lemma PlannedTooFast(dist: nat, v: nat, a: nat, d: nat, target: nat, total: nat)
    requires dist >= MIN_CURVE && 0 < v <= O.MAX_SPEED && MIN_ACCEL <= a <= INT32_MAX && MIN_ACCEL <= d <= INT32_MAX
    requires var u := PlannedPeak(dist, v, a, d);
             total == DtToReach(u, a) + PlannedCruise(dist, v, a, d) + DtToReach(u, d) && 2 * target >= 3 * total
    ensures FarTooFast(PlannedPeak(dist, v, a, d), TotalDt(PlannedPeak(dist, v, a, d), a, d, dist), target)
  {
    var u := PlannedPeak(dist, v, a, d);
    PlannedFits(dist, v, a, d);
    if IsTriangle(dist, v, a, d) {
      TrianglePeakInRange(dist, v, a, d);
      hide FarTooFast, TotalDt, PeakFits, Curvature, DtToReach;
      TriangleTooFast(u, a, d, dist, target);
    } else {
      hide FarTooFast, TotalDt, PeakFits, Curvature, DtToReach;
      CruiseTooFast(u, a, d, dist, target, total);
    }
  }

  // ----- accelerations near zero

  /** A 9 milli-degree move whose floored factor halves the room of its triangle. */
  const LOW_MOVE: Profile :=
    Profile(0, 0, 9, 3, 1, 1_000_000, 1, false, 3_000_000, 0, 3, 3_000_003, 4, 4)
  const LOW_TARGET: nat := 4_600_000
  const LOW_RESULT: Profile :=
    Profile(0, 0, 9, 3, 1, 1_000_000, 1, false, 3_000_000, 1_599_997, 3, 4_600_000, 4, 8)

  /** The promise needs the acceleration: this move's stretch to more than one and a half times its duration keeps the peak 3. */
  lemma LowAccelerationKeepsPeak() returns (p: Profile, target: nat, q: Profile, v: int32, a: int32, d: int32)
    ensures p == Plan(0, 0, 9, v, a, d) && v == 5 && a == 1 && d == 1_000_000
    ensures 2 * target >= 3 * p.totalDt && Stretch(p, target) == (Ok, q) && q.vPeak == p.vPeak == 3
  {
    p, target, q, v, a, d := LOW_MOVE, LOW_TARGET, LOW_RESULT, 5, 1, 1_000_000;
    hide Plan, Stretch;
    LowMovePlanned(v, a, d);
    LowMoveStretch(p, target, q);
  }

  lemma LowMoveStretch(p: Profile, target: nat, q: Profile)
    requires p == LOW_MOVE && target == LOW_TARGET && q == LOW_RESULT
    ensures Stretch(p, target) == (Ok, q)
  {
    assert Stretchable(p, target) && target > 0;
    hide *;
    LowMoveCandidate(p, target);
    LowMoveSample(q, target);
    StretchAccepts(p, target, q);
  }

  lemma LowMovePlanned(v: int32, a: int32, d: int32)
    requires v == 5 && a == 1 && d == 1_000_000
    ensures LOW_MOVE == Plan(0, 0, 9, v, a, d)
  {
    assert RampDistance(5, a) == 12 && RampDistance(5, d) == 0;
    assert TriangleFactor(a, d) == 1;
    FloorSqrtUnique(9, 3);
    LowMoveRamps(3, a, d);
  }

  lemma LowMoveRamps(u: nat, a: nat, d: nat)
    requires u == 3 && a == 1 && d == 1_000_000
    ensures DtToReach(u, a) == 3_000_000 && DtToReach(u, d) == 3
    ensures DxFromA(a, 3_000_000) == 4 && DxFromA(d, 3) == 0 && DxFromV(u, 0) == 0 && DxFromV(u, 1_599_997) == 4
  {
  }

  lemma LowMoveCandidate(p: Profile, target: nat)
    requires p == LOW_MOVE && target == LOW_TARGET
    ensures RampsFit(p, target) && StretchCandidate(p, target) == LOW_RESULT
  {
    LowMoveSearch(p.accel, p.decel, 9, target);
    LowMoveRamps(3, p.accel, p.decel);
    assert StretchPeak(p, target) == 3;
    hide StretchPeak;
    CandidateFromPeak(p, target, 3);
  }

  lemma LowMoveSearch(a: nat, d: nat, dist: nat, target: nat)
    requires a == 1 && d == 1_000_000 && dist == 9 && target == LOW_TARGET
    ensures Searched(3, a, d, dist, target) == 3
  {
    LowMoveErrors(a, d, dist, target);
    hide StretchErr;
    var b0 := Best(1, UINT64_MAX);
    var b2 := Best(2, StretchErr(2, a, d, dist, target));
    assert TotalDt(2, a, d, dist) > target;
    assert Bisect(2, 3, b2, a, d, dist, target) == b2;
    assert Bisect(1, 3, b0, a, d, dist, target) == b2;
    var b3 := Best(3, StretchErr(3, a, d, dist, target));
    assert Probe(4, 3, b3, a, d, dist, target) == b3;
    assert Probe(3, 3, b2, a, d, dist, target) == b3;
    assert Probe(2, 3, b2, a, d, dist, target) == b3;
    assert Probe(1, 3, b2, a, d, dist, target) == b3;
  }

  lemma LowMoveErrors(a: nat, d: nat, dist: nat, target: nat)
    requires a == 1 && d == 1_000_000 && dist == 9 && target == LOW_TARGET
    ensures StretchErr(3, a, d, dist, target) == 66_669 && StretchErr(2, a, d, dist, target) == 900_002
    ensures StretchErr(1, a, d, dist, target) > 900_002 && TotalDt(2, a, d, dist) > target
  {
    LowMoveRamps(3, a, d);
    assert DtToReach(2, a) == 2_000_000 && DtToReach(2, d) == 2 && DxFromA(a, 2_000_000) == 2 && DxFromA(d, 2) == 0;
    assert DtToReach(1, a) == 1_000_000 && DtToReach(1, d) == 1 && DxFromA(a, 1_000_000) == 0 && DxFromA(d, 1) == 0;
  }

  lemma LowMoveSample(q: Profile, target: nat)
    requires q == LOW_RESULT && target == LOW_TARGET
    ensures Sample(q, target - 1).x == 8
  {
    assert DecelDx(3, 1_000_000, 2) == 0;
  }
}
