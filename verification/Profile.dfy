/**
 Trapezoidal motion profiles (apps/drivebase/drivebase_trajectory.c) as values:
 the planned profile, its sampling function, and the planning, retargeting and
 stretching results that the in-place methods of module Trajectories compute.

 Units follow the source: microseconds, milli-degrees, mdeg/s and mdeg/s^2.
 Arithmetic is over unbounded integers; module Overflow shows when every C
 intermediate fits its type.  Where the source lets a uint64 wrap, the wrap is
 written out (Sub64).
 */
module Profiles {
  import opened CArith

  const US_PER_S: int := 1_000_000
  const US2_PER_S2: int := 1_000_000_000_000

  /** db_trajectory_s. Segment lengths are relative to t0. */
  datatype Profile = Profile(
    t0: nat, x0: int, x1: int,
    vPeak: nat, accel: nat, decel: nat, direction: int, infinite: bool,
    accelDt: nat, cruiseDt: nat, decelDt: nat, totalDt: nat,
    xAccelEnd: int, xCruiseEnd: int)

  /** db_trajectory_ref_s. */
  datatype Ref = Ref(x: int, v: int, a: int, done: bool)

  function DxFromV(v: nat, dt: nat): (dx: nat) {
    v * dt / US_PER_S
  }

  function DxFromA(a: nat, dt: nat): (dx: nat) {
    assert a * dt * dt >= 0;
    a * dt * dt / (2 * US2_PER_S2)
  }

  function VFromA(a: nat, dt: nat): nat {
    a * dt / US_PER_S
  }

  function DtToReach(v: nat, a: nat): nat {
    if a == 0 then 0 else v * US_PER_S / a
  }

  /** Distance travelled s microseconds into the decel segment. */
  function DecelDx(v: nat, d: nat, s: nat): int {
    DxFromV(v, s) - DxFromA(d, s)
  }

  /** db_trajectory_get_reference. */
  function Sample(p: Profile, t: nat): Ref {
    if t < p.t0 then Ref(p.x0, 0, 0, false)
    else SampleAfter(p, t - p.t0)
  }

  /** The reference dt microseconds after the time origin. */
  function SampleAfter(p: Profile, dt: nat): Ref {
    if p.direction == 0 then Ref(p.x0, 0, 0, !p.infinite)
    else if dt < p.accelDt then
      Ref(p.x0 + p.direction * DxFromA(p.accel, dt), p.direction * VFromA(p.accel, dt),
          p.direction * p.accel, false)
    else if p.infinite || dt < p.accelDt + p.cruiseDt then
      Ref(p.xAccelEnd + p.direction * DxFromV(p.vPeak, dt - p.accelDt), p.direction * p.vPeak, 0, false)
    else if dt < p.totalDt then
      var s := dt - (p.accelDt + p.cruiseDt);
      var v := p.vPeak - VFromA(p.decel, s);
      Ref(p.xCruiseEnd + p.direction * DecelDx(p.vPeak, p.decel, s),
          p.direction * (if v < 0 then 0 else v), -p.direction * p.decel, false)
    else Ref(p.x1, 0, 0, true)
  }

  /** db_trajectory_is_done. */
  predicate IsDone(p: Profile, t: nat) {
    !p.infinite && p.direction != 0 && t >= p.t0 + p.totalDt
  }

  // ----- planning a finite move

  /** The integer square root, independent of how the source searches for it. */
  function FloorSqrt(n: nat): (r: nat)
    ensures r * r <= n < (r + 1) * (r + 1)
  {
    if n == 0 then 0
    else
      var r := FloorSqrt(n - 1);
      if (r + 1) * (r + 1) <= n then r + 1 else r
  }

  lemma FloorSqrtUnique(n: nat, r: nat)
    requires r * r <= n < (r + 1) * (r + 1)
    ensures r == FloorSqrt(n)
  {
    var f := FloorSqrt(n);
    if r < f { SquareMono(r + 1, f); } else if f < r { SquareMono(f + 1, r); }
  }

  /** The factor of v^2 = distance * k in the triangular branch. */
  function TriangleFactor(a: nat, d: nat): nat
    requires a > 0 && d > 0
  {
    FloorDiv(2 * a * d, a + d);
    2 * a * d / (a + d)
  }

  /** triangle_peak, including its guards and its final narrowing cast. */
  function TrianglePeakOf(dist: nat, a: int, d: int): int32 {
    if a <= 0 || d <= 0 then 0 else PeakFromFactor(dist, TriangleFactor(a, d))
  }

  function PeakFromFactor(dist: nat, k: nat): int32 {
    if k == 0 then 0
    else if dist > UINT64_MAX / k then INT32_MAX
    else ToInt32(FloorSqrt(dist * k))
  }

  function RampDistance(v: nat, a: nat): nat
    requires a > 0
  {
    FloorDiv(v * v, 2 * a);
    v * v / (2 * a)
  }

  /** The guard of the triangular branch of db_trajectory_init_position. */
  predicate IsTriangle(dist: nat, v: nat, a: nat, d: nat)
    requires a > 0 && d > 0
  {
    RampDistance(v, a) + RampDistance(v, d) >= dist
  }

  lemma TriangleFactorPositive(a: nat, d: nat)
    requires a > 0 && d > 0
    ensures TriangleFactor(a, d) >= 1
  {
    assert a * (d - 1) >= 0 && d * (a - 1) >= 0;
    assert 2 * a * d >= 1 * (a + d) by {
      assert a * d >= a && a * d >= d;
      assert 2 * a * d == a * d + a * d;
    }
    DivAtLeast(1, 2 * a * d, a + d);
  }

  /** In the triangular branch the product under the root never exceeds the square of the requested speed. */
  lemma TriangleProduct(dist: nat, v: nat, a: nat, d: nat)
    requires a > 0 && d > 0 && IsTriangle(dist, v, a, d)
    ensures dist * TriangleFactor(a, d) <= v * v
  {
    var k, qa, qd, vv := TriangleFactor(a, d), RampDistance(v, a), RampDistance(v, d), v * v;
    FloorDiv(vv, 2 * a);
    FloorDiv(vv, 2 * d);
    FloorDiv(2 * a * d, a + d);
    assert dist * k * (a + d) <= dist * (2 * a * d) by {
      MulMono(k * (a + d), 2 * a * d, dist);
      assert dist * k * (a + d) == k * (a + d) * dist;
    }
    assert dist * (2 * a * d) <= vv * (a + d) by {
      TriangleProductSum(dist, qa, qd, vv, a, d);
    }
    Cancel(dist * k, vv, a + d);
  }

  lemma TriangleProductSum(dist: nat, qa: nat, qd: nat, vv: nat, a: nat, d: nat)
    requires dist <= qa + qd && qa * (2 * a) <= vv && qd * (2 * d) <= vv
    ensures dist * (2 * a * d) <= vv * (a + d)
  {
    MulMono(dist, qa + qd, 2 * a * d);
    MulMono(qa * (2 * a), vv, d);
    MulMono(qd * (2 * d), vv, a);
    assert (qa + qd) * (2 * a * d) == qa * (2 * a) * d + qd * (2 * d) * a;
  }

  /**
   Under the triangular-branch condition the peak lies between 1 and the
   requested speed and is the exact floor square root: neither the saturation
   guard nor the int32 cast changes it.
   */
  lemma TrianglePeakInRange(dist: nat, v: nat, a: nat, d: nat)
    requires a > 0 && d > 0 && dist > 0 && v <= INT32_MAX && IsTriangle(dist, v, a, d)
    ensures 1 <= TriangleFactor(a, d) && dist * TriangleFactor(a, d) <= UINT64_MAX
    ensures TrianglePeakOf(dist, a, d) == FloorSqrt(dist * TriangleFactor(a, d))
    ensures 1 <= TrianglePeakOf(dist, a, d) <= v
  {
    var k := TriangleFactor(a, d);
    TriangleFactorPositive(a, d);
    TriangleProduct(dist, v, a, d);
    PeakFromFactorInRange(dist, k, v);
  }

  lemma PeakFromFactorInRange(dist: nat, k: nat, v: nat)
    requires dist >= 1 && k >= 1 && v <= INT32_MAX && dist * k <= v * v
    ensures dist * k <= UINT64_MAX
    ensures PeakFromFactor(dist, k) == FloorSqrt(dist * k)
    ensures 1 <= PeakFromFactor(dist, k) <= v
  {
    SquareMono(v, INT32_MAX);
    DivAtLeast(dist, UINT64_MAX, k);
    MulMono(1, k, dist);
    FloorSqrtRange(dist * k, v);
  }

  lemma FloorSqrtRange(n: nat, v: nat)
    requires 1 <= n <= v * v
    ensures 1 <= FloorSqrt(n) <= v
  {
    var r := FloorSqrt(n);
    if r > v { SquareMono(v + 1, r); }
  }

  /** The peak speed db_trajectory_init_position settles on for a move of `dist`. */
  function PlannedPeak(dist: nat, v: nat, a: nat, d: nat): (peak: nat)
    requires a > 0 && d > 0 && dist > 0 && 0 < v <= INT32_MAX
    ensures 1 <= peak <= v
  {
    if IsTriangle(dist, v, a, d) then
      TrianglePeakInRange(dist, v, a, d);
      TrianglePeakOf(dist, a, d)
    else v
  }

  /** The cruise time that covers what the two ramps leave over. */
  function PlannedCruise(dist: nat, v: nat, a: nat, d: nat): nat
    requires a > 0 && d > 0 && v > 0
  {
    if IsTriangle(dist, v, a, d) then 0
    else (dist - RampDistance(v, a) - RampDistance(v, d)) * US_PER_S / v
  }

  /**
   The profile with the given peak and cruise time: ramp times and the two
   stored segment positions follow from them (lines 205-217 and 580-591).
   */
  function Shape(t0: nat, x0: int, x1: int, direction: int, v: nat, a: nat, d: nat, cruiseDt: nat): Profile {
    var ta := DtToReach(v, a);
    var td := DtToReach(v, d);
    var xa := DxFromA(a, ta);
    Profile(t0, x0, x1, v, a, d, direction, false, ta, cruiseDt, td, ta + cruiseDt + td,
            x0 + direction * xa, x0 + direction * (xa + DxFromV(v, cruiseDt)))
  }

  function EffectiveAccel(accel: int): nat {
    if accel > 0 then accel else 1
  }

  function EffectiveDecel(accel: int, decel: int): nat {
    if decel > 0 then decel else EffectiveAccel(accel)
  }

  /** db_trajectory_init_position. */
  function Plan(t0: nat, x0: int, x1: int, v: int32, accel: int32, decel: int32): Profile {
    var a := EffectiveAccel(accel);
    var d := EffectiveDecel(accel, decel);
    if x1 == x0 || v <= 0 then
      Profile(t0, x0, x1, 0, a, d, 0, false, 0, 0, 0, 0, x0, x0)
    else
      var dist := Abs(x1 - x0);
      Shape(t0, x0, x1, Sign(x1 - x0), PlannedPeak(dist, v, a, d), a, d, PlannedCruise(dist, v, a, d))
  }

  // ----- infinite moves

  /** db_trajectory_init_forever. */
  function PlanForever(t0: nat, x0: int, v: int, accel: int32): Profile {
    var a := EffectiveAccel(accel);
    Ramp(t0, x0, x0, v, a, 0, 0, 0)
  }

  /** An infinite profile that ramps from rest at (t0, x0) to the signed speed v. */
  function Ramp(t0: nat, x0: int, x1: int, v: int, a: nat, cruiseDt: nat, decelDt: nat, totalDt: nat): Profile {
    var ta := DtToReach(Abs(v), a);
    var xe := x0 + Sign(v) * DxFromA(a, ta);
    Profile(t0, x0, x1, Abs(v), a, a, Sign(v), true, ta, cruiseDt, decelDt, totalDt, xe, xe)
  }

  /**
   How far before `now` a retarget anchors its ramp so that the ramp passes
   through the current reference speed at `now` (lines 274-303).
   */
  function AnchorBack(r: Ref, v: int, a: nat): nat {
    var vIn := r.v * Sign(v);
    if v == 0 then 0
    else if vIn >= Abs(v) then DtToReach(Abs(v), a)
    else if vIn > 0 then DtToReach(vIn, a)
    else 0
  }

  /** db_trajectory_retarget_forever; the uint64 subtraction wraps as in C. */
  function Retarget(p: Profile, now: nat, v: int, accel: int32): Profile {
    if !p.infinite then p
    else
      var a := EffectiveAccel(accel);
      var r := Sample(p, now);
      var back := AnchorBack(r, v, a);
      Ramp(Sub64(now, back), r.x - Sign(v) * DxFromA(a, back),
           p.x1, v, a, p.cruiseDt, p.decelDt, p.totalDt)
  }

  // ----- stretching a finite move

  datatype Rc = Ok | EInval | ERange

  /** stretch_total_dt: the duration a peak speed v would give. */
  function TotalDt(v: nat, a: nat, d: nat, dist: nat): nat
    requires v > 0
  {
    var ta := DtToReach(v, a);
    var td := DtToReach(v, d);
    var ramps := DxFromA(a, ta) + DxFromA(d, td);
    if ramps >= dist then ta + td
    else ta + (dist - ramps) * US_PER_S / v + td
  }

  /** Distance of the duration at peak v from the target. */
  function StretchErr(v: nat, a: nat, d: nat, dist: nat, target: nat): nat
    requires v > 0
  {
    Abs(TotalDt(v, a, d, dist) - target)
  }

  /** A candidate peak and its error; the search starts with error UINT64_MAX. */
  datatype Best = Best(v: nat, err: nat)

  function Improve(b: Best, v: nat, err: nat): Best {
    if err < b.err then Best(v, err) else b
  }

  /** The bisection of lines 505-523. */
  function Bisect(lo: nat, hi: nat, b: Best, a: nat, d: nat, dist: nat, target: nat): (r: Best)
    requires 1 <= lo && 1 <= hi && 1 <= b.v
    ensures 1 <= r.v && (r.v == b.v || r.v < hi)
    decreases hi - lo
  {
    if lo + 1 < hi then
      var mid := (lo + hi) / 2;
      var b' := Improve(b, mid, StretchErr(mid, a, d, dist, target));
      if TotalDt(mid, a, d, dist) > target then Bisect(mid, hi, b', a, d, dist, target)
      else Bisect(lo, mid, b', a, d, dist, target)
    else b
  }

  /** The neighbourhood probe of lines 539-546. */
  function Probe(v: nat, last: nat, b: Best, a: nat, d: nat, dist: nat, target: nat): (r: Best)
    requires 1 <= v && 1 <= b.v
    ensures 1 <= r.v && (r.v == b.v || v <= r.v <= last)
    decreases last + 1 - v
  {
    if v <= last then
      Probe(v + 1, last, Improve(b, v, StretchErr(v, a, d, dist, target)), a, d, dist, target)
    else b
  }

  /** First and last peak probed around the bisection's candidate. */
  function ProbeFirst(best: nat): nat {
    if best > 32 then best - 32 else 1
  }

  function ProbeLast(best: nat, vPeak: nat): nat {
    if best < vPeak - 32 then best + 32 else vPeak
  }

  /** The peak speed the search settles on. */
  function StretchPeak(p: Profile, target: nat): (v: nat)
    requires p.vPeak >= 1
    ensures 1 <= v <= p.vPeak
  {
    var dist := Abs(p.x1 - p.x0);
    var b := Bisect(1, p.vPeak, Best(1, UINT64_MAX), p.accel, p.decel, dist, target);
    Probe(ProbeFirst(b.v), ProbeLast(b.v, p.vPeak), b, p.accel, p.decel, dist, target).v
  }

  /** The candidate profile committed before the residual gate. */
  function StretchCandidate(p: Profile, target: nat): Profile
    requires p.vPeak >= 1
  {
    var v := StretchPeak(p, target);
    var ramps := DtToReach(v, p.accel) + DtToReach(v, p.decel);
    Shape(p.t0, p.x0, p.x1, p.direction, v, p.accel, p.decel, if ramps < target then target - ramps else 0)
  }

  /** The tests of lines 477-489 other than the null pointer. */
  predicate Stretchable(p: Profile, target: nat) {
    !p.infinite && p.direction != 0 && p.totalDt != 0 && target > p.totalDt &&
    p.direction * (p.x1 - p.x0) > 0 && p.accel > 0 && p.decel > 0
  }

  predicate RampsFit(p: Profile, target: nat)
    requires p.vPeak >= 1
  {
    var v := StretchPeak(p, target);
    DtToReach(v, p.accel) + DtToReach(v, p.decel) < target
  }

  /** The residual gate: one sample of the candidate at absolute time target - 1. */
  predicate GatePasses(p: Profile, target: nat)
    requires p.vPeak >= 1 && target > 0
  {
    Abs(Sample(StretchCandidate(p, target), target - 1).x - p.x1) <= 100
  }

  /** db_trajectory_stretch_to_total: return code and resulting profile. */
  function Stretch(p: Profile, target: nat): (Rc, Profile) {
    if !Stretchable(p, target) then (EInval, p)
    else if p.vPeak < 1 then (ERange, p)
    else if !RampsFit(p, target) then (ERange, p)
    else if !GatePasses(p, target) then (ERange, p)
    else (Ok, StretchCandidate(p, target))
  }
}
