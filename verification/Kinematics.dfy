/**
 Position, speed and acceleration of the sampled reference belong together:
 laws on what db_trajectory_get_reference returns, without its formulas.
 */
module Kinematics {
  import opened CArith
  import opened Profiles
  import opened Envelope
  import R = Retargeting

  /** Every profile that moves: planned, stretched or infinite. */
  ghost predicate Moving(p: Profile) {
    if p.infinite then R.Forever(p) && p.direction != 0 else Shaped(p)
  }

  /** The reference dt microseconds after the origin, seen in the direction of motion. */
  function Position(p: Profile, dt: nat): int {
    p.direction * (Sample(p, p.t0 + dt).x - p.x0)
  }

  function Speed(p: Profile, dt: nat): int {
    p.direction * Sample(p, p.t0 + dt).v
  }

  function Acceleration(p: Profile, dt: nat): int {
    p.direction * Sample(p, p.t0 + dt).a
  }

  predicate Accelerating(p: Profile, dt: nat) {
    dt < p.accelDt
  }

  predicate Cruising(p: Profile, dt: nat) {
    p.accelDt <= dt && (p.infinite || dt < p.accelDt + p.cruiseDt)
  }

  predicate Decelerating(p: Profile, dt: nat) {
    !p.infinite && p.accelDt + p.cruiseDt <= dt < p.totalDt
  }

  predicate SameSegment(p: Profile, t: nat, u: nat) {
    t <= u &&
    ((Accelerating(p, t) && Accelerating(p, u)) || (Cruising(p, t) && Cruising(p, u)) || (Decelerating(p, t) && Decelerating(p, u)))
  }

  ghost predicate Reads(p: Profile, dt: nat, y: int, v: int, a: int) {
    Position(p, dt) == y && Speed(p, dt) == v && Acceleration(p, dt) == a
  }

  lemma ReadsAs(p: Profile, dt: nat, y: int, v: int, a: int)
    requires p.direction == 1 || p.direction == -1
    requires var r := SampleAfter(p, dt);
             r.x == p.x0 + p.direction * y && r.v == p.direction * v && r.a == p.direction * a
    ensures Reads(p, dt, y, v, a)
  {
    hide SampleAfter;
  }

  /** The three values in each segment, in the direction of motion. */
  lemma InAccel(p: Profile, dt: nat)
    requires Moving(p) && Accelerating(p, dt)
    ensures Reads(p, dt, DxFromA(p.accel, dt), VFromA(p.accel, dt), p.accel)
  {
    hide DxFromA, DxFromV, VFromA, DecelDx, DtToReach;
    ReadsAs(p, dt, DxFromA(p.accel, dt), VFromA(p.accel, dt), p.accel);
  }

  lemma InCruise(p: Profile, dt: nat)
    requires Moving(p) && Cruising(p, dt)
    ensures Reads(p, dt, DxFromA(p.accel, p.accelDt) + DxFromV(p.vPeak, dt - p.accelDt), p.vPeak, 0)
  {
    hide DxFromA, DxFromV, VFromA, DecelDx, DtToReach;
    var y, z := DxFromA(p.accel, p.accelDt), DxFromV(p.vPeak, dt - p.accelDt);
    assert p.direction * (y + z) == p.direction * y + p.direction * z;
    ReadsAs(p, dt, y + z, p.vPeak, 0);
  }

  lemma InDecel(p: Profile, dt: nat)
    requires Moving(p) && Decelerating(p, dt)
    ensures Reads(p, dt, CruiseEnd(p) + DecelDx(p.vPeak, p.decel, Braked(p, dt)), p.vPeak - VFromA(p.decel, Braked(p, dt)), 0 - p.decel)
  {
    var s := Braked(p, dt);
    RampSpeed(p.vPeak, p.decel, s);
    DecelSample(p, dt, s);
    hide *;
    ReadsAs(p, dt, CruiseEnd(p) + DecelDx(p.vPeak, p.decel, s), p.vPeak - VFromA(p.decel, s), 0 - p.decel);
  }

  /** Microseconds into the decel. */
  function Braked(p: Profile, dt: nat): nat
    requires Decelerating(p, dt)
  {
    dt - (p.accelDt + p.cruiseDt)
  }

  lemma DecelSample(p: Profile, dt: nat, s: nat)
    requires (p.direction == 1 || p.direction == -1) && Decelerating(p, dt) && s == Braked(p, dt)
    requires VFromA(p.decel, s) <= p.vPeak && p.xCruiseEnd == p.x0 + p.direction * CruiseEnd(p)
    ensures p.direction == 1 || p.direction == -1
    ensures var r := SampleAfter(p, dt);
            r.x == p.x0 + p.direction * (CruiseEnd(p) + DecelDx(p.vPeak, p.decel, s)) &&
            r.v == p.direction * (p.vPeak - VFromA(p.decel, s)) && r.a == p.direction * (0 - p.decel)
  {
    hide DxFromA, DxFromV, VFromA, DecelDx, DtToReach, CruiseEnd;
    var y, z := CruiseEnd(p), DecelDx(p.vPeak, p.decel, s);
    assert p.direction * (y + z) == p.direction * y + p.direction * z && p.direction * (0 - p.decel) == -p.direction * p.decel;
  }

  lemma InSegment(p: Profile, dt: nat)
    requires Moving(p)
    ensures Accelerating(p, dt) ==> Reads(p, dt, DxFromA(p.accel, dt), VFromA(p.accel, dt), p.accel)
    ensures Cruising(p, dt) ==> Reads(p, dt, DxFromA(p.accel, p.accelDt) + DxFromV(p.vPeak, dt - p.accelDt), p.vPeak, 0)
    ensures Decelerating(p, dt) ==>
              Reads(p, dt, CruiseEnd(p) + DecelDx(p.vPeak, p.decel, Braked(p, dt)), p.vPeak - VFromA(p.decel, Braked(p, dt)), 0 - p.decel)
  {
    hide Moving, Reads, CruiseEnd, DecelDx, DxFromA, DxFromV, VFromA;
    if Accelerating(p, dt) { InAccel(p, dt); } else if Cruising(p, dt) { InCruise(p, dt); } else if Decelerating(p, dt) { InDecel(p, dt); }
  }

  /** Within a segment the acceleration is constant and the speed is its integral, to within one. */
  lemma SpeedFollowsAcceleration(p: Profile, t: nat, u: nat)
    requires Moving(p) && SameSegment(p, t, u)
    ensures Acceleration(p, u) == Acceleration(p, t)
    ensures Abs((Speed(p, u) - Speed(p, t)) * US_PER_S - Acceleration(p, t) * (u - t)) < US_PER_S
  {
    InSegment(p, t);
    InSegment(p, u);
    hide Moving, Speed, Acceleration, Position, VFromA;
    if Accelerating(p, t) {
      SpeedGap(p.accel, t, u);
    } else if Decelerating(p, t) {
      var c := p.accelDt + p.cruiseDt;
      SpeedGap(p.decel, t - c, u - c);
      NegProduct(p.decel, u - t);
    }
  }

  lemma SpeedGap(a: nat, s: nat, t: nat)
    requires s <= t
    ensures Abs((VFromA(a, t) - VFromA(a, s)) * US_PER_S - a * (t - s)) < US_PER_S
  {
    assert a * t == a * s + a * (t - s);
  }

  function Slower(p: Profile, t: nat, u: nat): int {
    if Speed(p, t) < Speed(p, u) then Speed(p, t) else Speed(p, u)
  }

  function Faster(p: Profile, t: nat, u: nat): int {
    if Speed(p, t) < Speed(p, u) then Speed(p, u) else Speed(p, t)
  }

  /** Within a segment the position moves on at a speed between those of its two ends, up to the floors. */
  lemma PositionFollowsSpeed(p: Profile, t: nat, u: nat)
    requires Moving(p) && SameSegment(p, t, u)
    ensures (Slower(p, t, u) - 1) * (u - t) <= (Position(p, u) - Position(p, t) + 2) * US_PER_S
    ensures (Position(p, u) - Position(p, t) - 2) * US_PER_S <= (Faster(p, t, u) + 1) * (u - t)
  {
    InSegment(p, t);
    InSegment(p, u);
    hide Moving, Speed, Acceleration, Position, VFromA, DxFromA, DxFromV, DecelDx;
    if Accelerating(p, t) {
      RampGap(p.accel, t, u);
    } else if Cruising(p, t) {
      CruiseGap(p.vPeak, t - p.accelDt, u - p.accelDt);
    } else {
      var c := p.accelDt + p.cruiseDt;
      RampGap(p.decel, t - c, u - c);
      CruiseGap(p.vPeak, t - c, u - c);
      DecelGap(p.vPeak, p.decel, t - c, u - c);
    }
  }

  /** The same for one ramp from rest. */
  lemma RampGap(a: nat, s: nat, t: nat)
    requires s <= t
    ensures VFromA(a, s) <= VFromA(a, t)
    ensures (VFromA(a, s) - 1) * (t - s) <= (DxFromA(a, t) - DxFromA(a, s) + 2) * US_PER_S
    ensures (DxFromA(a, t) - DxFromA(a, s) - 2) * US_PER_S <= (VFromA(a, t) + 1) * (t - s)
    ensures VFromA(a, s) * (t - s) <= (DxFromA(a, t) - DxFromA(a, s) + 1) * US_PER_S
    ensures (DxFromA(a, t) - DxFromA(a, s) - 1) * US_PER_S <= (VFromA(a, t) + 1) * (t - s)
  {
    var g, v, w := t - s, VFromA(a, s), VFromA(a, t);
    SpeedFloors(a, s, t);
    AreaGap(a, s, t);
    FloorArea(a, s);
    FloorArea(a, t);
    hide VFromA, DxFromA;
    GapTimes(a * s, a * t, v, w, g);
    assert (v - 1) * g == v * g - g;
  }

  lemma SpeedFloors(a: nat, s: nat, t: nat)
    requires s <= t
    ensures var v, w := VFromA(a, s), VFromA(a, t);
            v <= w && v * US_PER_S <= a * s && a * t <= (w + 1) * US_PER_S
  {
    MulMono(s, t, a);
    FloorDiv(a * s, US_PER_S);
    FloorDiv(a * t, US_PER_S);
    DivAtLeast(VFromA(a, s), a * t, US_PER_S);
  }

  lemma GapTimes(n: nat, m: nat, v: nat, w: nat, g: nat)
    requires v * US_PER_S <= n && m <= (w + 1) * US_PER_S
    ensures v * g * US_PER_S <= n * g && m * g <= (w + 1) * g * US_PER_S
  {
    MulMono(v * US_PER_S, n, g);
    MulMono(m, (w + 1) * US_PER_S, g);
    assert v * US_PER_S * g == v * g * US_PER_S && (w + 1) * US_PER_S * g == (w + 1) * g * US_PER_S;
  }

  lemma FloorArea(a: nat, s: nat)
    ensures DxFromA(a, s) * (2 * US2_PER_S2) <= a * s * s < DxFromA(a, s) * (2 * US2_PER_S2) + 2 * US2_PER_S2
  {
    assert a * s * s >= 0;
    FloorDiv(a * s * s, 2 * US2_PER_S2);
  }

  lemma AreaGap(a: nat, s: nat, t: nat)
    requires s <= t
    ensures 2 * (a * s * (t - s)) <= a * t * t - a * s * s <= 2 * (a * t * (t - s))
  {
    R.SquareDifference(a, s, t);
    MulMono(s, t, a);
    MulMono(a * s, a * t, t - s);
  }

  lemma CruiseGap(v: nat, s: nat, t: nat)
    requires s <= t
    ensures v * (t - s) <= (DxFromV(v, t) - DxFromV(v, s) + 1) * US_PER_S
    ensures (DxFromV(v, t) - DxFromV(v, s) - 1) * US_PER_S <= v * (t - s)
    ensures (v - 1) * (t - s) <= v * (t - s) <= (v + 1) * (t - s)
  {
    assert v * t == v * s + v * (t - s);
  }

  lemma DecelGap(v: nat, d: nat, s: nat, t: nat)
    requires s <= t
    ensures (v - VFromA(d, t) - 1) * (t - s) <= (DecelDx(v, d, t) - DecelDx(v, d, s) + 2) * US_PER_S
    ensures (DecelDx(v, d, t) - DecelDx(v, d, s) - 2) * US_PER_S <= (v - VFromA(d, s) + 1) * (t - s)
  {
    RampGap(d, s, t);
    CruiseGap(v, s, t);
    hide VFromA, DxFromA, DxFromV;
    var g := t - s;
    assert (v - VFromA(d, t) - 1) * g == v * g - (VFromA(d, t) + 1) * g;
    assert (v - VFromA(d, s) + 1) * g == v * g - VFromA(d, s) * g + g;
  }

  /** The speed at the seams: from rest, at the peak from the end of the ramp to the start of the decel, and back to rest. */
  lemma SpeedAtSeams(p: Profile)
    requires Moving(p)
    ensures Accelerating(p, 0) ==> Speed(p, 0) == 0 && Position(p, 0) == 0
    ensures p.accelDt >= 1 ==> 0 <= p.vPeak - Speed(p, p.accelDt - 1) <= 2 * p.accel / US_PER_S + 1
    ensures forall dt :: Cruising(p, dt) ==> Speed(p, dt) == p.vPeak
    ensures Decelerating(p, p.accelDt + p.cruiseDt) ==> Speed(p, p.accelDt + p.cruiseDt) == p.vPeak
    ensures !p.infinite && p.decelDt >= 1 ==> 0 <= Speed(p, p.totalDt - 1) <= 2 * p.decel / US_PER_S + 1
  {
    if Accelerating(p, 0) {
      InSegment(p, 0);
      AtRest(p.accel, p.vPeak);
    }
    if p.accelDt >= 1 {
      InSegment(p, p.accelDt - 1);
      LastSpeed(p.vPeak, p.accel);
    }
    forall dt | Cruising(p, dt) ensures Speed(p, dt) == p.vPeak { InSegment(p, dt); }
    var c := p.accelDt + p.cruiseDt;
    if Decelerating(p, c) {
      InSegment(p, c);
      AtRest(p.decel, p.vPeak);
    }
    if !p.infinite && p.decelDt >= 1 {
      InSegment(p, p.totalDt - 1);
      LastSpeed(p.vPeak, p.decel);
    }
  }

  lemma AtRest(a: nat, v: nat)
    ensures VFromA(a, 0) == 0 && DxFromA(a, 0) == 0
  {
  }

  lemma LastSpeed(v: nat, a: nat)
    requires a > 0 && DtToReach(v, a) >= 1
    ensures 0 <= v - VFromA(a, DtToReach(v, a) - 1) <= 2 * a / US_PER_S + 1
  {
    var t := DtToReach(v, a);
    RampTime(v, a);
    RampSpeed(v, a, t - 1);
    assert a * (t - 1) == a * t - a && t * a == a * t;
    hide DtToReach;
  }

  /** The position is continuous at the end of the ramp: it moves on no further than the peak allows. */
  lemma PositionAtRampEnd(p: Profile)
    requires Moving(p) && p.accelDt >= 1 && (Cruising(p, p.accelDt) || Decelerating(p, p.accelDt))
    ensures Abs(Position(p, p.accelDt) - Position(p, p.accelDt - 1)) * US_PER_S <= p.vPeak + 2 * US_PER_S
  {
    RampEnd(p.vPeak, p.accel);
    assert DxFromV(p.vPeak, 0) == 0 && DecelDx(p.vPeak, p.decel, 0) == 0;
    hide Position, DxFromA, DxFromV, DecelDx, DtToReach, VFromA, Moving;
    InSegment(p, p.accelDt);
    InSegment(p, p.accelDt - 1);
  }

  /** And at the start of the decel. */
  lemma PositionAtDecel(p: Profile)
    requires Moving(p) && p.cruiseDt >= 1 && Decelerating(p, p.accelDt + p.cruiseDt)
    ensures var c := p.accelDt + p.cruiseDt;
            Abs(Position(p, c) - Position(p, c - 1)) * US_PER_S <= p.vPeak + 2 * US_PER_S
  {
    var c := p.accelDt + p.cruiseDt;
    assert DecelDx(p.vPeak, p.decel, 0) == 0;
    CruiseGap(p.vPeak, p.cruiseDt - 1, p.cruiseDt);
    DxFromVMono(p.vPeak, p.cruiseDt - 1, p.cruiseDt);
    hide Position, DxFromA, DxFromV, DecelDx, DtToReach, VFromA, Moving;
    InSegment(p, c);
    InSegment(p, c - 1);
  }

  lemma RampEnd(v: nat, a: nat)
    requires a > 0 && DtToReach(v, a) >= 1
    ensures var t := DtToReach(v, a);
            0 <= DxFromA(a, t) - DxFromA(a, t - 1) && (DxFromA(a, t) - DxFromA(a, t - 1) - 1) * US_PER_S <= v + 1
  {
    var t := DtToReach(v, a);
    RampGap(a, t - 1, t);
    RampSpeed(v, a, t);
    DxFromAMono(a, t - 1, t);
    hide DtToReach, DxFromA, VFromA;
  }

  /** Outside its segments the reference rests: at the start before the origin, done at the endpoint after the end. */
  lemma RestsOutside(p: Profile, t: nat)
    requires Moving(p)
    ensures t < p.t0 ==> Sample(p, t) == Ref(p.x0, 0, 0, false)
    ensures !p.infinite && t >= p.t0 + p.totalDt ==> Sample(p, t) == Ref(p.x1, 0, 0, true)
    ensures t >= p.t0 && (p.infinite || t < p.t0 + p.totalDt) ==> !Sample(p, t).done
  {
  }

  /**
   The laws hold of every planned move, with the accelerations asked for; without
   a deceleration it slows down as it sped up, and without either both are one.
   */
  lemma PlannedMoves(t0: nat, x0: int, x1: int, v: int32, accel: int32, decel: int32)
    requires x0 != x1 && v > 0
    ensures var p := Plan(t0, x0, x1, v, accel, decel);
            Moving(p) && (accel > 0 ==> p.accel == accel) && (decel > 0 ==> p.decel == decel)
    ensures decel <= 0 ==> Plan(t0, x0, x1, v, accel, decel) == Plan(t0, x0, x1, v, accel, accel)
    ensures accel <= 0 ==> Plan(t0, x0, x1, v, accel, decel) == Plan(t0, x0, x1, v, 1, decel)
  {
    PlanIsShaped(t0, x0, x1, v, accel, decel);
  }
}
