/**
 The trajectory object of the daemon: planning, retargeting and stretching
 write the profile's fields in place.  Each method is tied to the profile value
 of module Profiles that it leaves behind.
 */
module Trajectories {
  import opened CArith
  import opened Profiles

  /**
   triangle_peak: a bisection over [0, 2^31) or [0, 2^32) for the integer square
   root, after the guards against a zero factor and an overflowing product.
   */
  method TrianglePeak(dist: uint64, a: int32, d: int32) returns (peak: int32)
    ensures peak == TrianglePeakOf(dist, a, d)
  {
    if a <= 0 || d <= 0 {
      return 0;
    }
    var k := TriangleFactor(a, d);
    if k == 0 {
      return 0;
    }
    if dist > UINT64_MAX / k {
      return INT32_MAX;
    }
    ProductFits(dist, k);
    var r := BisectRoot(dist * k);
    peak := ToInt32(r);
  }

  lemma ProductFits(dist: nat, k: nat)
    requires k > 0 && dist <= UINT64_MAX / k
    ensures dist * k <= UINT64_MAX
  {
    FloorDiv(UINT64_MAX, k);
    MulMono(dist, UINT64_MAX / k, k);
  }

  method BisectRoot(v2: uint64) returns (r: nat)
    ensures r == FloorSqrt(v2)
  {
    var lo: nat, hi: nat := 0, if v2 < 0x8000_0000 then 0x8000_0000 else 0x1_0000_0000;
    r := 0;
    assert v2 < hi * hi;
    while lo + 1 < hi
      invariant r == lo < hi <= 0x1_0000_0000
      invariant lo * lo <= v2 < hi * hi
      decreases hi - lo
    {
      var mid := (lo + hi) / 2;
      if mid * mid <= v2 {
        lo, r := mid, mid;
      } else {
        hi := mid;
      }
    }
    FloorSqrtUnique(v2, r);
  }

  /** Lines 180-204: triangle or trapezoid, its peak speed and its cruise time. */
  method PlanSegments(dist: uint64, v: int32, a: int32, d: int32) returns (peak: nat, cruiseDt: nat)
    requires dist > 0 && v > 0 && a > 0 && d > 0
    ensures peak == PlannedPeak(dist, v, a, d) && cruiseDt == PlannedCruise(dist, v, a, d)
  {
    FloorDiv(v * v, 2 * a);
    FloorDiv(v * v, 2 * d);
    var dAccel := v * v / (2 * a);
    var dDecel := v * v / (2 * d);
    if dAccel + dDecel >= dist {
      TrianglePeakInRange(dist, v, a, d);
      peak := TrianglePeak(dist, a, d);
      cruiseDt := 0;
    } else {
      peak := v;
      FloorDiv((dist - dAccel - dDecel) * US_PER_S, v);
      cruiseDt := (dist - dAccel - dDecel) * US_PER_S / v;
    }
  }

  class Trajectory {
    var t0: nat
    var x0: int
    var x1: int
    var vPeak: nat
    var accel: nat
    var decel: nat
    var direction: int
    var infinite: bool
    var accelDt: nat
    var cruiseDt: nat
    var decelDt: nat
    var totalDt: nat
    var xAccelEnd: int
    var xCruiseEnd: int

    /** The profile these fields hold. */
    function View(): Profile
      reads this
    {
      Profile(t0, x0, x1, vPeak, accel, decel, direction, infinite,
              accelDt, cruiseDt, decelDt, totalDt, xAccelEnd, xCruiseEnd)
    }

    predicate Valid()
      reads this
    {
      -1 <= direction <= 1
    }

    constructor ()
      ensures Valid() && View() == Profile(0, 0, 0, 0, 0, 0, 0, false, 0, 0, 0, 0, 0, 0)
    {
      t0, x0, x1, vPeak, accel, decel, direction, infinite := 0, 0, 0, 0, 0, 0, 0, false;
      accelDt, cruiseDt, decelDt, totalDt, xAccelEnd, xCruiseEnd := 0, 0, 0, 0, 0, 0;
    }

    method InitPosition(t: uint64, from: int64, to: int64, v: int32, accelIn: int32, decelIn: int32)
      requires Abs(to - from) <= INT64_MAX
      modifies this
      ensures Valid() && View() == Plan(t, from, to, v, accelIn, decelIn)
    {
      hide PlannedPeak, PlannedCruise, Shape;
      SetMove(t, from, to, accelIn, decelIn);
      var delta := to - from;
      if delta == 0 || v <= 0 {
        StandStill();
        return;
      }
      direction := Sign(delta);
      var dist := delta * direction;
      SignTimes(delta);
      var peak, cruise := PlanSegments(dist, v, accel, decel);
      SetShape(peak, cruise);
    }

    /** Origin, endpoints and accelerations with their defaults (lines 160-176). */
    method SetMove(t: uint64, from: int64, to: int64, accelIn: int32, decelIn: int32)
      modifies this
      ensures t0 == t && x0 == from && x1 == to && !infinite
      ensures accel == EffectiveAccel(accelIn) && decel == EffectiveDecel(accelIn, decelIn)
    {
      t0, x0, x1, infinite := t, from, to, false;
      accel := if accelIn > 0 then accelIn else 1;
      decel := if decelIn > 0 then decelIn else accel;
    }

    /** A move that does not move. */
    method StandStill()
      modifies this
      ensures View() == Profile(old(t0), old(x0), old(x1), 0, old(accel), old(decel), 0, old(infinite), 0, 0, 0, 0, old(x0), old(x0))
    {
      vPeak, direction := 0, 0;
      accelDt, cruiseDt, decelDt, totalDt := 0, 0, 0, 0;
      xAccelEnd, xCruiseEnd := x0, x0;
    }

    /** Ramp times and segment positions from the peak and the cruise time (lines 205-217, 580-591). */
    method SetShape(peak: nat, cruise: nat)
      requires Valid() && !infinite
      modifies this
      ensures Valid() && View() == Shape(old(t0), old(x0), old(x1), old(direction), peak, old(accel), old(decel), cruise)
    {
      vPeak := peak;
      accelDt := DtToReach(peak, accel);
      cruiseDt := cruise;
      decelDt := DtToReach(peak, decel);
      totalDt := accelDt + cruiseDt + decelDt;
      var xOffAccel := DxFromA(accel, accelDt);
      var xOffCruise := xOffAccel + DxFromV(peak, cruise);
      xAccelEnd := x0 + direction * xOffAccel;
      xCruiseEnd := x0 + direction * xOffCruise;
    }

    /** The source negates the target speed, so INT32_MIN is outside its domain. */
    method InitForever(t: uint64, from: int64, v: int32, accelIn: int32)
      requires v > INT32_MIN
      modifies this
      ensures Valid() && View() == PlanForever(t, from, v, accelIn)
    {
      x1, infinite := from, true;
      cruiseDt, decelDt, totalDt := 0, 0, 0;
      SetRamp(t, from, v, if accelIn > 0 then accelIn else 1);
    }

    /** A ramp from rest at (newT0, newX0) to the signed speed v (lines 226-244, 305-314). */
    method SetRamp(newT0: nat, newX0: int, v: int32, a: nat)
      requires infinite
      modifies this
      ensures Valid()
      ensures View() == Ramp(newT0, newX0, old(x1), v, a, old(cruiseDt), old(decelDt), old(totalDt))
    {
      t0, x0 := newT0, newX0;
      accel, decel := a, a;
      vPeak, direction, accelDt := Abs(v), Sign(v), DtToReach(Abs(v), a);
      xAccelEnd := newX0 + Sign(v) * DxFromA(a, accelDt);
      xCruiseEnd := xAccelEnd;
    }

    method RetargetForever(now: uint64, v: int32, accelIn: int32)
      requires v > INT32_MIN
      requires Valid()
      modifies this
      ensures Valid() && View() == Retarget(old(View()), now, v, accelIn)
    {
      if !infinite {
        return;
      }
      var r := Sample(View(), now);
      var newAccel: nat := if accelIn > 0 then accelIn else 1;
      var newT0, newX0 := Anchor(r, now, v, newAccel);
      SetRamp(newT0, newX0, v, newAccel);
    }

    /** Where to put the origin so that the new ramp passes through the current reference (lines 271-303). */
    static method Anchor(r: Ref, now: uint64, v: int32, a: nat) returns (newT0: nat, newX0: int)
      requires a > 0
      ensures newT0 == Sub64(now, AnchorBack(r, v, a))
      ensures newX0 == r.x - Sign(v) * DxFromA(a, AnchorBack(r, v, a))
    {
      newT0, newX0 := now, r.x;
      if v != 0 {
        var vIn := r.v * Sign(v);
        if vIn >= Abs(v) {
          var dtRamp := DtToReach(Abs(v), a);
          newT0 := Sub64(now, dtRamp);
          newX0 := r.x - Sign(v) * DxFromA(a, dtRamp);
          return;
        } else if vIn > 0 {
          var dtInto := DtToReach(vIn, a);
          newT0 := Sub64(now, dtInto);
          newX0 := r.x - Sign(v) * DxFromA(a, dtInto);
          return;
        }
      }
      assert AnchorBack(r, v, a) == 0 && DxFromA(a, 0) == 0;
    }

    /** Writes the candidate into the live fields, samples it, and rolls back when the gate trips. */
    method StretchToTotal(target: uint64) returns (rc: Rc)
      requires Valid()
      modifies this
      ensures Valid() && (rc, View()) == Stretch(old(View()), target)
    {
      if infinite || direction == 0 || totalDt == 0 || target <= totalDt {
        return EInval;
      }
      var dist := direction * (x1 - x0);
      if dist <= 0 || accel <= 0 || decel <= 0 {
        return EInval;
      }
      if vPeak < 1 {
        return ERange;
      }
      ghost var p := View();
      DistanceIsAbs(direction, x1 - x0, dist);
      var v := SearchPeak(vPeak, accel, decel, dist, target);
      assert v == StretchPeak(p, target);
      var ta, td := DtToReach(v, accel), DtToReach(v, decel);
      if ta + td >= target {
        return ERange;
      }
      rc := CommitOrRollBack(v, target);
    }

    /** Commits the candidate, samples it at absolute time target - 1 and restores the fields if it misses. */
    method CommitOrRollBack(v: nat, target: uint64) returns (rc: Rc)
      requires Valid() && !infinite && DtToReach(v, accel) + DtToReach(v, decel) < target
      modifies this
      ensures Valid()
      ensures var p := old(View());
              var q := Shape(p.t0, p.x0, p.x1, p.direction, v, p.accel, p.decel,
                             target - DtToReach(v, p.accel) - DtToReach(v, p.decel));
              if Abs(Sample(q, target - 1).x - p.x1) <= 100 then rc == Ok && View() == q
              else rc == ERange && View() == p
    {
      var origPeak, origAccelDt, origCruiseDt, origDecelDt, origTotalDt := vPeak, accelDt, cruiseDt, decelDt, totalDt;
      var origAccelEnd, origCruiseEnd := xAccelEnd, xCruiseEnd;
      SetShape(v, target - DtToReach(v, accel) - DtToReach(v, decel));
      var residual := Sample(View(), target - 1).x - x1;
      if residual < 0 {
        residual := -residual;
      }
      if residual > 100 {
        vPeak, accelDt, cruiseDt, decelDt, totalDt := origPeak, origAccelDt, origCruiseDt, origDecelDt, origTotalDt;
        xAccelEnd, xCruiseEnd := origAccelEnd, origCruiseEnd;
        return ERange;
      }
      return Ok;
    }
  }

  /** The search of lines 498-546: bisection, then a probe of the neighbourhood. */
  method SearchPeak(vPeak: nat, a: nat, d: nat, dist: nat, target: nat) returns (v: nat)
    requires vPeak >= 1
    ensures var b := Bisect(1, vPeak, Best(1, UINT64_MAX), a, d, dist, target);
            v == Probe(ProbeFirst(b.v), ProbeLast(b.v, vPeak), b, a, d, dist, target).v
  {
    var lo, hi := 1, vPeak;
    var best, bestErr: nat := 1, UINT64_MAX;
    while lo + 1 < hi
      invariant 1 <= lo <= hi && 1 <= best
      invariant Bisect(lo, hi, Best(best, bestErr), a, d, dist, target)
             == Bisect(1, vPeak, Best(1, UINT64_MAX), a, d, dist, target)
      decreases hi - lo
    {
      var mid := (lo + hi) / 2;
      var total := TotalDt(mid, a, d, dist);
      var err := if total >= target then total - target else target - total;
      assert err == StretchErr(mid, a, d, dist, target);
      if err < bestErr {
        bestErr, best := err, mid;
      }
      if total > target {
        lo := mid;
      } else {
        hi := mid;
      }
    }
    v := ProbePeak(best, bestErr, vPeak, a, d, dist, target);
  }

  method ProbePeak(start: nat, startErr: nat, vPeak: nat, a: nat, d: nat, dist: nat, target: nat) returns (best: nat)
    requires vPeak >= 1 && start >= 1
    ensures best == Probe(ProbeFirst(start), ProbeLast(start, vPeak), Best(start, startErr), a, d, dist, target).v
  {
    var bestErr: nat := startErr;
    best := start;
    var probe: nat := if start > 32 then start - 32 else 1;
    var last: nat := if start < vPeak - 32 then start + 32 else vPeak;
    while probe <= last
      invariant 1 <= probe && 1 <= best
      invariant Probe(probe, last, Best(best, bestErr), a, d, dist, target)
             == Probe(ProbeFirst(start), last, Best(start, startErr), a, d, dist, target)
      decreases last + 1 - probe
    {
      var total := TotalDt(probe, a, d, dist);
      var err := if total >= target then total - target else target - total;
      assert err == StretchErr(probe, a, d, dist, target);
      if err < bestErr {
        bestErr, best := err, probe;
      }
      probe := probe + 1;
    }
  }

  lemma SignTimes(x: int)
    ensures x * Sign(x) == Abs(x)
  {
  }

  lemma DistanceIsAbs(direction: int, delta: int, dist: int)
    requires dist == direction * delta
    ensures (direction == 1 || direction == -1) && dist > 0 ==> dist == Abs(delta)
  {
  }
}
