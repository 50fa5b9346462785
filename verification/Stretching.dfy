/**
 What db_trajectory_stretch_to_total delivers.  Its residual gate samples the
 candidate at absolute time target - 1 instead of t0 + target - 1, so what an
 accepted stretch guarantees depends on the time origin.
 */
module Stretching {
  import opened CArith
  import opened Profiles
  import opened Envelope

  /** A planned or already stretched profile that heads for its endpoint. */
  ghost predicate Stretched(p: Profile) {
    Shaped(p) && p.direction * (p.x1 - p.x0) > 0
  }

  lemma PlannedIsStretched(t0: nat, x0: int, x1: int, v: int32, accel: int32, decel: int32)
    requires x0 != x1 && v > 0
    ensures Stretched(Plan(t0, x0, x1, v, accel, decel))
  {
    PlanIsShaped(t0, x0, x1, v, accel, decel);
  }

  /**
   On success the duration is exactly the target and the sum of its segments,
   the commanded move is untouched and the peak is not larger; on every error
   the profile is the old one.
   */
  lemma StretchKeepsTheMove(p: Profile, target: nat)
    requires Stretched(p)
    ensures var (rc, q) := Stretch(p, target);
            (rc != Ok ==> q == p) &&
            (rc == Ok ==>
               Stretched(q) && q.totalDt == target == q.accelDt + q.cruiseDt + q.decelDt && p.totalDt < target &&
               q.cruiseDt > 0 && q.vPeak <= p.vPeak &&
               q.t0 == p.t0 && q.x0 == p.x0 && q.x1 == p.x1 && q.direction == p.direction &&
               q.accel == p.accel && q.decel == p.decel && !q.infinite)
  {
  }

  /**
   A target that is not longer than the profile, and a profile without duration,
   are invalid; every other refusal is out of range.
   */
  lemma StretchCodesExactly(p: Profile, target: nat)
    requires Stretched(p)
    ensures var rc := Stretch(p, target).0;
            (rc == EInval <==> target <= p.totalDt || p.totalDt == 0) && (rc == ERange ==> 0 < p.totalDt < target)
  {
    hide GatePasses, RampsFit, StretchCandidate;
  }

  /** The chosen peak fits the target at least as well as every peak in the window probed around it. */
  lemma StretchPeakBeatsItsWindow(p: Profile, target: nat, w: nat)
    requires Stretched(p) && Stretch(p, target).0 == Ok
    requires var b := Bisect(1, p.vPeak, Best(1, UINT64_MAX), p.accel, p.decel, Abs(p.x1 - p.x0), target);
             1 <= w <= p.vPeak && b.v - 32 <= w <= b.v + 32
    ensures var dist := Abs(p.x1 - p.x0);
            var err := StretchErr(w, p.accel, p.decel, dist, target);
            err >= StretchErr(Stretch(p, target).1.vPeak, p.accel, p.decel, dist, target) || err >= UINT64_MAX
  {
    var dist := Abs(p.x1 - p.x0);
    var b := Bisect(1, p.vPeak, Best(1, UINT64_MAX), p.accel, p.decel, dist, target);
    BisectErr(1, p.vPeak, Best(1, UINT64_MAX), p.accel, p.decel, dist, target);
    ProbeBeats(ProbeFirst(b.v), ProbeLast(b.v, p.vPeak), b, p.accel, p.decel, dist, target, w);
  }

  /** A candidate's recorded error is its own, unless the search has not looked at anything yet. */
  ghost predicate Recorded(b: Best, a: nat, d: nat, dist: nat, target: nat)
    requires 1 <= b.v
  {
    b.err == StretchErr(b.v, a, d, dist, target) || b.err == UINT64_MAX
  }

  lemma BisectErr(lo: nat, hi: nat, b: Best, a: nat, d: nat, dist: nat, target: nat)
    requires 1 <= lo && 1 <= hi && 1 <= b.v && Recorded(b, a, d, dist, target)
    ensures Recorded(Bisect(lo, hi, b, a, d, dist, target), a, d, dist, target)
    decreases hi - lo
  {
    if lo + 1 < hi {
      var mid := (lo + hi) / 2;
      var b' := Improve(b, mid, StretchErr(mid, a, d, dist, target));
      if TotalDt(mid, a, d, dist) > target { BisectErr(mid, hi, b', a, d, dist, target); }
      else { BisectErr(lo, mid, b', a, d, dist, target); }
    }
  }

  lemma ProbeBeats(v: nat, last: nat, b: Best, a: nat, d: nat, dist: nat, target: nat, w: nat)
    requires 1 <= v && 1 <= b.v && Recorded(b, a, d, dist, target)
    ensures var r := Probe(v, last, b, a, d, dist, target);
            Recorded(r, a, d, dist, target) && r.err <= b.err &&
            (v <= w <= last ==> r.err <= StretchErr(w, a, d, dist, target))
    decreases last + 1 - v
  {
    if v <= last {
      ProbeBeats(v + 1, last, Improve(b, v, StretchErr(v, a, d, dist, target)), a, d, dist, target, w);
    }
  }

  lemma OffsetAndResidual(p: Profile, dt: nat)
    requires Stretched(p)
    ensures Abs(SampleAfter(p, dt).x - p.x1) == Abs(Offset(p, dt) - Abs(p.x1 - p.x0))
  {
    var x := SampleAfter(p, dt).x;
    assert Abs(p.x1 - p.x0) == p.direction * (p.x1 - p.x0);
    assert Offset(p, dt) - p.direction * (p.x1 - p.x0) == p.direction * (x - p.x1);
  }

  /**
   With the time origin at zero the gate sees the last microsecond of the
   profile: an accepted stretch ends within 100 milli-degrees of its endpoint
   and as a whole overshoots by at most 101.
   */
  lemma StretchResidualAtOriginZero(p: Profile, target: nat, t: nat)
    requires Stretched(p) && p.t0 == 0 && Stretch(p, target).0 == Ok
    ensures var q := Stretch(p, target).1;
            Abs(Sample(q, q.t0 + q.totalDt - 1).x - q.x1) <= 100 &&
            0 <= q.direction * (Sample(q, t).x - q.x0) <= Abs(q.x1 - q.x0) + 101
  {
    var q := Stretch(p, target).1;
    StretchKeepsTheMove(p, target);
    AcceptedWithin(q, q.totalDt - 1, t);
  }

  /** A profile within 100 of its endpoint in its last microsecond never overshoots by more than 101. */
  lemma AcceptedWithin(q: Profile, last: nat, t: nat)
    requires Stretched(q) && q.t0 == 0 && q.totalDt == last + 1
    requires Abs(SampleAfter(q, last).x - q.x1) <= 100
    ensures 0 <= q.direction * (Sample(q, t).x - q.x0) <= Abs(q.x1 - q.x0) + 101
  {
    OffsetAndResidual(q, last);
    if t < q.totalDt {
      OffsetBounds(q, t);
      OffsetAlmostMono(q, t, last);
      assert q.direction * (Sample(q, t).x - q.x0) == Offset(q, t);
    } else {
      assert Sample(q, t).x == q.x1;
    }
  }

  /**
   With the origin anywhere before the target an accepted stretch still ends at
   most 101 milli-degrees short: the gate's sample comes earlier, and the
   profile hardly moves backwards.
   */
  lemma StretchUndershoot(p: Profile, target: nat)
    requires Stretched(p) && p.t0 < target && Stretch(p, target).0 == Ok
    ensures var q := Stretch(p, target).1;
            Offset(q, q.totalDt - 1) >= Abs(q.x1 - q.x0) - 101
  {
    var q := Stretch(p, target).1;
    StretchKeepsTheMove(p, target);
    OffsetAndResidual(q, target - 1 - q.t0);
    OffsetAlmostMono(q, target - 1 - q.t0, q.totalDt - 1);
  }

  /**
   The chosen peak is at most the old one, so its ramps fit any target above the
   old duration: the source's -ERANGE for ramps that do not fit is dead code.
   */
  lemma RampsAlwaysFit(p: Profile, target: nat)
    requires Stretched(p) && Stretchable(p, target)
    ensures RampsFit(p, target)
  {
    var v := StretchPeak(p, target);
    RampTimeMono(v, p.vPeak, p.accel);
    RampTimeMono(v, p.vPeak, p.decel);
    hide StretchPeak, DtToReach, DxFromA, DxFromV;
  }

  /**
   With the origin at or after the target the gate looks at the start of the
   move: a stretch is accepted exactly when the whole move is at most 100
   milli-degrees long, and every longer one is rolled back.
   */
  lemma StretchGateAfterTarget(p: Profile, target: nat)
    requires Stretched(p) && Stretchable(p, target) && target <= p.t0
    ensures Stretch(p, target).0 == Ok <==> Abs(p.x1 - p.x0) <= 100
    ensures Abs(p.x1 - p.x0) > 100 ==> Stretch(p, target) == (ERange, p)
  {
    RampsAlwaysFit(p, target);
    hide RampsFit, StretchPeak;
    assert Sample(StretchCandidate(p, target), target - 1).x == p.x0;
  }

  lemma StretchAccepts(p: Profile, target: nat, q: Profile)
    requires Stretchable(p, target) && p.vPeak >= 1 && RampsFit(p, target) && q == StretchCandidate(p, target)
    requires Abs(Sample(q, target - 1).x - p.x1) <= 100
    ensures Stretch(p, target) == (Ok, q)
  {
  }

  const LATE_TARGET: nat := 700_000_000

  /** A 1000 mdeg move planned at 3 mdeg/s whose time origin is 200 s. */
  const LATE_MOVE: Profile :=
    Profile(200_000_000, 0, 1000, 3, 1_000_000, 1_000_000, 1, false, 3, 333_333_333, 3, 333_333_339, 0, 999)

  /** Its stretched form: two ramps of two microseconds around the cruise. */
  const LATE_RESULT: Profile :=
    Profile(200_000_000, 0, 1000, 2, 1_000_000, 1_000_000, 1, false, 2, 699_999_996, 2, 700_000_000, 0, 1399)

  /**
   Between those two ranges the documented residual bound fails: this planned
   move's stretch is accepted and its reference is 399 milli-degrees past the
   endpoint one microsecond before it latches.
   */
  lemma StretchOvershootsUngated() returns (p: Profile, target: nat, q: Profile, v: int32, a: int32)
    ensures p == Plan(200_000_000, 0, 1000, v, a, a) && 0 < p.t0 < target
    ensures Stretch(p, target) == (Ok, q)
    ensures Sample(q, q.t0 + q.totalDt - 1).x - q.x1 == 399
  {
    p, target, q, v, a := LATE_MOVE, LATE_TARGET, LATE_RESULT, 3, 1_000_000;
    LateMovePlanned(v, a);
    LateMoveStretch(p, target, q);
    LateMoveSamples(q, target);
  }

  lemma LateMoveStretch(p: Profile, target: nat, q: Profile)
    requires p == LATE_MOVE && target == LATE_TARGET && q == LATE_RESULT
    ensures Stretch(p, target) == (Ok, q)
  {
    assert RampsFit(p, target) && q == StretchCandidate(p, target) by { LateMoveCandidate(p, target); }
    assert Abs(Sample(q, target - 1).x - p.x1) <= 100 by { LateMoveSamples(q, target); }
    assert Stretchable(p, target);
    StretchAccepts(p, target, q);
  }

  lemma LateMovePlanned(v: int32, a: int32)
    requires v == 3 && a == 1_000_000
    ensures LATE_MOVE == Plan(200_000_000, 0, 1000, v, a, a)
  {
    assert RampDistance(3, 1_000_000) == 0;
    assert DtToReach(3, 1_000_000) == 3;
    assert DxFromA(1_000_000, 3) == 0;
    assert DxFromV(3, 333_333_333) == 999;
  }

  lemma CandidateFromPeak(p: Profile, target: nat, v: nat)
    requires p.vPeak >= 1 && StretchPeak(p, target) == v
    requires DtToReach(v, p.accel) + DtToReach(v, p.decel) < target
    ensures RampsFit(p, target)
    ensures StretchCandidate(p, target) == Shape(p.t0, p.x0, p.x1, p.direction, v, p.accel, p.decel,
                                                 target - DtToReach(v, p.accel) - DtToReach(v, p.decel))
  {
  }

  lemma LateMoveCandidate(p: Profile, target: nat)
    requires p == LATE_MOVE && target == LATE_TARGET
    ensures RampsFit(p, target) && StretchCandidate(p, target) == LATE_RESULT
  {
    LateMoveSearch();
    LateMoveShape(2, p.accel);
    CandidateFromPeak(p, target, 2);
  }

  lemma LateMoveShape(v: nat, a: nat)
    requires v == 2 && a == 1_000_000
    ensures DtToReach(v, a) == 2
    ensures Shape(200_000_000, 0, 1000, 1, v, a, a, 699_999_996) == LATE_RESULT
  {
    assert DxFromA(a, 2) == 0;
    assert DxFromV(v, 699_999_996) == 1399;
  }

  lemma LateMoveSamples(q: Profile, target: nat)
    requires q == LATE_RESULT && target == LATE_TARGET
    ensures Sample(q, target - 1).x == 999
    ensures Sample(q, 899_999_999).x == 1399
  {
    assert DxFromV(2, 499_999_997) == 999;
    assert DecelDx(2, 1_000_000, 1) == 0;
  }

  lemma LateMoveSearch()
    ensures StretchPeak(LATE_MOVE, LATE_TARGET) == 2
  {
    var a, dist := 1_000_000, 1000;
    var b0 := Best(1, UINT64_MAX);
    assert StretchErr(2, a, a, dist, LATE_TARGET) < UINT64_MAX;
    var b := Bisect(1, 3, b0, a, a, dist, LATE_TARGET);
    assert b == Best(2, StretchErr(2, a, a, dist, LATE_TARGET));
    assert StretchErr(1, a, a, dist, LATE_TARGET) > b.err;
    assert StretchErr(3, a, a, dist, LATE_TARGET) > b.err;
    assert Probe(4, 3, b, a, a, dist, LATE_TARGET) == b;
    assert Probe(3, 3, b, a, a, dist, LATE_TARGET) == b;
    assert Probe(2, 3, b, a, a, dist, LATE_TARGET) == b;
  }

  /**
   The header promises a strictly smaller peak.  The peak shrinks exactly when
   the probed window ends below the old peak or holds a lower one that fits the
   target at least as well.
   */
  lemma StretchLowersPeakExactly(p: Profile, target: nat)
    requires Stretched(p) && Stretch(p, target).0 == Ok
    requires StretchErr(p.vPeak, p.accel, p.decel, Abs(p.x1 - p.x0), target) < UINT64_MAX
    ensures var dist := Abs(p.x1 - p.x0);
            var b := Bisect(1, p.vPeak, Best(1, UINT64_MAX), p.accel, p.decel, dist, target).v;
            Stretch(p, target).1.vPeak < p.vPeak <==>
              b + 32 < p.vPeak ||
              exists w :: 1 <= w < p.vPeak && b - 32 <= w &&
                StretchErr(w, p.accel, p.decel, dist, target) <= StretchErr(p.vPeak, p.accel, p.decel, dist, target)
  {
    assert Stretch(p, target).1.vPeak == StretchPeak(p, target);
    hide Stretch, Stretched, Bisect, Probe, TotalDt, StretchErr;
    var dist := Abs(p.x1 - p.x0);
    var b := Bisect(1, p.vPeak, Best(1, UINT64_MAX), p.accel, p.decel, dist, target);
    BisectErr(1, p.vPeak, Best(1, UINT64_MAX), p.accel, p.decel, dist, target);
    if p.vPeak >= 2 && ProbeLast(b.v, p.vPeak) == p.vPeak {
      ProbeChoosesLast(ProbeFirst(b.v), p.vPeak, b, p.accel, p.decel, dist, target);
    }
  }

  /** In particular it shrinks whenever the next lower peak fits the target at least as well as the old one. */
  lemma StretchLowersPeak(p: Profile, target: nat)
    requires Stretched(p) && Stretch(p, target).0 == Ok && p.vPeak >= 2
    requires var dist := Abs(p.x1 - p.x0);
             StretchErr(p.vPeak - 1, p.accel, p.decel, dist, target) <= StretchErr(p.vPeak, p.accel, p.decel, dist, target) < UINT64_MAX
    ensures Stretch(p, target).1.vPeak < p.vPeak
  {
    StretchLowersPeakExactly(p, target);
    hide Stretch, Stretched, StretchErr, Bisect;
  }

  /** The last peak probed is chosen exactly when it beats the bisection's candidate and every earlier one. */
  lemma {:induction false} ProbeChoosesLast(v: nat, last: nat, b: Best, a: nat, d: nat, dist: nat, target: nat)
    requires 1 <= v <= last && 1 <= b.v < last
    ensures Probe(v, last, b, a, d, dist, target).v == last <==>
            StretchErr(last, a, d, dist, target) < b.err &&
            forall w :: v <= w < last ==> StretchErr(last, a, d, dist, target) < StretchErr(w, a, d, dist, target)
    decreases last - v
  {
    var b' := Improve(b, v, StretchErr(v, a, d, dist, target));
    if v < last {
      ProbeChoosesLast(v + 1, last, b', a, d, dist, target);
    } else {
      assert Probe(last + 1, last, b', a, d, dist, target) == b';
    }
  }

  /** A one milli-degree move at 1 mdeg/s, and its stretch by one microsecond. */
  const SLOW_MOVE: Profile :=
    Profile(0, 0, 1, 1, 1, 1, 1, false, 1_000_000, 1_000_000, 1_000_000, 3_000_000, 0, 1)
  const SLOW_RESULT: Profile :=
    Profile(0, 0, 1, 1, 1, 1, 1, false, 1_000_000, 1_000_001, 1_000_000, 3_000_001, 0, 1)

  /** It does not hold in general: this move is stretched by one microsecond and keeps its peak. */
  lemma StretchMayKeepPeak() returns (p: Profile, target: nat, q: Profile, v: int32)
    ensures p == Plan(0, 0, 1, v, v, v) && Stretch(p, target) == (Ok, q) && q.vPeak == p.vPeak
  {
    p, target, q, v := SLOW_MOVE, 3_000_001, SLOW_RESULT, 1;
    SlowMovePlanned(v);
    SlowMoveStretch(p, target, q);
  }

  lemma SlowMoveStretch(p: Profile, target: nat, q: Profile)
    requires p == SLOW_MOVE && target == 3_000_001 && q == SLOW_RESULT
    ensures Stretch(p, target) == (Ok, q)
  {
    SlowMoveCandidate(p, target);
    SlowMoveSample(q, target);
    StretchAccepts(p, target, q);
  }

  lemma SlowMovePlanned(one: int32)
    requires one == 1
    ensures SLOW_MOVE == Plan(0, 0, 1, one, one, one)
  {
    assert RampDistance(one, one) == 0;
    assert DtToReach(one, one) == 1_000_000;
    assert DxFromA(one, 1_000_000) == 0;
    assert DxFromV(one, 1_000_000) == 1;
  }

  lemma PeakOfOne(p: Profile, target: nat)
    requires p.vPeak == 1 && p.accel == 1 && p.decel == 1 && target > 2_000_000
    ensures RampsFit(p, target)
    ensures StretchCandidate(p, target) == Shape(p.t0, p.x0, p.x1, p.direction, 1, 1, 1, target - 2_000_000)
  {
    assert StretchPeak(p, target) == p.vPeak;
    CandidateFromPeak(p, target, p.vPeak);
  }

  lemma SlowMoveCandidate(p: Profile, target: nat)
    requires p == SLOW_MOVE && target == 3_000_001
    ensures RampsFit(p, target) && StretchCandidate(p, target) == SLOW_RESULT
  {
    SlowMoveShape(p.vPeak);
    PeakOfOne(p, target);
  }

  lemma SlowMoveShape(one: nat)
    requires one == 1
    ensures DtToReach(one, one) == 1_000_000
    ensures Shape(0, 0, 1, 1, one, one, one, 1_000_001) == SLOW_RESULT
  {
    assert DxFromA(one, 1_000_000) == 0;
    assert DxFromV(one, 1_000_001) == 1;
  }

  lemma SlowMoveSample(q: Profile, target: nat)
    requires q == SLOW_RESULT && target == 3_000_001
    ensures Sample(q, target - 1).x == 1
  {
    assert DecelDx(1, 1, 999_999) == 0;
  }
}
