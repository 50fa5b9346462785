/**
 Re-aiming an infinite profile in flight.  The position reference is continuous
 at every retarget of a run, so a stream of speed commands never makes it jump.
 */
module Retargeting {
  import opened CArith
  import opened Profiles
  import opened Envelope

  /** The infinite profiles db_trajectory_init_forever and _retarget_forever produce. */
  ghost predicate Forever(p: Profile) {
    p.infinite && p.accel > 0 && -1 <= p.direction <= 1 && (p.direction == 0 <==> p.vPeak == 0) &&
    p.accelDt == DtToReach(p.vPeak, p.accel) && p.xAccelEnd == p.x0 + p.direction * DxFromA(p.accel, p.accelDt)
  }

  lemma PlanForeverIsForever(t0: nat, x0: int, v: int, accel: int32)
    ensures Forever(PlanForever(t0, x0, v, accel))
    ensures Sample(PlanForever(t0, x0, v, accel), t0).x == x0
  {
  }

  /** A ramp to an int32 speed lasts less than 2^64 microseconds. */
  lemma AnchorBackRange(r: Ref, v: int32, a: nat)
    requires a > 0
    ensures AnchorBack(r, v, a) <= DtToReach(Abs(v), a) < UINT64_MOD
  {
    RampTime(Abs(v), a);
    assert DtToReach(Abs(v), a) <= DtToReach(Abs(v), a) * a by { MulMono(1, a, DtToReach(Abs(v), a)); }
    var vIn := r.v * Sign(v);
    if 0 < vIn < Abs(v) { RampTimeMono(vIn, Abs(v), a); }
  }

  /** A ramp anchored `back` microseconds ago has travelled exactly its accel distance by now. */
  lemma RampPassesThrough(t0: nat, x0: int, x1: int, v: int, a: nat, c: nat, e: nat, n: nat, back: nat)
    requires a > 0 && back <= DtToReach(Abs(v), a)
    ensures Sample(Ramp(t0, x0, x1, v, a, c, e, n), t0 + back).x == x0 + Sign(v) * DxFromA(a, back)
  {
  }

  /**
   One retarget: the position reference at the retarget instant is the same
   before and after exactly when the clock has run for at least the part of the
   ramp that is anchored in the past, or that part covers nothing.
   */
  lemma RetargetKeepsPosition(p: Profile, now: uint64, v: int32, accel: int32)
    requires p.infinite
    ensures var back := AnchorBack(Sample(p, now), v, EffectiveAccel(accel));
            Sample(Retarget(p, now, v, accel), now).x == Sample(p, now).x <==>
            now >= back || v == 0 || DxFromA(EffectiveAccel(accel), back) == 0
    ensures Forever(Retarget(p, now, v, accel))
  {
    var a, r := EffectiveAccel(accel), Sample(p, now);
    var back := AnchorBack(r, v, a);
    AnchorBackRange(r, v, a);
    var q := Retarget(p, now, v, accel);
    if now >= back {
      assert Sub64(now, back) == now - back;
      RampPassesThrough(now - back, q.x0, p.x1, v, a, p.cruiseDt, p.decelDt, p.totalDt, back);
    } else {
      assert Sub64(now, back) == now - back + UINT64_MOD;
      assert Sample(q, now).x == r.x - Sign(v) * DxFromA(a, back);
    }
  }

  /**
   The speed reference across one retarget.  Towards a target at or above the
   current speed it changes by at most accel / 10^6 + 1; a lower target in the
   same direction takes effect at once; from the wrong direction the ramp
   restarts at rest.  A zero target, and a clock that has not run for the part of
   the ramp anchored in the past, both drop the speed to zero at once.
   */
  lemma RetargetSpeed(p: Profile, now: uint64, v: int32, accel: int32)
    requires p.infinite
    ensures var a := EffectiveAccel(accel);
            var vIn := Sample(p, now).v * Sign(v);
            var vOut := Sample(Retarget(p, now, v, accel), now).v * Sign(v);
            if v == 0 || now < AnchorBack(Sample(p, now), v, a) then Sample(Retarget(p, now, v, accel), now).v == 0
            else
              (0 <= vIn <= Abs(v) ==> Abs(vOut - vIn) <= a / US_PER_S + 1) &&
              (vIn >= Abs(v) ==> vOut == Abs(v)) &&
              (vIn < 0 ==> 0 <= vOut <= a / US_PER_S)
  {
    var a, r := EffectiveAccel(accel), Sample(p, now);
    var back := AnchorBack(r, v, a);
    AnchorBackRange(r, v, a);
    var q := Retarget(p, now, v, accel);
    if v != 0 && now >= back {
      assert Sub64(now, back) == now - back;
      RampSpeedAt(now - back, q.x0, p.x1, v, a, p.cruiseDt, p.decelDt, p.totalDt, back);
      AnchoredSpeed(r.v * Sign(v), Abs(v), a, back);
    } else if v != 0 {
      assert Sub64(now, back) == now - back + UINT64_MOD > now;
    }
    hide DxFromA;
  }

  lemma RampSpeedAt(t0: nat, x0: int, x1: int, v: int, a: nat, c: nat, e: nat, n: nat, back: nat)
    requires a > 0 && v != 0
    ensures Sample(Ramp(t0, x0, x1, v, a, c, e, n), t0 + back).v * Sign(v) == SpeedAfter(Abs(v), a, back)
  {
    SignedSpeed(Sign(v), VFromA(a, back));
    SignedSpeed(Sign(v), Abs(v));
  }

  /** Speed t microseconds into a ramp from rest to v. */
  function SpeedAfter(v: nat, a: nat, t: nat): nat {
    if t < DtToReach(v, a) then VFromA(a, t) else v
  }

  lemma AnchoredSpeed(vIn: int, v: nat, a: nat, back: nat)
    requires a > 0 && v > 0
    requires back == (if vIn >= v then DtToReach(v, a) else if vIn > 0 then DtToReach(vIn, a) else 0)
    ensures var vOut := SpeedAfter(v, a, back);
            (0 <= vIn <= v ==> Abs(vOut - vIn) <= a / US_PER_S + 1) &&
            (vIn >= v ==> vOut == v) &&
            (vIn < 0 ==> 0 <= vOut <= a / US_PER_S)
  {
    if vIn < v {
      var u := if vIn > 0 then vIn else 0;
      assert back == DtToReach(u, a);
      SpeedRestored(u, v, a);
    }
  }

  /** A ramp anchored so that it has just reached u: the rounded speed is close to u. */
  lemma SpeedRestored(u: nat, v: nat, a: nat)
    requires a > 0 && u < v
    ensures Abs(SpeedAfter(v, a, DtToReach(u, a)) - u) <= a / US_PER_S + 1
    ensures u == 0 ==> SpeedAfter(v, a, 0) <= a / US_PER_S
  {
    RampTime(u, a);
    RampTime(v, a);
    RampTimeMono(u, v, a);
    var t := DtToReach(u, a);
    if t < DtToReach(v, a) {
      RampRestores(u, a, t);
    } else {
      PlateauSpeed(u, v, a, t * a);
    }
  }

  /** Two speeds with the same rounded ramp time differ by at most a / 10^6. */
  lemma PlateauSpeed(u: nat, v: nat, a: nat, ta: nat)
    requires u <= v && ta <= u * US_PER_S && v * US_PER_S < ta + a
    ensures v - u <= a / US_PER_S
  {
  }

  /** Rounding the ramp time down and the speed down again loses at most a / 10^6 + 1. */
  lemma RampRestores(v: nat, a: nat, t: nat)
    requires a > 0 && t * a <= v * US_PER_S < t * a + a
    ensures VFromA(a, t) <= v <= VFromA(a, t) + a / US_PER_S + 1
  {
    assert a * t == t * a;
  }

  // ----- travel between two instants

  /** Distance travelled dt microseconds after the origin of an infinite profile. */
  function ForeverOffset(p: Profile, dt: nat): nat {
    if dt < p.accelDt then DxFromA(p.accel, dt)
    else DxFromA(p.accel, p.accelDt) + DxFromV(p.vPeak, dt - p.accelDt)
  }

  lemma ForeverSample(p: Profile, t: nat)
    requires Forever(p) && p.t0 <= t
    ensures Sample(p, t).x == p.x0 + p.direction * ForeverOffset(p, t - p.t0)
  {
    if p.direction != 0 && t - p.t0 >= p.accelDt {
      assert p.direction * (DxFromA(p.accel, p.accelDt) + DxFromV(p.vPeak, t - p.t0 - p.accelDt))
          == p.direction * DxFromA(p.accel, p.accelDt) + p.direction * DxFromV(p.vPeak, t - p.t0 - p.accelDt);
    }
  }

  /** On the ramp the distance grows no faster than the peak speed. */
  lemma RampTravel(v: nat, a: nat, s: nat, t: nat)
    requires a > 0 && s <= t <= DtToReach(v, a)
    ensures 0 <= a * t * t - a * s * s <= 2 * US_PER_S * (v * (t - s))
  {
    RampSpeed(v, a, t);
    RampSpeed(v, a, s);
    MulMono(0, a * t, t - s);
    MulMono(0, a * s, t - s);
    MulMono(a * t, v * US_PER_S, t - s);
    MulMono(a * s, v * US_PER_S, t - s);
    SquareDifference(a, s, t);
    assert v * US_PER_S * (t - s) == US_PER_S * (v * (t - s));
  }

  lemma SquareDifference(a: nat, s: nat, t: nat)
    requires s <= t
    ensures a * t * t - a * s * s == (a * t) * (t - s) + (a * s) * (t - s)
  {
    assert (a * t) * (t - s) == a * t * t - (a * t) * s;
    assert (a * s) * (t - s) == (a * s) * t - a * s * s;
    assert (a * t) * s == (a * s) * t;
  }

  lemma ForeverTravel(p: Profile, s: nat, t: nat)
    requires Forever(p) && s <= t
    ensures 0 <= ForeverOffset(p, t) - ForeverOffset(p, s)
    ensures (ForeverOffset(p, t) - ForeverOffset(p, s) - 1) * US_PER_S <= p.vPeak * (t - s)
  {
    var ta := p.accelDt;
    if t < ta {
      RampTravel(p.vPeak, p.accel, s, t);
      DxFromAMono(p.accel, s, t);
    } else if s < ta {
      RampTravel(p.vPeak, p.accel, s, ta);
      DxFromAMono(p.accel, s, ta);
      assert p.vPeak * (t - s) == p.vPeak * (ta - s) + p.vPeak * (t - ta);
      assert (DxFromA(p.accel, ta) - DxFromA(p.accel, s) - 1) * (2 * US2_PER_S2) <= 2 * US_PER_S * (p.vPeak * (ta - s));
    } else {
      DxFromVMono(p.vPeak, s - ta, t - ta);
      assert p.vPeak * (t - ta) == p.vPeak * (s - ta) + p.vPeak * (t - s);
    }
  }

  // ----- runs of retargets

  /** One speed command of a stream. */
  datatype Command = Command(now: uint64, v: int32, accel: int32)

  function Run(p: Profile, cmds: seq<Command>): Profile
    decreases |cmds|
  {
    if cmds == [] then p
    else Run(Retarget(p, cmds[0].now, cmds[0].v, cmds[0].accel), cmds[1..])
  }

  /** Commands arrive in time order, each at least one of its own ramps after clock zero. */
  ghost predicate ClockRuns(from: nat, cmds: seq<Command>)
    decreases |cmds|
  {
    cmds != [] ==>
      from <= cmds[0].now && DtToReach(Abs(cmds[0].v), EffectiveAccel(cmds[0].accel)) <= cmds[0].now &&
      ClockRuns(cmds[0].now, cmds[1..])
  }

  ghost predicate SpeedsWithin(cmds: seq<Command>, v: nat) {
    forall c :: c in cmds ==> Abs(c.v) <= v
  }

  /** At every retarget of a run the position reference is exactly the one it replaces. */
  lemma {:induction false} RunKeepsPosition(p: Profile, cmds: seq<Command>, from: nat, k: nat)
    requires Forever(p) && p.t0 <= from && ClockRuns(from, cmds) && k < |cmds|
    ensures Sample(Run(p, cmds[..k + 1]), cmds[k].now).x == Sample(Run(p, cmds[..k]), cmds[k].now).x
    ensures Forever(Run(p, cmds[..k])) && Run(p, cmds[..k]).t0 <= cmds[k].now
    decreases |cmds|
  {
    var q := Retarget(p, cmds[0].now, cmds[0].v, cmds[0].accel);
    AfterRetarget(p, cmds[0]);
    assert cmds[..k + 1][1..] == cmds[1..][..k];
    if k == 0 {
      assert Run(p, cmds[..1]) == q;
    } else {
      assert cmds[..k][1..] == cmds[1..][..k - 1];
      RunKeepsPosition(q, cmds[1..], cmds[0].now, k - 1);
    }
  }

  /** In any run at all, with any clock, each retarget is continuous exactly under the condition for one. */
  lemma {:induction false} RunKeepsPositionExactly(p: Profile, cmds: seq<Command>, k: nat)
    requires p.infinite && k < |cmds|
    ensures var at, c := Run(p, cmds[..k]), cmds[k];
            var back := AnchorBack(Sample(at, c.now), c.v, EffectiveAccel(c.accel));
            Sample(Run(p, cmds[..k + 1]), c.now).x == Sample(at, c.now).x <==>
            c.now >= back || c.v == 0 || DxFromA(EffectiveAccel(c.accel), back) == 0
    decreases k
  {
    var c := cmds[0];
    var q := Retarget(p, c.now, c.v, c.accel);
    RetargetKeepsPosition(p, c.now, c.v, c.accel);
    hide Retarget, Sample, AnchorBack;
    assert cmds[..k + 1][1..] == cmds[1..][..k];
    if k == 0 {
      assert Run(p, cmds[..1]) == q;
    } else {
      assert cmds[..k][1..] == cmds[1..][..k - 1];
      RunKeepsPositionExactly(q, cmds[1..], k - 1);
    }
  }

  lemma AfterRetarget(p: Profile, c: Command)
    requires Forever(p) && DtToReach(Abs(c.v), EffectiveAccel(c.accel)) <= c.now
    ensures var q := Retarget(p, c.now, c.v, c.accel);
            Forever(q) && q.t0 <= c.now && q.vPeak == Abs(c.v) && Sample(q, c.now).x == Sample(p, c.now).x
  {
    RetargetKeepsPosition(p, c.now, c.v, c.accel);
    AnchorBackRange(Sample(p, c.now), c.v, EffectiveAccel(c.accel));
  }

  /**
   Over a whole run of n retargets between two instants the reference travels
   no further than the fastest commanded speed allows, plus one milli-degree
   per profile: retargeting adds no jump of its own.
   */
  lemma {:induction false} RunTravel(p: Profile, cmds: seq<Command>, from: nat, to: nat, v: nat)
    requires Forever(p) && p.t0 <= from <= to && p.vPeak <= v
    requires ClockRuns(from, cmds) && SpeedsWithin(cmds, v)
    requires cmds != [] ==> cmds[|cmds| - 1].now <= to
    ensures (Abs(Sample(Run(p, cmds), to).x - Sample(p, from).x) - |cmds| - 1) * US_PER_S <= v * (to - from)
    decreases |cmds|
  {
    if cmds == [] {
      Travel(p, from, to, v);
    } else {
      var c := cmds[0];
      var q := Retarget(p, c.now, c.v, c.accel);
      AfterRetarget(p, c);
      LastIsLatest(from, cmds);
      Travel(p, from, c.now, v);
      assert c in cmds;
      RunTravel(q, cmds[1..], c.now, to, v);
      Distribute(v, from, c.now, to);
    }
  }

  lemma Distribute(v: int, x: int, y: int, z: int)
    ensures v * (z - x) == v * (z - y) + v * (y - x)
  {
  }

  lemma {:induction false} LastIsLatest(from: nat, cmds: seq<Command>)
    requires cmds != [] && ClockRuns(from, cmds)
    ensures cmds[0].now <= cmds[|cmds| - 1].now
    decreases |cmds|
  {
    if |cmds| > 1 { LastIsLatest(cmds[0].now, cmds[1..]); }
  }

  lemma Travel(p: Profile, from: nat, to: nat, v: nat)
    requires Forever(p) && p.t0 <= from <= to && p.vPeak <= v
    ensures (Abs(Sample(p, to).x - Sample(p, from).x) - 1) * US_PER_S <= v * (to - from)
  {
    ForeverSample(p, from);
    ForeverSample(p, to);
    ForeverTravel(p, from - p.t0, to - p.t0);
    MulMono(p.vPeak, v, to - from);
    AbsSigned(p.direction, ForeverOffset(p, to - p.t0), ForeverOffset(p, from - p.t0));
  }

  lemma AbsSigned(direction: int, x: int, y: int)
    requires -1 <= direction <= 1 && y <= x
    ensures Abs(direction * x - direction * y) <= x - y
  {
  }
}
