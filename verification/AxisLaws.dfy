/**
 What one aggregate axis does with its reference: what it asks of the motors,
 when it pauses its clock, where its moves start and end.
 */
module AxisLaws {
  import opened CArith
  import opened Profiles
  import opened Aggregate
  import Clock
  import R = Retargeting
  import D = DriveBase
  import P = PidControl
  import L = PidLaws

  // ----- the demand

  /** The reference of an active axis. */
  function At(a: Axis, now: nat): Ref {
    Sample(a.traj, RefTime(a, now))
  }

  /** The demanded duty of a tick, before saturation. */
  function Demand(a: Axis, cfg: Settings, now: nat, x: int, v: int, dtMs: uint32): int {
    P.Unsaturated(a.pid, TickInput(a, cfg, now, x, v, dtMs))
  }

  /** The textbook demand of a tick: PID on the two errors and the feed-forward of reference speed and acceleration. */
  ghost function Textbook(a: Axis, cfg: Settings, now: nat, x: int, v: int, dtMs: uint32): real {
    var r, g := At(a, now), cfg.gains;
    var e := Clamp(r.x - x, INT32_MIN, INT32_MAX);
    var dt := if dtMs != 0 then dtMs else cfg.tickMs;
    (g.kpPos * e) as real / 1000.0 +
    (if dt > 0 then (g.kdPos * (e - a.pid.prevPosErr)) as real / dt as real else 0.0) +
    (g.kpSpeed * (r.v - v)) as real / 1000.0 + a.pid.iAcc as real / 256.0 +
    (if cfg.ff.AxisGains? then (cfg.ff.kV * r.v) as real / 1000.0 + (cfg.ff.kA * r.a) as real / 1000.0 else 0.0)
  }

  function Slack(cfg: Settings): nat {
    if cfg.ff.AxisGains? then 4 + Abs(cfg.ff.kV) + Abs(cfg.ff.kA) else 4
  }

  /** The demand is the textbook one, up to the truncated quotients. */
  lemma DemandNearTextbook(a: Axis, cfg: Settings, now: nat, x: int, v: int, dtMs: uint32)
    requires a.active
    ensures -(Slack(cfg) as real) <= Demand(a, cfg, now, x, v, dtMs) as real - Textbook(a, cfg, now, x, v, dtMs) <= Slack(cfg) as real
  {
    var r, i := At(a, now), TickInput(a, cfg, now, x, v, dtMs);
    L.DemandNearIdeal(a.pid, i);
    hide P.Unsaturated, Sample;
    if cfg.ff.AxisGains? {
      FeedForwardNear(cfg.ff.kV, r.v);
      FeedForwardNear(cfg.ff.kA, r.a);
    }
    hide TruncDiv;
  }

  lemma FeedForwardNear(k: int, v: int)
    ensures -(Abs(k) as real) <= (k * TruncDiv(v, 1000)) as real - (k * v) as real / 1000.0 <= Abs(k) as real
  {
    TruncDivRemainder(v, 1000);
    hide TruncDiv;
    Thousandths(k, TruncDiv(v, 1000), v);
  }

  lemma Thousandths(k: int, q: int, v: int)
    requires Abs(v - q * 1000) < 1000
    ensures -(Abs(k) as real) <= (k * q) as real - (k * v) as real / 1000.0 <= Abs(k) as real
  {
    SmallTimes(k, q * 1000 - v);
    assert k * (q * 1000 - v) == 1000 * (k * q) - k * v;
    ThousandthGap(k * q, k * v, Abs(k));
  }

  lemma SmallTimes(k: int, g: int)
    requires Abs(g) < 1000
    ensures Abs(k * g) <= 1000 * Abs(k)
  {
    if k >= 0 {
      MulMono(g, 1000, k);
      MulMono(-1000, g, k);
    } else {
      MulMono(g, 1000, -k);
      MulMono(-1000, g, -k);
      NegProduct(k, g);
    }
  }

  lemma ThousandthGap(p: int, w: int, m: nat)
    requires Abs(1000 * p - w) <= 1000 * m
    ensures -(m as real) <= p as real - w as real / 1000.0 <= m as real
  {
  }

  /** What a tick of an active axis reports besides duty and actuation. */
  lemma AxisReports(a: Axis, cfg: Settings, now: nat, x: int, v: int, dtMs: uint32)
    requires a.active
    ensures var r, out := At(a, now), Update(a, cfg, now, x, v, dtMs).1;
            out.refV == r.v && out.trajectoryDone == r.done && out.posErr == Clamp(r.x - x, INT32_MIN, INT32_MAX)
  {
    hide P.Step;
  }

  /** An axis that was never commanded, or was reset, reports a coasting motor and takes no part. */
  lemma IdleAxisReports(a: Axis, cfg: Settings, now: nat, x: int, v: int, dtMs: uint32)
    requires !a.active && !a.pid.latched
    ensures var (n, out) := Update(a, cfg, now, x, v, dtMs);
            n.pid == a.pid && !n.active && !n.paused &&
            out.duty == 0 && out.actuation == P.COAST && out.refV == 0 && out.posErr == 0 && out.trajectoryDone
  {
  }

  // ----- the pause

  /**
   A tick of an active axis leaves its clock paused exactly when the controller
   has not let go, the demand is beyond the limit on the side the reference lies,
   the axis is not catching up on it and the reference is not slowing down there.
   */
  lemma PausedExactly(a: Axis, cfg: Settings, now: nat, x: int, v: int, dtMs: uint32)
    requires a.active
    ensures var r, n := At(a, now), Update(a, cfg, now, x, v, dtMs).0;
            var demand := Demand(a, cfg, now, x, v, dtMs);
            n.paused <==>
              !n.pid.latched &&
              ((r.x > x && demand > cfg.gains.outMax && r.v >= v && r.a >= 0) ||
               (r.x < x && demand < cfg.gains.outMin && r.v <= v && r.a <= 0))
  {
    var i := TickInput(a, cfg, now, x, v, dtMs);
    L.StepIntegral(a.pid, i);
    assert i.gains == cfg.gains;
    if a.pid.latched { assert P.Step(a.pid, i).0 == a.pid; }
    hide P.Step, P.Unsaturated, Sample, TickInput;
  }

  /** On the side s of the axis, up or down. */
  predicate Beyond(demand: int, g: P.Gains, s: int) {
    if s == 1 then demand > g.outMax else demand < g.outMin
  }

  /**
   The axis is held at (x, v) behind a reference that moves on, on side s, and
   what position, speed, integral and feed-forward ask for is beyond the limit
   even without the derivative, which does not pull back.
   */
  ghost predicate Blocked(a: Axis, cfg: Settings, now: nat, x: int, v: int, s: int) {
    (s == 1 || s == -1) && a.active && !a.pid.latched && cfg.gains.kdPos >= 0 &&
    var r := At(a, now);
    var e := Clamp(r.x - x, INT32_MIN, INT32_MAX);
    !r.done && s * (r.x - x) > 0 && s * (r.v - v) >= 0 && s * r.a >= 0 && s * (e - a.pid.prevPosErr) >= 0 &&
    Beyond(P.Unsaturated(a.pid.(prevPosErr := e), TickInput(a, cfg, now, x, v, 1)), cfg.gains, s)
  }

  /** The demand of a blocked axis is beyond the limit whatever the tick length. */
  lemma BlockedDemand(a: Axis, cfg: Settings, now: nat, x: int, v: int, s: int, dtMs: uint32)
    requires Blocked(a, cfg, now, x, v, s)
    ensures Beyond(Demand(a, cfg, now, x, v, dtMs), cfg.gains, s)
  {
    var e := Clamp(At(a, now).x - x, INT32_MIN, INT32_MAX);
    var i, j := TickInput(a, cfg, now, x, v, dtMs), TickInput(a, cfg, now, x, v, 1);
    assert P.PosErr(i) == e == P.PosErr(j);
    var d := e - a.pid.prevPosErr;
    if i.dtMs > 0 { DerivativeSign(cfg.gains.kdPos, d, i.dtMs, s); }
    assert TruncDiv(cfg.gains.kdPos * (e - e), 1) == 0;
    hide TruncDiv, Sample, Clamp;
  }

  lemma DerivativeSign(kd: int, d: int, dt: nat, s: int)
    requires kd >= 0 && dt > 0 && (s == 1 || s == -1) && s * d >= 0
    ensures s * TruncDiv(kd * d, dt) >= 0
  {
    if s == 1 {
      MulMono(0, d, kd);
      TruncMono(0, kd * d, dt);
    } else {
      MulMono(d, 0, kd);
      TruncMono(kd * d, 0, dt);
    }
    assert TruncDiv(0, dt) == 0;
  }

  /** One tick of a blocked axis pauses the clock and leaves it just as blocked, at the same reference, at any later time. */
  lemma BlockedTick(a: Axis, cfg: Settings, from: nat, now: uint64, later: uint64, x: int, v: int, s: int, dtMs: uint32)
    requires Clock.ClockInv(a, from, now) && now <= later && Blocked(a, cfg, now, x, v, s)
    ensures var n := Update(a, cfg, now, x, v, dtMs).0;
            n.paused && Clock.ClockInv(n, from, later) && RefTime(n, later) == RefTime(a, now) && n.traj == a.traj &&
            Blocked(n, cfg, later, x, v, s)
  {
    var n := Update(a, cfg, now, x, v, dtMs).0;
    var i := TickInput(a, cfg, now, x, v, dtMs);
    BlockedDemand(a, cfg, now, x, v, s, dtMs);
    BlockedPid(a, cfg, now, x, v, s, dtMs);
    PausedExactly(a, cfg, now, x, v, dtMs);
    Clock.TickKeepsPlan(a, cfg, now, x, v, dtMs);
    Clock.TickKeepsClock(a, cfg, from, Clock.Tick(now, x, v, dtMs));
    SignsOf(s, At(a, now), x, v);
    hide Update, P.Unsaturated, Sample;
    Clock.ClockFlows(n, from, now, later);
    BlockedAgain(a, n, cfg, now, later, x, v, s);
  }

  lemma SignsOf(s: int, r: Ref, x: int, v: int)
    requires (s == 1 || s == -1) && s * (r.x - x) > 0 && s * (r.v - v) >= 0 && s * r.a >= 0
    ensures s == 1 ==> r.x > x && r.v >= v && r.a >= 0
    ensures s == -1 ==> r.x < x && r.v <= v && r.a <= 0
  {
  }

  /** The controller of a blocked axis: nothing but its remembered error changes for the demand. */
  lemma BlockedPid(a: Axis, cfg: Settings, now: nat, x: int, v: int, s: int, dtMs: uint32)
    requires Blocked(a, cfg, now, x, v, s)
    ensures var q := Update(a, cfg, now, x, v, dtMs).0.pid;
            q.iAcc == a.pid.iAcc && !q.latched && q.prevPosErr == Clamp(At(a, now).x - x, INT32_MIN, INT32_MAX)
  {
    var i := TickInput(a, cfg, now, x, v, dtMs);
    BlockedDemand(a, cfg, now, x, v, s, dtMs);
    SignsOf(s, At(a, now), x, v);
    assert !P.InTolerance(i) && i.gains == cfg.gains;
    L.StepIntegral(a.pid, i);
    Unmoved(a.pid, i);
    L.OffTolerance(a.pid, i);
    hide P.Step, P.Unsaturated, Sample, P.NextIAcc;
  }

  lemma Unmoved(s: P.State, i: P.Input)
    requires L.Railed(s, i)
    ensures P.NextIAcc(s, i) == s.iAcc
  {
    hide P.Unsaturated;
  }

  lemma BlockedAgain(a: Axis, n: Axis, cfg: Settings, now: nat, later: nat, x: int, v: int, s: int)
    requires Blocked(a, cfg, now, x, v, s) && n.active && n.traj == a.traj && n.onCompletion == a.onCompletion && !n.pid.latched
    requires n.pid.iAcc == a.pid.iAcc && n.pid.prevPosErr == Clamp(At(a, now).x - x, INT32_MIN, INT32_MAX)
    requires RefTime(n, later) == RefTime(a, now)
    ensures Blocked(n, cfg, later, x, v, s)
  {
    hide Sample, TruncDiv, Clamp, RefTime;
    assert At(n, later) == At(a, now);
    assert TickInput(n, cfg, later, x, v, 1) == TickInput(a, cfg, now, x, v, 1);
  }

  /** Every tick of the run finds the axis at x and v. */
  ghost predicate HeldAt(es: seq<Clock.Event>, x: int, v: int) {
    forall e :: e in es ==> e.Tick? && e.x == x && e.speed == v
  }

  /**
   A wheel blocked in its move freezes the reference: from the tick that finds it
   blocked on, over any further ticks that find it in the same place, the clock
   stays paused and the reference where it is.  The first tick that finds the
   condition of PausedExactly false resumes from there (Clock.PauseContinuous).
   */
  lemma {:induction false} BlockedFreezes(a: Axis, cfg: Settings, from: nat, now: uint64, dtMs: uint32,
                                            es: seq<Clock.Event>, t: uint64, x: int, v: int, s: int)
    requires Clock.ClockInv(a, from, now) && Blocked(a, cfg, now, x, v, s)
    requires HeldAt(es, x, v) && Clock.InOrder(now, es) && Clock.TimeAfter(now, es) <= t
    ensures var n := Clock.Run(Update(a, cfg, now, x, v, dtMs).0, cfg, es);
            n.active && n.paused && At(n, t) == At(a, now) && Clock.ClockInv(n, from, t) && Blocked(n, cfg, t, x, v, s)
    decreases |es|
  {
    if es == [] {
      BlockedTick(a, cfg, from, now, t, x, v, s, dtMs);
      hide Update, Sample;
    } else {
      var before, e := es[..|es| - 1], es[|es| - 1];
      assert e in es && forall q :: q in before ==> q in es;
      BlockedFreezes(a, cfg, from, now, dtMs, before, e.now, x, v, s);
      var m := Clock.Run(Update(a, cfg, now, x, v, dtMs).0, cfg, before);
      BlockedTick(m, cfg, from, e.now, t, x, v, s, e.dtMs);
      hide Update, Sample, Blocked, Clock.ClockInv;
    }
  }

  // ----- where moves start and end

  /** A hold holds the position it was given, and is done from the start. */
  lemma HoldStaysPut(a: Axis, now: uint64, x: int, t: uint64)
    requires now <= t
    ensures var b := DriveHold(a, now, x); b.active && b.onCompletion == P.HOLD && At(b, t) == Ref(x, 0, 0, true)
  {
  }

  /** A reset forgets everything: every tick coasts and is not done, and the next finite move starts afresh at its origin. */
  lemma ResetForgets(a: Axis, cfg: Settings, now: nat, x: int, v: int, dtMs: uint32,
                     origin: int, delta: int, speed: int32, accel: int32, decel: int32, oc: int)
    ensures var b := Reset(a);
            Update(b, cfg, now, x, v, dtMs) == (b, AxisOut(0, 0, P.COAST, false, true, 0)) &&
            DrivePosition(b, cfg, now, origin, delta, speed, accel, decel, oc).traj.x0 == origin
  {
    MoveEndpoints(Reset(a), cfg, now, origin, delta, speed, accel, decel, oc);
    hide DrivePosition, TickInput;
  }

  /** A stop that is not passive holds the position at which it came. */
  lemma StopHolds(a: Axis, now: uint64, x: int, oc: int, t: uint64)
    requires !IsPassive(oc) && now <= t
    ensures var b := Stop(a, now, x, oc); b.active && b.onCompletion == P.HOLD && At(b, t) == Ref(x, 0, 0, true)
  {
    HoldStaysPut(a, now, x, t);
  }

  /** A hold of the whole base holds each axis where that axis is. */
  lemma BaseHolds(b: D.Base, now: uint64, distX: int, headX: int, oc: int, t: uint64)
    requires !IsPassive(oc) && now <= t
    ensures var n := D.StopBoth(b, now, distX, headX, oc);
            At(n.dist, t) == Ref(distX, 0, 0, true) && At(n.head, t) == Ref(headX, 0, 0, true) && n.left == b.left && n.right == b.right
  {
    StopHolds(b.dist, now, distX, oc, t);
    StopHolds(b.head, now, headX, oc, t);
    hide Stop, Sample;
  }

  /** After a passive stop every tick reports zero duty with the brake or the coast asked for, done, and changes nothing. */
  lemma StopLetsGo(a: Axis, cfg: Settings, at: nat, x0: int, oc: int, now: nat, x: int, v: int, dtMs: uint32)
    requires IsPassive(oc)
    ensures var b := Stop(a, at, x0, oc);
            Update(b, cfg, now, x, v, dtMs)
            == (b, AxisOut(0, 0, if oc == P.BRAKE || oc == P.BRAKE_SMART then P.BRAKE else P.COAST, true, true, 0))
  {
    hide TickInput;
  }

  /**
   A speed command starts at its origin, holds its speed once the acceleration
   has had the time for it, and forgets the last endpoint.
   */
  lemma SpeedCommandStarts(a: Axis, now: uint64, origin: int, v: int32, accel: int32, t: uint64)
    requires !a.active || !a.traj.infinite
    ensures var b := DriveForever(a, now, origin, v, accel);
            b.active && !b.prevValid && b.onCompletion == P.COAST && At(b, now).x == origin &&
            (now <= t && EffectiveAccel(accel) * (t - now) >= Abs(v) * US_PER_S ==> At(b, t).v == v && At(b, t).a == 0)
  {
    var b := DriveForever(a, now, origin, v, accel);
    assert b.traj == PlanForever(now, origin, v, accel) && RefTime(b, now) == now && RefTime(b, t) == t;
    assert b.active && !b.prevValid && b.onCompletion == P.COAST;
    hide *;
    R.PlanForeverIsForever(now, origin, v, accel);
    if now <= t && EffectiveAccel(accel) * (t - now) >= Abs(v) * US_PER_S {
      SpeedHeld(now, origin, v, accel, t);
    }
    AtIs(b, now);
    AtIs(b, t);
  }

  lemma AtIs(a: Axis, now: nat)
    ensures At(a, now) == Sample(a.traj, RefTime(a, now))
  {
  }

  /** An infinite move holds its speed once the acceleration has had the time for it. */
  lemma SpeedHeld(t0: nat, x0: int, v: int32, accel: int32, t: nat)
    requires t0 <= t && EffectiveAccel(accel) * (t - t0) >= Abs(v) * US_PER_S
    ensures Sample(PlanForever(t0, x0, v, accel), t).v == v && Sample(PlanForever(t0, x0, v, accel), t).a == 0
  {
    RampOver(Abs(v), EffectiveAccel(accel), t - t0);
    hide DxFromA, DxFromV, VFromA, DtToReach;
    assert Sign(v) * Abs(v) == v;
  }

  lemma RampOver(v: nat, a: nat, dt: nat)
    requires a > 0 && a * dt >= v * US_PER_S
    ensures DtToReach(v, a) <= dt
  {
    FloorDiv(v * US_PER_S, a);
    assert (dt + 1) * a == a * dt + a;
    if dt < DtToReach(v, a) { MulMono(dt + 1, DtToReach(v, a), a); }
  }

  /**
   One that finds a speed command under way changes speed only: the position
   reference is kept once the clock has run its ramp, and so are controller and clock.
   */
  lemma SpeedCommandContinues(a: Axis, now: uint64, origin: int, v: int32, accel: int32)
    requires a.active && a.traj.infinite
    ensures var b := DriveForever(a, now, origin, v, accel);
            b.active && !b.prevValid && b.onCompletion == P.COAST && b.pid == a.pid &&
            b.paused == a.paused && RefTime(b, now) == RefTime(a, now) &&
            (DtToReach(Abs(v), EffectiveAccel(accel)) <= RefTime(a, now) ==> At(b, now).x == At(a, now).x)
  {
    var at := RefTime(a, now);
    R.RetargetKeepsPosition(a.traj, at, v, accel);
    R.AnchorBackRange(Sample(a.traj, at), v, EffectiveAccel(accel));
    hide Sample, Retarget, AnchorBack, DtToReach, DxFromA;
  }

  /** A finite command moves by delta, from the last endpoint if that is valid and near enough, else from the origin. */
  lemma MoveEndpoints(a: Axis, cfg: Settings, now: nat, origin: int, delta: int, v: int32, accel: int32, decel: int32, oc: int)
    ensures var b := DrivePosition(a, cfg, now, origin, delta, v, accel, decel, oc);
            b.traj.x1 == b.traj.x0 + delta && b.prevValid && b.prevEndpoint == b.traj.x1 && b.traj.t0 == now &&
            b.active && b.onCompletion == oc && b.pid == P.FRESH && !b.paused && b.pauseTotal == 0 &&
            b.traj.x0 == if a.prevValid && 0 - cfg.completion.smartContinueWindow <= a.prevEndpoint - origin <= cfg.completion.smartContinueWindow
                         then a.prevEndpoint else origin
  {
    hide PlannedPeak, PlannedCruise, DtToReach, DxFromA, DxFromV;
  }

  /** Where a relative move begins. */
  datatype Leg = Leg(now: uint64, origin: int, delta: int, v: int32, accel: int32, decel: int32, oc: int, ticks: seq<Clock.Event>)

  /** A chain of finite commands, each followed by ticks. */
  function Chain(a: Axis, cfg: Settings, legs: seq<Leg>): Axis {
    if legs == [] then a
    else
      var l := legs[|legs| - 1];
      Clock.Run(DrivePosition(Chain(a, cfg, legs[..|legs| - 1]), cfg, l.now, l.origin, l.delta, l.v, l.accel, l.decel, l.oc), cfg, l.ticks)
  }

  function Total(legs: seq<Leg>): int {
    if legs == [] then 0 else Total(legs[..|legs| - 1]) + legs[|legs| - 1].delta
  }

  /** Every command of the chain finds the axis within the window of where the last one was to end. */
  ghost predicate Continues(a: Axis, cfg: Settings, legs: seq<Leg>) {
    legs != [] ==>
      var before, l := legs[..|legs| - 1], legs[|legs| - 1];
      Continues(a, cfg, before) && Clock.AllTicks(l.ticks) &&
      0 - cfg.completion.smartContinueWindow <= Chain(a, cfg, before).prevEndpoint - l.origin <= cfg.completion.smartContinueWindow
  }

  /** Relative moves add up exactly: stopping short of each endpoint leaves no error behind. */
  lemma {:induction false} MovesAccumulate(a: Axis, cfg: Settings, legs: seq<Leg>)
    requires a.prevValid && Continues(a, cfg, legs)
    ensures Chain(a, cfg, legs).prevValid && Chain(a, cfg, legs).prevEndpoint == a.prevEndpoint + Total(legs)
    decreases |legs|
  {
    if legs != [] {
      var before, l := legs[..|legs| - 1], legs[|legs| - 1];
      MovesAccumulate(a, cfg, before);
      var b := Chain(a, cfg, before);
      MoveEndpoints(b, cfg, l.now, l.origin, l.delta, l.v, l.accel, l.decel, l.oc);
      TicksKeepEndpoint(DrivePosition(b, cfg, l.now, l.origin, l.delta, l.v, l.accel, l.decel, l.oc), cfg, l.ticks);
      hide DrivePosition, Clock.Run;
    }
  }

  lemma {:induction false} TicksKeepEndpoint(a: Axis, cfg: Settings, es: seq<Clock.Event>)
    requires Clock.AllTicks(es)
    ensures Clock.Run(a, cfg, es).prevValid == a.prevValid && Clock.Run(a, cfg, es).prevEndpoint == a.prevEndpoint
    decreases |es|
  {
    if es != [] {
      var before, e := es[..|es| - 1], es[|es| - 1];
      assert e in es && forall q :: q in before ==> q in es;
      TicksKeepEndpoint(a, cfg, before);
      hide P.Step, WantsPause, Sample;
    }
  }
}
