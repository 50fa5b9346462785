/**
 The pausable reference clock over whole runs of commands and ticks, composed
 with the profile it drives and the PID it feeds.
 */
module Clock {
  import opened CArith
  import opened Profiles
  import opened Aggregate
  import R = Retargeting
  import E = Envelope
  import P = PidControl

  /** Everything that can happen to an axis; Equalise is the stretch drive_curve applies to a fresh plan. */
  datatype Event =
    | Position(now: uint64, origin: int, delta: int, v: int32, accel: int32, decel: int32, oc: int)
    | Forever(now: uint64, origin: int, v: int32, accel: int32)
    | HoldAt(now: uint64, origin: int)
    | StopAt(now: uint64, x: int, oc: int)
    | ResetAt(now: uint64)
    | Equalise(now: uint64, target: nat)
    | Tick(now: uint64, x: int, speed: int, dtMs: uint32)

  function Apply(a: Axis, cfg: Settings, e: Event): Axis {
    match e
    case Position(now, origin, delta, v, accel, decel, oc) => DrivePosition(a, cfg, now, origin, delta, v, accel, decel, oc)
    case Forever(now, origin, v, accel) => DriveForever(a, now, origin, v, accel)
    case HoldAt(now, origin) => DriveHold(a, now, origin)
    case StopAt(now, x, oc) => Stop(a, now, x, oc)
    case ResetAt(now) => Reset(a)
    case Equalise(now, target) => a.(traj := Stretch(a.traj, target).1)
    case Tick(now, x, speed, dtMs) => Update(a, cfg, now, x, speed, dtMs).0
  }

  function Run(a: Axis, cfg: Settings, es: seq<Event>): Axis {
    if es == [] then a else Apply(Run(a, cfg, es[..|es| - 1]), cfg, es[|es| - 1])
  }

  /** The time reached: that of the last event, or the start of the run. */
  function TimeAfter(from: uint64, es: seq<Event>): uint64 {
    if es == [] then from else es[|es| - 1].now
  }

  /** Time never goes back, and no commanded speed needs a ramp longer than the clock had already run at the start. */
  ghost predicate Timed(from: uint64, es: seq<Event>) {
    es != [] ==>
      var e := es[|es| - 1];
      Timed(from, es[..|es| - 1]) && TimeAfter(from, es[..|es| - 1]) <= e.now &&
      (e.Forever? ==> DtToReach(Abs(e.v), EffectiveAccel(e.accel)) <= from)
  }

  /** An axis nothing has been commanded to yet. */
  ghost predicate Idle(a: Axis) {
    !a.active && !a.paused && a.pauseTotal == 0
  }

  /** What every run keeps: no subtraction of the clock wraps, and the clock has reached the plan's origin. */
  ghost predicate ClockInv(a: Axis, from: nat, now: nat) {
    from <= now <= UINT64_MAX &&
    (a.paused ==> a.pauseTotal <= a.pauseBegin <= now) && a.pauseTotal <= now &&
    RefTime(a, now) == (if a.paused then a.pauseBegin else now) - a.pauseTotal &&
    (!a.active ==> !a.paused) &&
    (a.active ==> a.traj.t0 <= RefTime(a, now) && from <= RefTime(a, now)) &&
    (a.active && a.traj.infinite ==> R.Forever(a.traj))
  }

  /** Between events the reference clock moves forward, and never faster than real time. */
  lemma ClockFlows(a: Axis, from: nat, now: nat, later: nat)
    requires ClockInv(a, from, now) && now <= later <= UINT64_MAX
    ensures ClockInv(a, from, later)
    ensures RefTime(a, now) <= RefTime(a, later) <= RefTime(a, now) + (later - now)
    ensures a.paused ==> RefTime(a, later) == RefTime(a, now)
    ensures !a.paused ==> RefTime(a, later) == RefTime(a, now) + (later - now)
  {
  }

  lemma TickKeepsPlan(a: Axis, cfg: Settings, now: nat, x: int, v: int, dtMs: uint32)
    ensures var b := Update(a, cfg, now, x, v, dtMs).0;
            b.traj == a.traj && b.active == a.active && b.onCompletion == a.onCompletion &&
            (a.active ==> exists pause :: b.(pid := a.pid) == SetPause(a, pause, now))
  {
    var (b, out) := Update(a, cfg, now, x, v, dtMs);
    if a.active {
      var r := Reference(a, now, x);
      var pause := WantsPause(b.pid, r, x, v);
      assert b.(pid := a.pid) == SetPause(a, pause, now);
    }
  }

  /** Pausing and resuming are continuous: the reference time at that instant does not change. */
  lemma PauseContinuous(a: Axis, from: nat, now: nat, pause: bool)
    requires ClockInv(a, from, now) && a.active
    ensures ClockInv(SetPause(a, pause, now), from, now)
    ensures RefTime(SetPause(a, pause, now), now) == RefTime(a, now)
  {
  }

  /** Events that stay within the command under way. */
  predicate WithinCommand(a: Axis, e: Event) {
    a.active && (e.Tick? || (e.Forever? && a.traj.infinite))
  }

  lemma EventKeepsClock(a: Axis, cfg: Settings, from: nat, e: Event)
    requires ClockInv(a, from, e.now)
    requires e.Forever? ==> DtToReach(Abs(e.v), EffectiveAccel(e.accel)) <= from
    ensures ClockInv(Apply(a, cfg, e), from, e.now)
    ensures WithinCommand(a, e) ==> RefTime(Apply(a, cfg, e), e.now) == RefTime(a, e.now)
  {
    hide Plan, Stretch, Retarget, Update, DtToReach, R.Forever;
    match e
    case Tick(now, x, speed, dtMs) =>
      TickKeepsClock(a, cfg, from, e);
    case Forever(now, origin, v, accel) =>
      ForeverKeepsClock(a, from, now, origin, v, accel);
    case Position(now, origin, delta, v, accel, decel, oc) =>
      var start := StartFrom(a, cfg, origin);
      PlanOrigin(now, start, start + delta, v, accel, decel);
    case HoldAt(now, origin) =>
      PlanOrigin(now, origin, origin, 1, 1, 1);
    case StopAt(now, x, oc) =>
      PlanOrigin(now, x, x, 1, 1, 1);
    case Equalise(now, target) =>
      StretchOrigin(a.traj, target);
    case ResetAt(now) =>
  }

  lemma ForeverKeepsClock(a: Axis, from: nat, now: uint64, origin: int, v: int32, accel: int32)
    requires ClockInv(a, from, now) && DtToReach(Abs(v), EffectiveAccel(accel)) <= from
    ensures var b := DriveForever(a, now, origin, v, accel);
            ClockInv(b, from, now) && (a.active && a.traj.infinite ==> RefTime(b, now) == RefTime(a, now))
  {
    hide Retarget, PlanForever, DtToReach, R.Forever, Sample, EffectiveAccel, Abs;
    if a.active && a.traj.infinite {
      R.AfterRetarget(a.traj, R.Command(RefTime(a, now), v, accel));
      RetargetInfinite(a.traj, RefTime(a, now), v, accel);
    } else {
      R.PlanForeverIsForever(now, origin, v, accel);
      PlanForeverOrigin(now, origin, v, accel);
    }
  }

  lemma RetargetInfinite(p: Profile, now: nat, v: int32, accel: int32)
    requires p.infinite
    ensures Retarget(p, now, v, accel).infinite
  {
    hide Sample, AnchorBack, DxFromA, DtToReach;
  }

  lemma PlanForeverOrigin(t0: nat, x0: int, v: int32, accel: int32)
    ensures PlanForever(t0, x0, v, accel).t0 == t0 && PlanForever(t0, x0, v, accel).infinite
  {
    hide DxFromA, DtToReach;
  }

  lemma PlanOrigin(t0: nat, x0: int, x1: int, v: int32, accel: int32, decel: int32)
    ensures Plan(t0, x0, x1, v, accel, decel).t0 == t0 && !Plan(t0, x0, x1, v, accel, decel).infinite
  {
  }

  lemma StretchOrigin(p: Profile, target: nat)
    ensures var q := Stretch(p, target).1; q.t0 == p.t0 && q.infinite == p.infinite && (p.infinite ==> q == p)
  {
  }

  lemma TickKeepsClock(a: Axis, cfg: Settings, from: nat, e: Event)
    requires e.Tick? && ClockInv(a, from, e.now)
    ensures ClockInv(Apply(a, cfg, e), from, e.now)
    ensures a.active ==> RefTime(Apply(a, cfg, e), e.now) == RefTime(a, e.now)
  {
    TickKeepsPlan(a, cfg, e.now, e.x, e.speed, e.dtMs);
    var b := Apply(a, cfg, e);
    if a.active {
      hide Update;
      var pause :| b.(pid := a.pid) == SetPause(a, pause, e.now);
      PauseContinuous(a, from, e.now, pause);
    }
  }

  /** Every run from an idle axis keeps the clock invariant; in particular an inactive axis is never paused. */
  lemma {:induction false} RunKeepsClock(a: Axis, cfg: Settings, from: uint64, es: seq<Event>)
    requires Idle(a) && Timed(from, es)
    ensures from <= TimeAfter(from, es) && ClockInv(Run(a, cfg, es), from, TimeAfter(from, es))
    decreases |es|
  {
    if es != [] {
      var before, e := es[..|es| - 1], es[|es| - 1];
      RunKeepsClock(a, cfg, from, before);
      ClockFlows(Run(a, cfg, before), from, TimeAfter(from, before), e.now);
      EventKeepsClock(Run(a, cfg, before), cfg, from, e);
    }
  }

  /** Time never goes back. */
  ghost predicate InOrder(from: uint64, es: seq<Event>) {
    es != [] ==> InOrder(from, es[..|es| - 1]) && TimeAfter(from, es[..|es| - 1]) <= es[|es| - 1].now
  }

  /** The part of the clock invariant that no command can break. */
  ghost predicate NoWrap(a: Axis, now: nat) {
    now <= UINT64_MAX && (a.paused ==> a.pauseTotal <= a.pauseBegin <= now) && a.pauseTotal <= now &&
    RefTime(a, now) == (if a.paused then a.pauseBegin else now) - a.pauseTotal && (!a.active ==> !a.paused)
  }

  /** Whatever is commanded, with ramps of any length: no subtraction wraps, and an inactive axis is never paused. */
  lemma {:induction false} RunNeverWraps(a: Axis, cfg: Settings, from: uint64, es: seq<Event>)
    requires Idle(a) && InOrder(from, es)
    ensures NoWrap(Run(a, cfg, es), TimeAfter(from, es))
    decreases |es|
  {
    if es != [] {
      var before, e := es[..|es| - 1], es[|es| - 1];
      RunNeverWraps(a, cfg, from, before);
      EventNeverWraps(Run(a, cfg, before), cfg, TimeAfter(from, before), e);
    }
  }

  lemma EventNeverWraps(a: Axis, cfg: Settings, was: nat, e: Event)
    requires NoWrap(a, was) && was <= e.now
    ensures NoWrap(Apply(a, cfg, e), e.now)
  {
    NoWrapFlows(a, was, e.now);
    if e.Tick? {
      TickKeepsPlan(a, cfg, e.now, e.x, e.speed, e.dtMs);
      hide Update;
      var b := Apply(a, cfg, e);
      if a.active {
        var pause :| b.(pid := a.pid) == SetPause(a, pause, e.now);
        PauseNeverWraps(a, pause, e.now);
        SamePause(b, b.(pid := a.pid), e.now);
      } else {
        TickOfIdle(a, cfg, e.now, e.x, e.speed, e.dtMs);
        Unpaused(b, e.now);
      }
    } else {
      CommandPause(a, cfg, e);
      hide Apply, RefTime;
      if PauseCleared(Apply(a, cfg, e)) { Unpaused(Apply(a, cfg, e), e.now); } else { SamePause(Apply(a, cfg, e), a, e.now); }
    }
  }

  lemma NoWrapFlows(a: Axis, was: nat, now: uint64)
    requires NoWrap(a, was) && was <= now
    ensures NoWrap(a, now)
  {
  }

  lemma PauseNeverWraps(a: Axis, pause: bool, now: nat)
    requires NoWrap(a, now) && a.active
    ensures NoWrap(SetPause(a, pause, now), now)
  {
  }

  lemma SamePause(b: Axis, a: Axis, now: nat)
    requires NoWrap(a, now) && b.active == a.active
    requires b.paused == a.paused && b.pauseBegin == a.pauseBegin && b.pauseTotal == a.pauseTotal
    ensures NoWrap(b, now)
  {
  }

  predicate PauseCleared(b: Axis) {
    !b.paused && b.pauseTotal == 0
  }

  lemma Unpaused(b: Axis, now: uint64)
    requires PauseCleared(b)
    ensures NoWrap(b, now)
  {
  }

  lemma TickOfIdle(a: Axis, cfg: Settings, now: nat, x: int, v: int, dtMs: uint32)
    requires !a.active
    ensures PauseCleared(Update(a, cfg, now, x, v, dtMs).0)
  {
    hide P.Step;
  }

  /** A command clears the pause, or leaves it alone on an axis that stays as active as it was. */
  lemma CommandPause(a: Axis, cfg: Settings, e: Event)
    requires !e.Tick?
    ensures var b := Apply(a, cfg, e);
            PauseCleared(b) ||
            (b.active == a.active && b.paused == a.paused && b.pauseBegin == a.pauseBegin && b.pauseTotal == a.pauseTotal)
  {
    hide Plan, Stretch, Retarget, RefTime, PlanForever;
  }

  /** A stretch of events from state a that never leaves the command under way. */
  ghost predicate OneCommand(a: Axis, cfg: Settings, es: seq<Event>) {
    es != [] ==> OneCommand(a, cfg, es[..|es| - 1]) && WithinCommand(Run(a, cfg, es[..|es| - 1]), es[|es| - 1])
  }

  /**
   Within a command the reference time never goes backwards and never runs
   faster than real time, whatever the ticks measure and however often they
   pause and resume it.
   */
  lemma {:induction false} ReferenceTimeMonotone(a: Axis, cfg: Settings, from: uint64, now: uint64, es: seq<Event>)
    requires ClockInv(a, from, now) && OneCommand(a, cfg, es) && Timed(now, es)
    requires forall e :: e in es && e.Forever? ==> DtToReach(Abs(e.v), EffectiveAccel(e.accel)) <= from
    ensures var t := TimeAfter(now, es);
            now <= t && ClockInv(Run(a, cfg, es), from, t) &&
            RefTime(a, now) <= RefTime(Run(a, cfg, es), t) <= RefTime(a, now) + (t - now)
    decreases |es|
  {
    if es != [] {
      var before, e := es[..|es| - 1], es[|es| - 1];
      ReferenceTimeMonotone(a, cfg, from, now, before);
      var b := Run(a, cfg, before);
      assert e in es;
      ClockFlows(b, from, TimeAfter(now, before), e.now);
      EventKeepsClock(b, cfg, from, e);
    }
  }

  // ----- the clock drives a finite profile

  ghost predicate AllTicks(es: seq<Event>) {
    forall e :: e in es ==> e.Tick?
  }

  lemma {:induction false} TicksStayWithin(a: Axis, cfg: Settings, es: seq<Event>)
    requires AllTicks(es) && a.active
    ensures OneCommand(a, cfg, es)
    ensures Run(a, cfg, es).traj == a.traj && Run(a, cfg, es).active == a.active
    ensures Run(a, cfg, es).onCompletion == a.onCompletion
    decreases |es|
  {
    if es != [] {
      var before, e := es[..|es| - 1], es[|es| - 1];
      assert e in es;
      TicksStayWithin(a, cfg, before);
      TickKeepsPlan(Run(a, cfg, before), cfg, e.now, e.x, e.speed, e.dtMs);
    }
  }

  lemma DoneLater(p: Profile, t: nat, later: nat)
    requires Sample(p, t).done && t <= later
    ensures Sample(p, later).done && Sample(p, later).x == Sample(p, t).x
  {
  }

  /**
   Once the reference of a command reports done, it reports done, and the same
   position, on every later tick until the next command.
   */
  lemma DoneUntilNextCommand(a: Axis, cfg: Settings, from: uint64, now: uint64, es: seq<Event>, t: uint64)
    requires ClockInv(a, from, now) && a.active && AllTicks(es) && Timed(now, es) && TimeAfter(now, es) <= t
    requires Sample(a.traj, RefTime(a, now)).done
    ensures var b := Run(a, cfg, es);
            b.active && Sample(b.traj, RefTime(b, t)).done &&
            Sample(b.traj, RefTime(b, t)).x == Sample(a.traj, RefTime(a, now)).x
  {
    TicksStayWithin(a, cfg, es);
    ReferenceTimeMonotone(a, cfg, from, now, es);
    var b := Run(a, cfg, es);
    ClockFlows(b, from, TimeAfter(now, es), t);
    DoneLater(a.traj, RefTime(a, now), RefTime(b, t));
  }

  // ----- clock, profile and PID together

  /** A tick of an unlatched active axis can latch only when its profile has ended in reference time. */
  lemma LatchNeedsEnd(a: Axis, cfg: Settings, now: nat, x: int, v: int, dtMs: uint32)
    requires a.active && !a.pid.latched && Update(a, cfg, now, x, v, dtMs).0.pid.latched
    ensures Sample(a.traj, RefTime(a, now)).done
  {
    assert P.InTolerance(TickInput(a, cfg, now, x, v, dtMs)) by {
      LatchNeedsTolerance(a.pid, TickInput(a, cfg, now, x, v, dtMs));
    }
  }

  lemma LatchNeedsTolerance(s: P.State, i: P.Input)
    requires !s.latched && P.Step(s, i).0.latched
    ensures P.InTolerance(i)
  {
  }

  /**
   A finite move never lets go early: if the axis is latched after a run of
   ticks, the real time since the command is at least the planned duration,
   whatever was measured and however the clock was paused.
   */
  lemma {:induction false} NoEarlyLetGo(a: Axis, cfg: Settings, start: uint64, es: seq<Event>,
                                        origin: int, delta: int, v: int32, accel: int32, decel: int32, oc: int)
    requires AllTicks(es) && Timed(start, es) && delta != 0 && v > 0
    ensures var b := DrivePosition(a, cfg, start, origin, delta, v, accel, decel, oc);
            Run(b, cfg, es).pid.latched ==> TimeAfter(start, es) >= start + b.traj.totalDt
    decreases |es|
  {
    var b := DrivePosition(a, cfg, start, origin, delta, v, accel, decel, oc);
    if es != [] {
      var before, e := es[..|es| - 1], es[|es| - 1];
      assert AllTicks(before);
      NoEarlyLetGo(a, cfg, start, before, origin, delta, v, accel, decel, oc);
      assert ClockInv(b, start, start);
      TicksStayWithin(b, cfg, before);
      ReferenceTimeMonotone(b, cfg, start, start, before);
      var c := Run(b, cfg, before);
      assert e in es;
      if Run(b, cfg, es).pid.latched && !c.pid.latched {
        ClockFlows(c, start, TimeAfter(start, before), e.now);
        LatchNeedsEnd(c, cfg, e.now, e.x, e.speed, e.dtMs);
        DoneTestsAgree(b.traj, RefTime(c, e.now));
      }
    }
  }

  /**
   The envelope as the controller sees it: at any time after any run of ticks
   since a finite command, the reference lies between the start and the endpoint
   with at most one milli-degree of overshoot, within the requested speed,
   however the clock was paused.
   */
  lemma ReferenceStaysInEnvelope(a: Axis, cfg: Settings, start: uint64, es: seq<Event>, t: uint64, x: int,
                                 origin: int, delta: int, v: int32, accel: int32, decel: int32, oc: int)
    requires AllTicks(es) && Timed(start, es) && TimeAfter(start, es) <= t && v > 0
    ensures var from := StartFrom(a, cfg, origin);
            var b := DrivePosition(a, cfg, start, origin, delta, v, accel, decel, oc);
            InEnvelope(Reference(Run(b, cfg, es), t, x), from, delta, v)
  {
    hide *;
    var from := StartFrom(a, cfg, origin);
    var b := DrivePosition(a, cfg, start, origin, delta, v, accel, decel, oc);
    PositionStarts(a, cfg, start, origin, delta, v, accel, decel, oc);
    AxisAfterTicks(b, cfg, start, es, t);
    var c := Run(b, cfg, es);
    ActiveReference(c, t, x);
    EnvelopeOf(start, from, delta, v, accel, decel, RefTime(c, t));
  }

  /** The planned envelope around the start of the move. */
  ghost predicate InEnvelope(r: Ref, from: int, delta: int, v: int) {
    0 <= Sign(delta) * (r.x - from) <= Abs(delta) + 1 && Abs(r.v) <= v
  }

  lemma EnvelopeOf(start: nat, from: int, delta: int, v: int32, accel: int32, decel: int32, t: nat)
    requires start <= t && v > 0
    ensures InEnvelope(Sample(Plan(start, from, from + delta, v, accel, decel), t), from, delta, v)
  {
    E.PlannedEnvelope(start, from, from + delta, v, accel, decel, t);
    hide Plan, Sample;
    assert from + delta - from == delta;
  }

  lemma PositionStarts(a: Axis, cfg: Settings, start: uint64, origin: int, delta: int, v: int32, accel: int32, decel: int32, oc: int)
    ensures var from := StartFrom(a, cfg, origin);
            var b := DrivePosition(a, cfg, start, origin, delta, v, accel, decel, oc);
            b.active && ClockInv(b, start, start) &&
            b.traj == Plan(start, from, from + delta, v, accel, decel) && b.traj.t0 == start
  {
    var from := StartFrom(a, cfg, origin);
    PlanOrigin(start, from, from + delta, v, accel, decel);
    hide Plan;
  }

  lemma ActiveReference(c: Axis, t: nat, x: int)
    requires c.active
    ensures Reference(c, t, x) == Sample(c.traj, RefTime(c, t))
  {
  }

  lemma AxisAfterTicks(b: Axis, cfg: Settings, start: uint64, es: seq<Event>, t: uint64)
    requires AllTicks(es) && Timed(start, es) && TimeAfter(start, es) <= t
    requires b.active && ClockInv(b, start, start)
    ensures var c := Run(b, cfg, es);
            c.active && c.traj == b.traj && c.traj.t0 <= RefTime(c, t)
  {
    TicksStayWithin(b, cfg, es);
    ReferenceTimeMonotone(b, cfg, start, start, es);
    ClockFlows(Run(b, cfg, es), start, TimeAfter(start, es), t);
  }

  /**
   The two completion tests agree on every plan that moves; on one that does
   not, the sampled reference is done at once and db_trajectory_is_done never.
   */
  lemma DoneTestsAgree(p: Profile, t: nat)
    requires !p.infinite && p.accelDt + p.cruiseDt <= p.totalDt
    ensures p.direction != 0 ==> (Sample(p, t).done <==> IsDone(p, t))
    ensures p.direction == 0 && t >= p.t0 ==> Sample(p, t).done && !IsDone(p, t)
  {
  }
}
