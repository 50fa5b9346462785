/**
 One aggregate axis (apps/drivebase/drivebase_aggregate.c): a profile sampled
 through a pausable reference clock feeds the PID, and saturation in the
 direction of the error pauses the clock.
 */
module Aggregate {
  import opened CArith
  import opened Profiles
  import opened Trajectories
  import P = PidControl

  /** Per-axis feed-forward gains; the source's pointer to them may be null. */
  datatype FeedForward = NoFeedForward | AxisGains(kV: int32, kA: int32)

  /** What aggregate_refresh_settings fetches; the settings are frozen before the first tick. */
  datatype Settings = Settings(gains: P.Gains, completion: P.Completion, ff: FeedForward, tickMs: uint32)

  /** db_aggregate_control_s. */
  datatype Axis = Axis(pid: P.State, traj: Profile, active: bool,
                       prevValid: bool, prevEndpoint: int, onCompletion: int,
                       paused: bool, pauseBegin: nat, pauseTotal: nat)

  /** db_aggregate_output_s. */
  datatype AxisOut = AxisOut(duty: int, refV: int, actuation: int, done: bool, trajectoryDone: bool, posErr: int)

  // ----- the pausable clock

  /** aggregate_get_ref_time; both subtractions are uint64. */
  function RefTime(a: Axis, now: nat): uint64 {
    Sub64(if a.paused then a.pauseBegin else now, a.pauseTotal)
  }

  function SetPause(a: Axis, pause: bool, now: nat): Axis {
    if pause && !a.paused then a.(paused := true, pauseBegin := now)
    else if !pause && a.paused then a.(paused := false, pauseTotal := (a.pauseTotal + Sub64(now, a.pauseBegin)) % UINT64_MOD)
    else a
  }

  function ResetPause(a: Axis): Axis {
    a.(paused := false, pauseBegin := 0, pauseTotal := 0)
  }

  // ----- commands

  /** SMART continue-from-endpoint: where a new finite move starts. */
  function StartFrom(a: Axis, cfg: Settings, origin: int): int {
    if a.prevValid && Abs(a.prevEndpoint - origin) <= cfg.completion.smartContinueWindow then a.prevEndpoint else origin
  }

  function DrivePosition(a: Axis, cfg: Settings, now: nat, origin: int, delta: int,
                         v: int32, accel: int32, decel: int32, oc: int): Axis {
    var from := StartFrom(a, cfg, origin);
    Axis(P.FRESH, Plan(now, from, from + delta, v, accel, decel), true, true, from + delta, oc, false, 0, 0)
  }

  function DriveForever(a: Axis, now: nat, origin: int, v: int32, accel: int32): Axis {
    if a.active && a.traj.infinite then
      a.(traj := Retarget(a.traj, RefTime(a, now), v, accel), prevValid := false, onCompletion := P.COAST)
    else
      Axis(P.FRESH, PlanForever(now, origin, v, accel), true, false, a.prevEndpoint, P.COAST, false, 0, 0)
  }

  function DriveHold(a: Axis, now: nat, origin: int): Axis {
    Axis(P.FRESH, Plan(now, origin, origin, 1, 1, 1), true, false, a.prevEndpoint, P.HOLD, false, 0, 0)
  }

  predicate IsPassive(oc: int) {
    oc == P.COAST || oc == P.COAST_SMART || oc == P.BRAKE || oc == P.BRAKE_SMART
  }

  function Stop(a: Axis, now: nat, x: int, oc: int): Axis {
    if IsPassive(oc) then
      ResetPause(a).(active := false, prevValid := false, onCompletion := oc,
                     pid := P.STOPPED.(latched := true, latchedActuation := P.PassiveOf(oc)))
    else DriveHold(a, now, x)
  }

  function Reset(a: Axis): Axis {
    ResetPause(a).(active := false, prevValid := false, prevEndpoint := 0, onCompletion := P.COAST, pid := P.FRESH)
  }

  // ----- the tick

  function Reference(a: Axis, now: nat, x: int): Ref {
    if a.active then Sample(a.traj, RefTime(a, now)) else Ref(x, 0, 0, true)
  }

  function FeedForwardDuty(a: Axis, cfg: Settings, r: Ref): int {
    if cfg.ff.AxisGains? && a.active then cfg.ff.kV * TruncDiv(r.v, 1000) + cfg.ff.kA * TruncDiv(r.a, 1000) else 0
  }

  /** The PID input of a tick. */
  function TickInput(a: Axis, cfg: Settings, now: nat, x: int, v: int, dtMs: uint32): P.Input {
    var r := Reference(a, now, x);
    P.Input(r.x, r.v, x, v, if dtMs != 0 then dtMs else cfg.tickMs, cfg.gains, cfg.completion,
            FeedForwardDuty(a, cfg, r), r.done, a.onCompletion)
  }

  /** The pause decision of lines 389-404. */
  predicate WantsPause(pid: P.State, r: Ref, x: int, v: int) {
    var p, e, c := Sign(r.x - x), Sign(r.v - v), Sign(r.a);
    !pid.latched && ((p > 0 && pid.satHigh) || (p < 0 && pid.satLow)) &&
    !(p != 0 && e != 0 && p == -e) && !(p != 0 && c != 0 && p == -c)
  }

  function ClampedErr(r: Ref, x: int): int {
    Clamp(r.x - x, INT32_MIN, INT32_MAX)
  }

  /** db_aggregate_control_update. */
  function Update(a0: Axis, cfg: Settings, now: nat, x: int, v: int, dtMs: uint32): (Axis, AxisOut) {
    var a := if a0.active then a0 else ResetPause(a0);
    if !a.active && !a.pid.latched then (a, AxisOut(0, 0, P.COAST, a.pid.done, true, 0))
    else
      var r := Reference(a, now, x);
      var (pid, out) := P.Step(a.pid, TickInput(a, cfg, now, x, v, dtMs));
      var b := a.(pid := pid);
      (if a.active then SetPause(b, WantsPause(pid, r, x, v), now) else b,
       AxisOut(out.duty, r.v, out.actuation, out.done, r.done, ClampedErr(r, x)))
  }

  class AggregateControl {
    const cfg: Settings
    const pid: P.Pid
    const trajectory: Trajectory
    var active: bool
    var prevValid: bool
    var prevEndpoint: int
    var onCompletion: int
    var paused: bool
    var pauseBegin: nat
    var pauseTotal: nat

    predicate Valid()
      reads this, trajectory
    {
      trajectory.Valid()
    }

    function View(): Axis
      reads this, pid, trajectory
    {
      Axis(pid.View(), trajectory.View(), active, prevValid, prevEndpoint, onCompletion, paused, pauseBegin, pauseTotal)
    }

    constructor (cfg: Settings)
      ensures Valid() && fresh(pid) && fresh(trajectory) && this.cfg == cfg
      ensures View().pid == P.FRESH && !active && !prevValid && onCompletion == P.COAST
      ensures !paused && pauseTotal == 0
    {
      this.cfg := cfg;
      pid := new P.Pid();
      trajectory := new Trajectory();
      active, prevValid, prevEndpoint, onCompletion := false, false, 0, P.COAST;
      paused, pauseBegin, pauseTotal := false, 0, 0;
    }

    method GetRefTime(now: uint64) returns (t: uint64)
      ensures t == RefTime(View(), now)
    {
      if paused {
        return Sub64(pauseBegin, pauseTotal);
      }
      return Sub64(now, pauseTotal);
    }

    method SetPaused(pause: bool, now: uint64)
      requires Valid()
      modifies this
      ensures Valid() && View() == SetPause(old(View()), pause, now)
    {
      if pause && !paused {
        pauseBegin := now;
        paused := true;
      } else if !pause && paused {
        pauseTotal := (pauseTotal + Sub64(now, pauseBegin)) % UINT64_MOD;
        paused := false;
      }
    }

    method ClearPause()
      requires Valid()
      modifies this
      ensures Valid() && View() == ResetPause(old(View()))
    {
      paused, pauseBegin, pauseTotal := false, 0, 0;
    }

    method ResetControl()
      requires Valid()
      modifies this, pid
      ensures Valid() && View() == Reset(old(View()))
    {
      active, prevValid, prevEndpoint, onCompletion := false, false, 0, P.COAST;
      ClearPause();
      pid.Reset();
    }

    method CommandPosition(now: uint64, origin: int64, delta: int64, v: int32, accel: int32, decel: int32, oc: int)
      requires Valid() && Abs(delta) <= INT64_MAX
      requires var from := StartFrom(View(), cfg, origin);
               Abs(from) <= INT64_MAX && Abs(from + delta) <= INT64_MAX
      modifies this, pid, trajectory
      ensures Valid() && View() == DrivePosition(old(View()), cfg, now, origin, delta, v, accel, decel, oc)
    {
      hide Plan;
      var from := origin;
      if prevValid {
        var err := Abs(prevEndpoint - origin);
        if err <= cfg.completion.smartContinueWindow {
          from := prevEndpoint;
        }
      }
      var target := from + delta;
      ClearPause();
      trajectory.InitPosition(now, from, target, v, accel, decel);
      active, prevValid, prevEndpoint, onCompletion := true, true, target, oc;
      pid.Pause(false);
      pid.Reset();
    }

    method CommandForever(now: uint64, origin: int64, v: int32, accel: int32)
      requires Valid() && v > INT32_MIN
      modifies this, pid, trajectory
      ensures Valid() && View() == DriveForever(old(View()), now, origin, v, accel)
    {
      if active && trajectory.infinite {
        var t := GetRefTime(now);
        trajectory.RetargetForever(t, v, accel);
        prevValid, onCompletion := false, P.COAST;
        return;
      }
      ClearPause();
      trajectory.InitForever(now, origin, v, accel);
      active, prevValid, onCompletion := true, false, P.COAST;
      pid.Pause(false);
      pid.Reset();
    }

    method CommandHold(now: uint64, origin: int64)
      requires Valid()
      modifies this, pid, trajectory
      ensures Valid() && View() == DriveHold(old(View()), now, origin)
    {
      ClearPause();
      trajectory.InitPosition(now, origin, origin, 1, 1, 1);
      active, prevValid, onCompletion := true, false, P.HOLD;
      pid.Pause(false);
      pid.Reset();
    }

    method CommandStop(now: uint64, x: int64, oc: int)
      requires Valid()
      modifies this, pid, trajectory
      ensures Valid() && View() == Stop(old(View()), now, x, oc)
    {
      ClearPause();
      active, prevValid, onCompletion := false, false, oc;
      if oc == P.COAST || oc == P.COAST_SMART {
        pid.StopPassive();
        pid.latched, pid.latchedActuation := true, P.COAST;
      } else if oc == P.BRAKE || oc == P.BRAKE_SMART {
        pid.StopPassive();
        pid.latched, pid.latchedActuation := true, P.BRAKE;
      } else {
        CommandHold(now, x);
      }
    }

    method Tick(now: uint64, x: int64, v: int32, dtMs: uint32) returns (out: AxisOut)
      requires Valid()
      modifies this, pid
      ensures Valid() && (View(), out) == Update(old(View()), cfg, now, x, v, dtMs)
    {
      hide P.Step, Sample;
      if !active {
        ClearPause();
      }
      if !active && !pid.latched {
        return AxisOut(0, 0, P.COAST, pid.done, true, 0);
      }
      ghost var a := View();
      var r := Ref(x, 0, 0, true);
      if active {
        var t := GetRefTime(now);
        r := Sample(trajectory.View(), t);
      }
      var ffDuty := 0;
      if cfg.ff.AxisGains? && active {
        ffDuty := cfg.ff.kV * TruncDiv(r.v, 1000) + cfg.ff.kA * TruncDiv(r.a, 1000);
      }
      var i := P.Input(r.x, r.v, x, v, if dtMs != 0 then dtMs else cfg.tickMs, cfg.gains, cfg.completion,
                       ffDuty, r.done, onCompletion);
      assert i == TickInput(a, cfg, now, x, v, dtMs);
      var pout := pid.Update(i);
      var pe := r.x - x;
      if pe > INT32_MAX { pe := INT32_MAX; }
      if pe < INT32_MIN { pe := INT32_MIN; }
      out := AxisOut(pout.duty, r.v, pout.actuation, pout.done, r.done, pe);
      if active {
        var wants := WantsPause(pid.View(), r, x, v);
        SetPaused(wants, now);
      }
    }
  }
}
