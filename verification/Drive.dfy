/**
 The two-wheel drivebase (apps/drivebase/drivebase_drivebase.c): two aggregate
 axes, the propagation of passive actuations between them, and the compose of
 their duties into two wheels with friction assist and terminal breakaway.
 */
module DriveBase {
  import opened CArith
  import opened Profiles
  import opened Aggregate
  import P = PidControl

  const BREAKAWAY_ERR_DEADBAND: int := 3000
  const DUTY_MAX: int := 10000
  const STRETCH_RATIO_THRESHOLD_MIL: int := 1500

  /** db_ff_motor_friction_s and db_battery_settings_s with their configured ranges. */
  datatype WheelSettings = WheelSettings(kS: nat, enter: nat, exit: nat, floor: nat, nominalMv: nat, minMv: nat)

  ghost predicate InRange(c: WheelSettings) {
    c.kS <= 1000 && c.floor <= 3000 && 1 <= c.nominalMv <= 12000 && 1 <= c.minMv <= 12000
  }

  /** db_ff_state_s. */
  datatype Wheel = Wheel(signHeld: int, consumed: bool, episode: int)

  /** What a motor is told last in a tick. */
  datatype MotorCmd = Duty(d: int) | Coast | Brake

  // ----- one wheel

  /** ff_sign_with_hysteresis. */
  function FfSign(v: int, prev: int, enter: int, exit: int): int {
    if v >= enter then 1 else if v <= -enter then -1 else if Abs(v) < exit then 0 else prev
  }

  /** The side of the target a wheel is on, with the deadband in the middle. */
  function ErrSide(err: int): int {
    if err > BREAKAWAY_ERR_DEADBAND then 1 else if err < -BREAKAWAY_ERR_DEADBAND then -1 else 0
  }

  /** apply_breakaway_floor. */
  function Breakaway(floor: int, w: Wheel, pre: int, err: int, trajDone: bool): (Wheel, int) {
    var s := ErrSide(err);
    if floor == 0 || !trajDone || w.consumed then (w, pre)
    else if s == 0 then (if w.episode != 0 then w.(consumed := true) else w, pre)
    else if w.episode != 0 && s != w.episode then (w.(consumed := true), pre)
    else if (s > 0 && pre < 0) || (s < 0 && pre > 0) then (w, pre)
    else if s > 0 && pre < floor then (w.(episode := s), floor)
    else if s < 0 && pre > -floor then (w.(episode := s), -floor)
    else (w, pre)
  }

  /** Battery sag correction with the gauge reading clamped from below. */
  function Corrected(c: WheelSettings, duty: int, vbat: int): int
    requires c.minMv >= 1
  {
    Clamp(TruncDiv(duty * c.nominalMv, if vbat < c.minMv then c.minMv else vbat), -DUTY_MAX, DUTY_MAX)
  }

  /** A wheel's state once the hysteresis sign is renewed and, while the move is under way, its episode re-armed. */
  function Rearmed(c: WheelSettings, w: Wheel, vRef: int, trajDone: bool): Wheel {
    var s := FfSign(vRef, w.signHeld, c.enter, c.exit);
    if trajDone then w.(signHeld := s) else Wheel(s, false, 0)
  }

  /** Steps 6 and following of db_drivebase_update for one wheel. */
  function ComposeWheel(c: WheelSettings, w: Wheel, base: int, vRef: int, err: int, trajDone: bool, vbat: int): (Wheel, int)
    requires c.minMv >= 1
  {
    var armed := Rearmed(c, w, vRef, trajDone);
    var (next, raised) := Breakaway(c.floor, armed, base + armed.signHeld * (c.kS / 2), err, trajDone);
    (next, Corrected(c, Clamp(raised, -DUTY_MAX, DUTY_MAX), vbat))
  }

  // ----- the tick

  /** The controlled part of db_drivebase_s. */
  datatype Base = Base(dist: Axis, head: Axis, left: Wheel, right: Wheel, done: bool)

  /** The settings of a drivebase. */
  datatype BaseSettings = BaseSettings(dist: Settings, head: Settings, wheel: WheelSettings)

  /**
   What a tick finds: clock, aggregate state, battery gauge, and whether a port
   fault is pending before and after the motors were driven.
   */
  datatype Measured = Measured(now: uint64, distX: int64, distV: int32, headX: int64, headV: int32,
                               dtMs: uint32, vbat: int32, faultBefore: bool, faultAfter: bool)

  /** The propagation decision of lines 1064-1074; zero doubles as "none". */
  function Propagate(actD: int, actH: int): int {
    if actD == P.COAST || actH == P.COAST then P.COAST
    else if actD == P.BRAKE || actH == P.BRAKE then P.BRAKE
    else 0
  }

  /** db_servo_apply's choice of motor command. */
  function MotorCommand(duty: int, actuation: int): MotorCmd {
    if actuation == P.COAST || actuation == P.COAST_SMART then Coast
    else if actuation == P.BRAKE || actuation == P.BRAKE_SMART then Brake
    else Duty(Clamp(duty, -DUTY_MAX, DUTY_MAX))
  }

  /** Step 6: both wheels composed from the two axes' outputs. */
  function ComposeBoth(b: Base, c: WheelSettings, outD: AxisOut, outH: AxisOut, m: Measured): (Base, MotorCmd, MotorCmd)
    requires c.minMv >= 1
  {
    var trajDone := outD.trajectoryDone && outH.trajectoryDone;
    var (l, dutyL) := ComposeWheel(c, b.left, outD.duty - outH.duty, outD.refV - outH.refV,
                                   outD.posErr - outH.posErr, trajDone, m.vbat);
    var (r, dutyR) := ComposeWheel(c, b.right, outD.duty + outH.duty, outD.refV + outH.refV,
                                   outD.posErr + outH.posErr, trajDone, m.vbat);
    (b.(left := l, right := r),
     if m.faultAfter then Coast else MotorCommand(dutyL, P.HOLD),
     if m.faultAfter then Coast else MotorCommand(dutyR, P.HOLD))
  }

  /** Steps 5 and 6, given what the two updated axes put out. */
  function Actuate(b: Base, c: WheelSettings, outD: AxisOut, outH: AxisOut, m: Measured): (Base, MotorCmd, MotorCmd)
    requires c.minMv >= 1
  {
    var p := Propagate(outD.actuation, outH.actuation);
    if m.faultBefore then (b, Coast, Coast)
    else if p != 0 then (StopBoth(b, m.now, m.distX, m.headX, p), MotorCommand(0, p), MotorCommand(0, p))
    else ComposeBoth(b, c, outD, outH, m)
  }

  function UpdateDist(b: Base, c: BaseSettings, m: Measured): (Axis, AxisOut) {
    Update(b.dist, c.dist, m.now, m.distX, m.distV, m.dtMs)
  }

  function UpdateHead(b: Base, c: BaseSettings, m: Measured): (Axis, AxisOut) {
    Update(b.head, c.head, m.now, m.headX, m.headV, m.dtMs)
  }

  /** Steps 4 to 7 of db_drivebase_update: next state and the last command to each motor. */
  function Tick(b: Base, c: BaseSettings, m: Measured): (Base, MotorCmd, MotorCmd)
    requires c.wheel.minMv >= 1
  {
    var (d, outD) := UpdateDist(b, c, m);
    var (h, outH) := UpdateHead(b, c, m);
    Actuate(Base(d, h, b.left, b.right, outD.done && outH.done), c.wheel, outD, outH, m)
  }

  /** db_drivebase_stop: both axes, and the motors at once unless the stop is a hold. */
  function StopBoth(b: Base, now: nat, distX: int, headX: int, oc: int): Base {
    b.(dist := Stop(b.dist, now, distX, oc), head := Stop(b.head, now, headX, oc))
  }

  /** Lines 846-898 of db_drivebase_drive_curve: stretch the shorter of two plans to the longer one's duration. */
  function Equalised(d: Profile, h: Profile): (Profile, Profile) {
    if d.totalDt > h.totalDt && !TooClose(d.totalDt, h.totalDt) then (d, Stretch(h, d.totalDt).1)
    else if h.totalDt > d.totalDt && !TooClose(h.totalDt, d.totalDt) then (Stretch(d, h.totalDt).1, h)
    else (d, h)
  }

  predicate TooClose(longer: nat, shorter: nat) {
    shorter > 0 && longer * 1000 < shorter * STRETCH_RATIO_THRESHOLD_MIL
  }

  // ----- the objects

  class WheelState {
    var signHeld: int
    var consumed: bool
    var episode: int

    function View(): Wheel
      reads this
    {
      Wheel(signHeld, consumed, episode)
    }

    constructor ()
      ensures View() == Wheel(0, false, 0)
    {
      signHeld, consumed, episode := 0, false, 0;
    }

    method ApplyBreakawayFloor(floor: int, pre: int, err: int, trajDone: bool) returns (duty: int)
      modifies this
      ensures (View(), duty) == Breakaway(floor, old(View()), pre, err, trajDone)
    {
      if floor == 0 || !trajDone || consumed {
        return pre;
      }
      var s := ErrSide(err);
      if s == 0 {
        if episode != 0 {
          consumed := true;
        }
        return pre;
      }
      if episode != 0 && s != episode {
        consumed := true;
        return pre;
      }
      if (s > 0 && pre < 0) || (s < 0 && pre > 0) {
        return pre;
      }
      if s > 0 && pre < floor {
        episode := s;
        return floor;
      }
      if s < 0 && pre > -floor {
        episode := s;
        return -floor;
      }
      return pre;
    }

    method Compose(c: WheelSettings, base: int, vRef: int, err: int, trajDone: bool, vbat: int32) returns (duty: int)
      requires c.minMv >= 1
      modifies this
      ensures (View(), duty) == ComposeWheel(c, old(View()), base, vRef, err, trajDone, vbat)
    {
      signHeld := FfSign(vRef, signHeld, c.enter, c.exit);
      var cmd := base + signHeld * (c.kS / 2);
      if !trajDone {
        consumed := false;
        episode := 0;
      }
      var raised := ApplyBreakawayFloor(c.floor, cmd, err, trajDone);
      var pre := Clamp(raised, -DUTY_MAX, DUTY_MAX);
      var mv := vbat;
      if mv < c.minMv {
        mv := c.minMv;
      }
      duty := Clamp(TruncDiv(pre * c.nominalMv, mv), -DUTY_MAX, DUTY_MAX);
    }
  }

  class Drivebase {
    const cfg: BaseSettings
    const dist: AggregateControl
    const head: AggregateControl
    const left: WheelState
    const right: WheelState
    var done: bool

    predicate Valid()
      reads this, dist, dist.trajectory, head, head.trajectory
    {
      dist.Valid() && head.Valid() && dist != head && dist.pid != head.pid && dist.trajectory != head.trajectory &&
      left != right && dist.cfg == cfg.dist && head.cfg == cfg.head && cfg.wheel.minMv >= 1
    }

    function View(): Base
      reads this, dist, dist.pid, dist.trajectory, head, head.pid, head.trajectory, left, right
    {
      Base(dist.View(), head.View(), left.View(), right.View(), done)
    }

    constructor (cfg: BaseSettings)
      requires cfg.wheel.minMv >= 1
      ensures Valid() && this.cfg == cfg && !done
    {
      this.cfg := cfg;
      dist := new AggregateControl(cfg.dist);
      head := new AggregateControl(cfg.head);
      left := new WheelState();
      right := new WheelState();
      done := false;
    }

    method UpdateTick(m: Measured) returns (cmdL: MotorCmd, cmdR: MotorCmd)
      requires Valid()
      modifies this, dist, dist.pid, dist.trajectory, head, head.pid, head.trajectory, left, right
      ensures Valid() && (View(), cmdL, cmdR) == Tick(old(View()), cfg, m)
    {
      hide Actuate, Update;
      var outD := dist.Tick(m.now, m.distX, m.distV, m.dtMs);
      var outH := head.Tick(m.now, m.headX, m.headV, m.dtMs);
      assert (dist.View(), outD) == UpdateDist(old(View()), cfg, m);
      assert (head.View(), outH) == UpdateHead(old(View()), cfg, m);
      done := outD.done && outH.done;
      cmdL, cmdR := ActuateMotors(outD, outH, m);
    }

    method ActuateMotors(outD: AxisOut, outH: AxisOut, m: Measured) returns (cmdL: MotorCmd, cmdR: MotorCmd)
      requires Valid()
      modifies this, dist, dist.pid, dist.trajectory, head, head.pid, head.trajectory, left, right
      ensures Valid() && (View(), cmdL, cmdR) == Actuate(old(View()), cfg.wheel, outD, outH, m)
    {
      var propagate := 0;
      if outD.actuation == P.COAST || outH.actuation == P.COAST {
        propagate := P.COAST;
      } else if outD.actuation == P.BRAKE || outH.actuation == P.BRAKE {
        propagate := P.BRAKE;
      }
      if m.faultBefore {
        cmdL, cmdR := MotorCommand(0, P.COAST), MotorCommand(0, P.COAST);
      } else if propagate != 0 {
        StopAxes(m.now, m.distX, m.headX, propagate);
        cmdL, cmdR := MotorCommand(0, propagate), MotorCommand(0, propagate);
      } else {
        cmdL, cmdR := Compose(outD, outH, m);
      }
    }

    method Compose(outD: AxisOut, outH: AxisOut, m: Measured) returns (cmdL: MotorCmd, cmdR: MotorCmd)
      requires Valid()
      modifies left, right
      ensures Valid() && (View(), cmdL, cmdR) == ComposeBoth(old(View()), cfg.wheel, outD, outH, m)
    {
      hide ComposeWheel;
      var trajDone := outD.trajectoryDone && outH.trajectoryDone;
      var dutyL := left.Compose(cfg.wheel, outD.duty - outH.duty, outD.refV - outH.refV,
                                outD.posErr - outH.posErr, trajDone, m.vbat);
      var dutyR := right.Compose(cfg.wheel, outD.duty + outH.duty, outD.refV + outH.refV,
                                 outD.posErr + outH.posErr, trajDone, m.vbat);
      cmdL, cmdR := MotorCommand(dutyL, P.HOLD), MotorCommand(dutyR, P.HOLD);
      if m.faultAfter {
        cmdL, cmdR := MotorCommand(0, P.COAST), MotorCommand(0, P.COAST);
      }
    }

    method StopAxes(now: uint64, distX: int64, headX: int64, oc: int)
      requires Valid()
      modifies this, dist, dist.pid, dist.trajectory, head, head.pid, head.trajectory
      ensures Valid() && View() == StopBoth(old(View()), now, distX, headX, oc)
    {
      dist.CommandStop(now, distX, oc);
      head.CommandStop(now, headX, oc);
    }

    /** db_drivebase_stop; `cmd` is what both motors are told at once, and nothing on a hold. */
    method StopNow(now: uint64, distX: int64, headX: int64, oc: int) returns (touched: bool, cmd: MotorCmd)
      requires Valid()
      modifies this, dist, dist.pid, dist.trajectory, head, head.pid, head.trajectory
      ensures Valid() && View() == StopBoth(old(View()), now, distX, headX, oc)
      ensures touched == IsPassive(oc)
      ensures touched ==> cmd == if P.PassiveOf(oc) == P.BRAKE then Brake else Coast
    {
      StopAxes(now, distX, headX, oc);
      if oc == P.COAST || oc == P.COAST_SMART {
        touched, cmd := true, MotorCommand(0, P.COAST);
      } else if oc == P.BRAKE || oc == P.BRAKE_SMART {
        touched, cmd := true, MotorCommand(0, P.BRAKE);
      } else {
        touched, cmd := false, Coast;
      }
    }

    /** The tail of drive_curve, on the two plans just made. */
    method EqualiseDurations()
      requires Valid() && dist.trajectory.totalDt <= UINT64_MAX && head.trajectory.totalDt <= UINT64_MAX
      modifies dist.trajectory, head.trajectory
      ensures Valid()
      ensures (dist.trajectory.View(), head.trajectory.View())
           == Equalised(old(dist.trajectory.View()), old(head.trajectory.View()))
    {
      var d, h := dist.trajectory.totalDt, head.trajectory.totalDt;
      if d > h {
        if h > 0 && d * 1000 < h * STRETCH_RATIO_THRESHOLD_MIL {
          return;
        }
        var rc := head.trajectory.StretchToTotal(d);
      } else if h > d {
        if d > 0 && h * 1000 < d * STRETCH_RATIO_THRESHOLD_MIL {
          return;
        }
        var rc := dist.trajectory.StretchToTotal(h);
      }
    }
  }
}
