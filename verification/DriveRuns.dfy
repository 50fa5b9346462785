/**
 The drivebase over whole runs of ticks: which completions stop both axes and
 what the motors see afterwards.
 */
module DriveRuns {
  import opened CArith
  import opened Profiles
  import opened Aggregate
  import opened DriveBase
  import P = PidControl

  // ----- passive propagation

  /** Both axes are inactive and latched on the same actuation. */
  ghost predicate BothLatched(b: Base, actuation: int) {
    !b.dist.active && b.dist.pid.latched && b.dist.pid.latchedActuation == actuation &&
    !b.head.active && b.head.pid.latched && b.head.pid.latchedActuation == actuation
  }

  /** The tick has let go of the whole base: both axes latched, both motors passive, all on one actuation. */
  ghost predicate LetsGo(b: Base, cmdL: MotorCmd, cmdR: MotorCmd) {
    (BothLatched(b, P.COAST) && cmdL == cmdR == Coast) || (BothLatched(b, P.BRAKE) && cmdL == cmdR == Brake)
  }

  /**
   A tick on which at least one axis turns passive and no port fault is pending
   lets go of the whole base exactly when neither axis reports COAST.  COAST is
   encoded as 0, the value the propagation variable uses for "none", so it is
   never propagated, and it masks a BRAKE on the other axis as well.
   */
  lemma PropagatesExactly(b: Base, c: BaseSettings, m: Measured)
    requires c.wheel.minMv >= 1 && !m.faultBefore && !m.faultAfter
    requires var actD, actH := UpdateDist(b, c, m).1.actuation, UpdateHead(b, c, m).1.actuation;
             actD == P.COAST || actD == P.BRAKE || actH == P.COAST || actH == P.BRAKE
    ensures var (next, cmdL, cmdR) := Tick(b, c, m);
            LetsGo(next, cmdL, cmdR) <==>
            UpdateDist(b, c, m).1.actuation != P.COAST && UpdateHead(b, c, m).1.actuation != P.COAST
  {
    hide Update, ComposeWheel, Plan;
    var (d, outD) := UpdateDist(b, c, m);
    var (h, outH) := UpdateHead(b, c, m);
    var (next, cmdL, cmdR) := Tick(b, c, m);
    if outD.actuation == P.COAST || outH.actuation == P.COAST {
      assert Propagate(outD.actuation, outH.actuation) == 0;
      assert cmdL.Duty?;
    } else {
      assert Propagate(outD.actuation, outH.actuation) == P.BRAKE;
      assert BothLatched(next, P.BRAKE) && cmdL == Brake && cmdR == Brake;
    }
  }

  function Run(b: Base, c: BaseSettings, ms: seq<Measured>): Base
    requires c.wheel.minMv >= 1
  {
    if ms == [] then b else Tick(Run(b, c, ms[..|ms| - 1]), c, ms[|ms| - 1]).0
  }

  /** A latched axis: zero duty, its latched actuation, done, and no change of its controller. */
  lemma LatchedAxisTick(a: Axis, cfg: Settings, now: nat, x: int, v: int, dtMs: uint32)
    requires a.pid.latched
    ensures var (b, out) := Update(a, cfg, now, x, v, dtMs);
            b.pid == a.pid && b.active == a.active &&
            out.duty == 0 && out.actuation == a.pid.latchedActuation && out.done &&
            (!a.active ==> out.refV == 0 && out.posErr == 0 && out.trajectoryDone)
  {
  }

  /**
   After a propagated brake, every later tick - whatever is measured, with or
   without port faults - keeps both axes latched, gives both motors the same
   passive command and reports the base done.
   */
  lemma {:induction false} BrakedForGood(b: Base, c: BaseSettings, ms: seq<Measured>)
    requires c.wheel.minMv >= 1 && BothLatched(b, P.BRAKE)
    ensures BothLatched(Run(b, c, ms), P.BRAKE)
    ensures ms != [] ==>
              var m := ms[|ms| - 1];
              var (next, cmdL, cmdR) := Tick(Run(b, c, ms[..|ms| - 1]), c, m);
              next.done && cmdL == cmdR == (if m.faultBefore then Coast else Brake)
    decreases |ms|
  {
    if ms != [] {
      BrakedForGood(b, c, ms[..|ms| - 1]);
      BrakedTick(Run(b, c, ms[..|ms| - 1]), c, ms[|ms| - 1]);
    }
  }

  lemma BrakedTick(b: Base, c: BaseSettings, m: Measured)
    requires c.wheel.minMv >= 1 && BothLatched(b, P.BRAKE)
    ensures var (next, cmdL, cmdR) := Tick(b, c, m);
            BothLatched(next, P.BRAKE) && next.done && cmdL == cmdR == (if m.faultBefore then Coast else Brake)
  {
    LatchedAxisTick(b.dist, c.dist, m.now, m.distX, m.distV, m.dtMs);
    LatchedAxisTick(b.head, c.head, m.now, m.headX, m.headV, m.dtMs);
    hide Update, ComposeWheel, Plan;
  }

  /** An explicit passive stop latches both axes whatever they were doing. */
  lemma StopLatches(b: Base, now: nat, distX: int, headX: int, oc: int)
    requires IsPassive(oc)
    ensures var s := StopBoth(b, now, distX, headX, oc);
            BothLatched(s, P.PassiveOf(oc)) && s.left == b.left && s.right == b.right
  {
  }

  /** The friction sign a wheel takes on at reference speed zero, and then keeps. */
  function IdleSign(c: WheelSettings, w: Wheel): int {
    if c.enter == 0 then 1 else if c.exit > 0 then 0 else w.signHeld
  }

  /** The friction assist has no effect on a wheel at rest: no sign, or too little of it left after the sag correction. */
  predicate Unpushed(c: WheelSettings, w: Wheel, vbat: int) {
    IdleSign(c, w) == 0 || c.kS / 2 * c.nominalMv < (if vbat < c.minMv then c.minMv else vbat)
  }

  ghost predicate SignsHeld(b: Base) {
    -1 <= b.left.signHeld <= 1 && -1 <= b.right.signHeld <= 1
  }

  /**
   After an explicit COAST stop no later tick coasts the motors again: every
   fault-free tick drives both, and a motor gets zero duty exactly when the
   friction assist has no effect on it.  The sign is fixed by the settings and
   the one held at the stop, so a motor that is pushed once is pushed on every
   tick with the same gauge reading.
   */
  lemma {:induction false} CoastStopDutyExactly(b: Base, c: BaseSettings, ms: seq<Measured>)
    requires InRange(c.wheel) && SignsHeld(b) && BothLatched(b, P.COAST)
    ensures var e := Run(b, c, ms);
            BothLatched(e, P.COAST) && SignsHeld(e) &&
            IdleSign(c.wheel, e.left) == IdleSign(c.wheel, b.left) && IdleSign(c.wheel, e.right) == IdleSign(c.wheel, b.right)
    ensures ms != [] && !ms[|ms| - 1].faultBefore && !ms[|ms| - 1].faultAfter ==>
              var m := ms[|ms| - 1];
              var (next, cmdL, cmdR) := Tick(Run(b, c, ms[..|ms| - 1]), c, m);
              next.done && cmdL.Duty? && cmdR.Duty? &&
              (cmdL == Duty(0) <==> Unpushed(c.wheel, b.left, m.vbat)) &&
              (cmdR == Duty(0) <==> Unpushed(c.wheel, b.right, m.vbat))
    decreases |ms|
  {
    if ms != [] {
      CoastStopDutyExactly(b, c, ms[..|ms| - 1]);
      CoastedTick(Run(b, c, ms[..|ms| - 1]), c, ms[|ms| - 1]);
      hide Tick, BothLatched, IdleSign;
    }
  }

  lemma CoastedTick(b: Base, c: BaseSettings, m: Measured)
    requires InRange(c.wheel) && SignsHeld(b) && BothLatched(b, P.COAST)
    ensures var (next, cmdL, cmdR) := Tick(b, c, m);
            BothLatched(next, P.COAST) && next.done && SignsHeld(next) &&
            IdleSign(c.wheel, next.left) == IdleSign(c.wheel, b.left) &&
            IdleSign(c.wheel, next.right) == IdleSign(c.wheel, b.right) &&
            (!m.faultBefore && !m.faultAfter ==>
               cmdL.Duty? && cmdR.Duty? &&
               (cmdL == Duty(0) <==> Unpushed(c.wheel, b.left, m.vbat)) &&
               (cmdR == Duty(0) <==> Unpushed(c.wheel, b.right, m.vbat)))
  {
    LatchedAxisTick(b.dist, c.dist, m.now, m.distX, m.distV, m.dtMs);
    LatchedAxisTick(b.head, c.head, m.now, m.headX, m.headV, m.dtMs);
    IdleWheel(c.wheel, b.left, m.vbat);
    IdleWheel(c.wheel, b.right, m.vbat);
    hide Update, ComposeWheel, Plan, IdleSign, Unpushed;
  }

  lemma IdleWheel(c: WheelSettings, w: Wheel, vbat: int)
    requires InRange(c) && -1 <= w.signHeld <= 1
    ensures var (next, duty) := ComposeWheel(c, w, 0, 0, 0, true, vbat);
            next.signHeld == IdleSign(c, w) && IdleSign(c, next) == IdleSign(c, w) &&
            -DUTY_MAX <= duty <= DUTY_MAX && (duty == 0 <==> Unpushed(c, w, vbat))
  {
    IdleStep(c, w, vbat);
    CorrectedZero(c, IdleSign(c, w), c.kS / 2, vbat);
    hide ComposeWheel, Corrected;
  }

  lemma IdleStep(c: WheelSettings, w: Wheel, vbat: int)
    requires InRange(c) && -1 <= w.signHeld <= 1
    ensures -1 <= IdleSign(c, w) <= 1
    ensures ComposeWheel(c, w, 0, 0, 0, true, vbat) == (w.(signHeld := IdleSign(c, w)), Corrected(c, IdleSign(c, w) * (c.kS / 2), vbat))
           || ComposeWheel(c, w, 0, 0, 0, true, vbat) == (w.(signHeld := IdleSign(c, w), consumed := true), Corrected(c, IdleSign(c, w) * (c.kS / 2), vbat))
  {
    var half := c.kS / 2;
    assert Rearmed(c, w, 0, true) == w.(signHeld := IdleSign(c, w));
    assert Abs(IdleSign(c, w) * half) == Abs(IdleSign(c, w)) * half <= DUTY_MAX;
    hide Corrected;
  }

  /** A push of the given sign and size survives the sag correction unless the gauge reads more than it amounts to. */
  lemma CorrectedZero(c: WheelSettings, sign: int, half: nat, vbat: int)
    requires c.minMv >= 1 && -1 <= sign <= 1
    ensures var duty := Corrected(c, sign * half, vbat);
            -DUTY_MAX <= duty <= DUTY_MAX &&
            (duty == 0 <==> sign == 0 || half * c.nominalMv < (if vbat < c.minMv then c.minMv else vbat))
  {
    var mv := if vbat < c.minMv then c.minMv else vbat;
    var n := (sign * half) * c.nominalMv;
    assert Abs(n) == if sign == 0 then 0 else half * c.nominalMv;
    TruncDivZero(n, mv);
    hide TruncDiv;
  }

  lemma TruncDivZero(n: int, d: int)
    requires d > 0
    ensures TruncDiv(n, d) == 0 <==> Abs(n) < d
  {
    FloorDiv(Abs(n), d);
  }

  /** With an entry threshold of zero, which the settings accept, a stopped robot drives off. */
  lemma CoastStopDrivesOff(b: Base, now: nat, distX: int, headX: int, m: Measured)
    requires SignsHeld(b) && !m.faultBefore && !m.faultAfter && m.vbat == 7200
    ensures var c := BASE_CFG.(wheel := WheelSettings(1000, 0, 1000, 0, 7200, 6000));
            var (next, cmdL, cmdR) := Tick(StopBoth(b, now, distX, headX, P.COAST), c, m);
            InRange(c.wheel) && next.done && cmdL == cmdR == Duty(500)
  {
    var c := BASE_CFG.(wheel := WheelSettings(1000, 0, 1000, 0, 7200, 6000));
    var s := StopBoth(b, now, distX, headX, P.COAST);
    StopLatches(b, now, distX, headX, P.COAST);
    CoastedTick(s, c, m);
    LatchedAxisTick(s.dist, c.dist, m.now, m.distX, m.distV, m.dtMs);
    LatchedAxisTick(s.head, c.head, m.now, m.headX, m.headV, m.dtMs);
    assert ComposeWheel(c.wheel, b.left, 0, 0, 0, true, 7200).1 == 500;
    assert ComposeWheel(c.wheel, b.right, 0, 0, 0, true, 7200).1 == 500;
    hide Update, ComposeWheel, StopBoth;
  }

  /** What an explicit stop in any passive mode makes of every later fault-free tick. */
  lemma ExplicitStop(b: Base, c: BaseSettings, now: nat, distX: int, headX: int, oc: int, ms: seq<Measured>)
    requires InRange(c.wheel) && SignsHeld(b) && IsPassive(oc)
    requires ms != [] && !ms[|ms| - 1].faultBefore && !ms[|ms| - 1].faultAfter
    ensures var m := ms[|ms| - 1];
            var (next, cmdL, cmdR) := Tick(Run(StopBoth(b, now, distX, headX, oc), c, ms[..|ms| - 1]), c, m);
            next.done &&
            if oc == P.BRAKE || oc == P.BRAKE_SMART then cmdL == cmdR == Brake
            else (cmdL == Duty(0) <==> Unpushed(c.wheel, b.left, m.vbat)) &&
                 (cmdR == Duty(0) <==> Unpushed(c.wheel, b.right, m.vbat))
  {
    StopLatches(b, now, distX, headX, oc);
    var s := StopBoth(b, now, distX, headX, oc);
    hide StopBoth, BothLatched, Run, Tick, Unpushed;
    if P.PassiveOf(oc) == P.BRAKE { BrakedForGood(s, c, ms); } else { CoastStopDutyExactly(s, c, ms); }
  }

  /**
   When one axis has coasted out on its own the other one keeps running: its
   controller is not stopped, stays active, and its duty alone still drives
   both wheels in opposite directions.
   */
  lemma CoastLeavesHeadingDriving(b: Base, c: BaseSettings, m: Measured)
    requires c.wheel.minMv >= 1 && !m.faultBefore
    requires b.dist.pid.latched && b.dist.pid.latchedActuation == P.COAST && b.head.active
    ensures var (next, cmdL, cmdR) := Tick(b, c, m);
            var (h, outH) := UpdateHead(b, c, m);
            next.head == h && next.head.active && next.done == outH.done &&
            (!m.faultAfter ==> cmdL.Duty? && cmdR.Duty?)
  {
    LatchedAxisTick(b.dist, c.dist, m.now, m.distX, m.distV, m.dtMs);
    TickKeepsActive(b.head, c.head, m.now, m.headX, m.headV, m.dtMs);
    hide Update, ComposeWheel, Plan;
  }

  lemma TickKeepsActive(a: Axis, cfg: Settings, now: nat, x: int, v: int, dtMs: uint32)
    ensures Update(a, cfg, now, x, v, dtMs).0.active == a.active
  {
  }

  const HEAD_GAINS: P.Gains := P.Gains(50, 0, 0, 0, 0, 3000, -8000, 8000)
  const COMPLETION: P.Completion := P.Completion(8000, 30000, 6000, 50, 100)
  const AXIS_CFG: Settings := Settings(HEAD_GAINS, COMPLETION, NoFeedForward, 5)
  const BASE_CFG: BaseSettings := BaseSettings(AXIS_CFG, AXIS_CFG, WheelSettings(0, 2000, 1000, 0, 7200, 6000))

  /** No tick ever commands more than full duty. */
  lemma DutyBounded(b: Base, c: BaseSettings, m: Measured)
    requires c.wheel.minMv >= 1
    ensures var (next, cmdL, cmdR) := Tick(b, c, m);
            (cmdL.Duty? ==> Abs(cmdL.d) <= DUTY_MAX) && (cmdR.Duty? ==> Abs(cmdR.d) <= DUTY_MAX)
  {
    hide Update, ComposeWheel, Plan;
  }
}
