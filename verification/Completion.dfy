/**
 What a straight or turn command comes to, over every fault-free run: the whole
 base is braked exactly when its input history lets go in a braking mode, and
 in every other mode the motors are never let go of.
 */
module Completions {
  import opened CArith
  import opened Profiles
  import opened Aggregate
  import opened DriveBase
  import opened DriveRuns
  import opened Curves
  import P = PidControl
  import H = PidRuns
  import Envelope

  /** A straight or, on the heading axis, a turn (setup_position_move). */
  datatype Move = Move(turn: bool, now: uint64, distX: int, headX: int, delta: int,
                       v: int32, accel: int32, decel: int32, oc: int)

  function Commanded(b: Base, c: BaseSettings, mv: Move): Base {
    if mv.turn then
      b.(dist := DriveHold(b.dist, mv.now, mv.distX),
         head := DrivePosition(b.head, c.head, mv.now, mv.headX, mv.delta, mv.v, mv.accel, mv.decel, mv.oc))
    else
      b.(dist := DrivePosition(b.dist, c.dist, mv.now, mv.distX, mv.delta, mv.v, mv.accel, mv.decel, mv.oc),
         head := DriveHold(b.head, mv.now, mv.headX))
  }

  /** The axis that moves, and the one that holds. */
  function Main(b: Base, turn: bool): Axis {
    if turn then b.head else b.dist
  }

  function Other(b: Base, turn: bool): Axis {
    if turn then b.dist else b.head
  }

  function MainCfg(c: BaseSettings, turn: bool): Settings {
    if turn then c.head else c.dist
  }

  /** What the tick feeds the moving axis' controller. */
  function MainInput(b: Base, c: BaseSettings, turn: bool, m: Measured): P.Input {
    if turn then TickInput(b.head, c.head, m.now, m.headX, m.headV, m.dtMs)
    else TickInput(b.dist, c.dist, m.now, m.distX, m.distV, m.dtMs)
  }

  /** The input history of the moving axis over a run. */
  function Inputs(b: Base, c: BaseSettings, turn: bool, ms: seq<Measured>): seq<P.Input>
    requires c.wheel.minMv >= 1
  {
    if ms == [] then []
    else
      var before := ms[..|ms| - 1];
      Inputs(b, c, turn, before) + [MainInput(Run(b, c, before), c, turn, ms[|ms| - 1])]
  }

  ghost predicate FaultFree(ms: seq<Measured>) {
    forall m :: m in ms ==> !m.faultBefore && !m.faultAfter
  }

  /** Ticks short enough for the two 32-bit millisecond counters. */
  ghost predicate ShortTicks(ms: seq<Measured>, s: Settings) {
    forall m :: m in ms ==>
      var dt := if m.dtMs != 0 then m.dtMs else s.tickMs;
      dt <= UINT32_MOD - s.completion.doneWindowMs && dt <= UINT32_MOD - s.completion.smartPassiveHoldMs
  }

  predicate Brakes(oc: int) {
    oc == P.BRAKE || oc == P.BRAKE_SMART
  }

  /** Both axes still controlled: the moving one by its input history, the other by a hold. */
  ghost predicate UnderWay(b: Base, c: BaseSettings, turn: bool, oc: int, ins: seq<P.Input>) {
    Main(b, turn).active && Main(b, turn).onCompletion == oc && Main(b, turn).pid == H.RunState(P.FRESH, ins) &&
    H.OneMove(ins, MainCfg(c, turn).completion, oc) &&
    Other(b, turn).active && Other(b, turn).onCompletion == P.HOLD && !Other(b, turn).pid.latched
  }

  /** A tick of an active axis is one controller update. */
  lemma ActiveAxisTick(a: Axis, cfg: Settings, now: nat, x: int, v: int, dtMs: uint32)
    requires a.active
    ensures var (n, out) := Update(a, cfg, now, x, v, dtMs);
            var (pid, o) := P.Step(a.pid, TickInput(a, cfg, now, x, v, dtMs));
            n.active && n.onCompletion == a.onCompletion && n.pid == pid && out.actuation == o.actuation
  {
    hide P.Step;
  }

  /** A holding axis keeps driving. */
  lemma HoldingAxisTick(a: Axis, cfg: Settings, now: nat, x: int, v: int, dtMs: uint32)
    requires a.active && a.onCompletion == P.HOLD && !a.pid.latched
    ensures var (n, out) := Update(a, cfg, now, x, v, dtMs);
            n.active && n.onCompletion == P.HOLD && !n.pid.latched && out.actuation == P.HOLD
  {
    ActiveAxisTick(a, cfg, now, x, v, dtMs);
    hide Update, TickInput;
  }

  /** A fault-free tick in terms of what the two axes report. */
  lemma TickByActuations(b: Base, c: BaseSettings, m: Measured)
    requires c.wheel.minMv >= 1 && !m.faultBefore && !m.faultAfter
    ensures var actD, actH := UpdateDist(b, c, m).1.actuation, UpdateHead(b, c, m).1.actuation;
            var (next, cmdL, cmdR) := Tick(b, c, m);
            (Propagate(actD, actH) == P.BRAKE ==> BothLatched(next, P.BRAKE) && cmdL == cmdR == Brake) &&
            (Propagate(actD, actH) == 0 ==>
               next.dist == UpdateDist(b, c, m).0 && next.head == UpdateHead(b, c, m).0 && cmdL.Duty? && cmdR.Duty?)
  {
    hide Update, ComposeWheel, Plan;
  }

  /** One more tick of a move that is still under way. */
  lemma UnderWayTick(b: Base, c: BaseSettings, turn: bool, oc: int, ins: seq<P.Input>, m: Measured)
    requires c.wheel.minMv >= 1 && FaultFree([m]) && ShortTicks([m], MainCfg(c, turn)) && UnderWay(b, c, turn, oc, ins)
    ensures var now := ins + [MainInput(b, c, turn, m)];
            var (next, cmdL, cmdR) := Tick(b, c, m);
            if Brakes(oc) && H.HasLetGo(now) then BothLatched(next, P.BRAKE) && cmdL == cmdR == Brake
            else UnderWay(next, c, turn, oc, now) && cmdL.Duty? && cmdR.Duty?
  {
    var i := MainInput(b, c, turn, m);
    var now := ins + [i];
    assert m in [m];
    assert H.OneMove(now, MainCfg(c, turn).completion, oc) by {
      assert i.completion == MainCfg(c, turn).completion && i.onCompletion == oc;
    }
    assert now[..|now| - 1] == ins;
    assert H.RunState(P.FRESH, now) == P.Step(H.RunState(P.FRESH, ins), i).0;
    assert H.LastOutput(P.FRESH, now) == P.Step(H.RunState(P.FRESH, ins), i).1;
    H.OutputExactly(now, MainCfg(c, turn).completion, oc);
    PassiveOfMode(now, oc);
    if turn {
      ActiveAxisTick(b.head, c.head, m.now, m.headX, m.headV, m.dtMs);
      HoldingAxisTick(b.dist, c.dist, m.now, m.distX, m.distV, m.dtMs);
    } else {
      ActiveAxisTick(b.dist, c.dist, m.now, m.distX, m.distV, m.dtMs);
      HoldingAxisTick(b.head, c.head, m.now, m.headX, m.headV, m.dtMs);
    }
    hide Tick, Update, TickInput, BothLatched, P.Step, H.RunState, H.HasLetGo, H.OneMove, H.LastOutput;
    TickByActuations(b, c, m);
  }

  lemma PassiveOfMode(ins: seq<P.Input>, oc: int)
    ensures H.HasLetGo(ins) && Brakes(oc) ==> P.PassiveOf(oc) == P.BRAKE
    ensures !Brakes(oc) ==> P.PassiveOf(oc) == P.COAST
  {
  }

  /**
   The command's completion mode decides, end to end: over every fault-free run
   the base brakes both motors from the tick on whose history lets go - see
   PidRuns.HasLetGo - if and only if the mode is BRAKE or BRAKE_SMART.  In every
   other mode, COAST and COAST_SMART included, both axes stay active and every
   tick drives both motors.
   */
  lemma {:induction false} CompletionExactly(b: Base, c: BaseSettings, mv: Move, ms: seq<Measured>)
    requires c.wheel.minMv >= 1 && FaultFree(ms) && ShortTicks(ms, MainCfg(c, mv.turn))
    ensures var s := Commanded(b, c, mv);
            var ins := Inputs(s, c, mv.turn, ms);
            if Brakes(mv.oc) && H.HasLetGo(ins) then BothLatched(Run(s, c, ms), P.BRAKE)
            else UnderWay(Run(s, c, ms), c, mv.turn, mv.oc, ins)
    ensures ms != [] ==>
              var s := Commanded(b, c, mv);
              var (next, cmdL, cmdR) := Tick(Run(s, c, ms[..|ms| - 1]), c, ms[|ms| - 1]);
              if Brakes(mv.oc) && H.HasLetGo(Inputs(s, c, mv.turn, ms)) then cmdL == cmdR == Brake
              else cmdL.Duty? && cmdR.Duty?
    decreases |ms|
  {
    var s := Commanded(b, c, mv);
    if ms == [] {
      NothingYet(b, c, mv);
    } else {
      var before, m := ms[..|ms| - 1], ms[|ms| - 1];
      assert m in ms && forall x :: x in before ==> x in ms;
      CompletionExactly(b, c, mv, before);
      hide Commanded, Tick, UnderWay, BothLatched, H.HasLetGo, MainInput;
      var ins, now := Inputs(s, c, mv.turn, before), Inputs(s, c, mv.turn, ms);
      assert now[..|now| - 1] == ins;
      H.HasLetGoStep(now);
      if Brakes(mv.oc) && H.HasLetGo(ins) {
        BrakedTick(Run(s, c, before), c, m);
      } else {
        UnderWayTick(Run(s, c, before), c, mv.turn, mv.oc, ins, m);
      }
    }
  }

  lemma NothingYet(b: Base, c: BaseSettings, mv: Move)
    ensures UnderWay(Commanded(b, c, mv), c, mv.turn, mv.oc, []) && !H.HasLetGo([])
  {
    hide Plan;
  }

  // ----- a coasted robot

  const NO_PROFILE: Profile := Profile(0, 0, 0, 0, 0, 0, 0, false, 0, 0, 0, 0, 0, 0)
  const RESET_AXIS: Axis := Axis(P.FRESH, NO_PROFILE, false, false, 0, P.COAST, false, 0, 0)
  const RESET_BASE: Base := Base(RESET_AXIS, RESET_AXIS, Wheel(0, false, 0), Wheel(0, false, 0), false)

  const FIVE_SECONDS: nat := 5_000_000

  /** A straight move of one wheel turn at 500 deg/s. */
  const ONE_TURN: Move := Move(false, FIVE_SECONDS, 0, 0, 360_000, CURVE_V, CURVE_A, CURVE_A, P.COAST)

  /** The k-th tick after its end, with the robot exactly where it should be. */
  function OnTarget(k: nat): Measured
    requires k <= 10
  {
    Measured(ONE_TURN.now + 1_220_000 + 5000 * k, 360_000, 0, 0, 0, 5, 7200, false, false)
  }

  function Settling(n: nat): (ms: seq<Measured>)
    requires n <= 10
    ensures |ms| == n
  {
    if n == 0 then [] else Settling(n - 1) + [OnTarget(n - 1)]
  }

  /** The controller after k ticks of 5 ms in tolerance. */
  function SettledPid(k: nat): P.State {
    P.FRESH.(doneStreakMs := if k < 10 then 5 * k else 50, done := k >= 10)
  }

  function SettledBase(k: nat): Base {
    var s := Commanded(RESET_BASE, BASE_CFG, ONE_TURN);
    var d := if k < 10 then SettledPid(k) else P.Latch(SettledPid(k), P.COAST);
    s.(dist := s.dist.(pid := d), head := s.head.(pid := SettledPid(k)), done := k >= 10)
  }

  /** A controller at rest on its target. */
  lemma SettleStep(i: P.Input, k: nat)
    requires k < 10 && i.refX == i.actX && i.refV == i.actV && i.dtMs == 5 && i.dutyFf == 0 && i.trajectoryDone
    requires i.gains == HEAD_GAINS && i.completion == COMPLETION && (i.onCompletion == P.HOLD || i.onCompletion == P.COAST)
    ensures k == 9 && i.onCompletion == P.COAST ==>
              P.Step(SettledPid(k), i) == (P.Latch(SettledPid(k + 1), P.COAST), P.Output(0, P.COAST, true))
    ensures k < 9 || i.onCompletion == P.HOLD ==>
              P.Step(SettledPid(k), i) == (SettledPid(k + 1), P.Output(0, P.HOLD, k == 9))
  {
    assert P.PosErr(i) == 0 && P.SpeedErr(i) == 0;
    assert P.Unsaturated(SettledPid(k), i) == 0;
    assert P.InTolerance(i);
  }

  lemma OneTurnReference(k: nat)
    requires k <= 10
    ensures var s := SettledBase(k);
            var t := OnTarget(k).now;
            Reference(s.dist, t, 360_000) == Ref(360_000, 0, 0, true) && Reference(s.head, t, 0) == Ref(0, 0, 0, true)
    ensures SettledBase(k).dist.active && SettledBase(k).head.active && !SettledBase(k).dist.paused && !SettledBase(k).head.paused
    ensures SettledBase(k).dist.onCompletion == P.COAST && SettledBase(k).head.onCompletion == P.HOLD
  {
    OneTurnPlan(CURVE_V, CURVE_A, OnTarget(k).now);
    hide Plan, SettledPid;
    assert DriveHold(RESET_AXIS, FIVE_SECONDS, 0).traj == Plan(FIVE_SECONDS, 0, 0, 1, 1, 1);
    HoldPlan(FIVE_SECONDS, OnTarget(k).now);
  }

  lemma HoldPlan(t0: nat, t: nat)
    requires t0 <= t
    ensures Sample(Plan(t0, 0, 0, 1, 1, 1), t) == Ref(0, 0, 0, true)
  {
  }

  lemma OneTurnPlan(v: int32, a: int32, t: nat)
    requires v == CURVE_V && a == CURVE_A && t >= FIVE_SECONDS + 1_220_000
    ensures Sample(Plan(FIVE_SECONDS, 0, 360_000, v, a, a), t) == Ref(360_000, 0, 0, true)
  {
    DistancePlan(FIVE_SECONDS, v, a);
    Envelope.PlanIsShaped(FIVE_SECONDS, 0, 360_000, v, a, a);
  }

  lemma SettleTick(k: nat)
    requires k < 10
    ensures Tick(SettledBase(k), BASE_CFG, OnTarget(k)).0 == SettledBase(k + 1)
  {
    OneTurnReference(k);
    var b, m := SettledBase(k), OnTarget(k);
    SettleStep(TickInput(b.dist, AXIS_CFG, m.now, m.distX, m.distV, m.dtMs), k);
    SettleStep(TickInput(b.head, AXIS_CFG, m.now, m.headX, m.headV, m.dtMs), k);
    hide P.Step, Plan;
    IdleWheels(m);
  }

  lemma IdleWheels(m: Measured)
    requires m.vbat == 7200
    ensures ComposeWheel(BASE_CFG.wheel, Wheel(0, false, 0), 0, 0, 0, true, m.vbat) == (Wheel(0, false, 0), 0)
  {
  }

  lemma {:induction false} SettleRun(n: nat)
    requires n <= 10
    ensures Run(Commanded(RESET_BASE, BASE_CFG, ONE_TURN), BASE_CFG, Settling(n)) == SettledBase(n)
  {
    if n > 0 {
      SettleRun(n - 1);
      SettleTick(n - 1);
      assert Settling(n)[..n - 1] == Settling(n - 1);
      hide Tick, SettledBase, Commanded;
    }
  }

  /** The tick that finds the robot twisted ten degrees off its heading. */
  const TWISTED: Measured := Measured(FIVE_SECONDS + 2_000_000, 360_000, 0, -10000, 0, 5, 7200, false, false)

  lemma TwistedHeading(s: P.State, i: P.Input)
    requires !s.latched && s.iAcc == 0
    requires i.refX == 0 && i.refV == 0 && i.actX == -10000 && i.actV == 0 && i.dtMs == 5 && i.dutyFf == 0
    requires i.gains == HEAD_GAINS && i.completion == COMPLETION
    ensures P.Step(s, i).1 == P.Output(500, P.HOLD, false)
  {
    assert P.PosErr(i) == 10000 && P.SpeedErr(i) == 0;
    TwistedDuty(s, i);
    OffTarget(s, i);
    hide P.Step, P.Unsaturated;
  }

  lemma TwistedDuty(s: P.State, i: P.Input)
    requires P.PosErr(i) == 10000 && P.SpeedErr(i) == 0 && i.dtMs == 5 && i.dutyFf == 0 && i.gains == HEAD_GAINS && s.iAcc == 0
    ensures P.Unsaturated(s, i) == 500
  {
  }

  /** Out of tolerance an unlatched controller drives and is not done. */
  lemma OffTarget(s: P.State, i: P.Input)
    requires !s.latched && !P.InTolerance(i)
    ensures P.Step(s, i).1 == P.Output(Clamp(P.Unsaturated(s, i), i.gains.outMin, i.gains.outMax), P.HOLD, false)
  {
    hide P.Unsaturated, P.NextIAcc, P.InTolerance, Clamp;
  }

  lemma TwistedOutputs(b: Base)
    requires b.dist.pid.latched && b.dist.pid.latchedActuation == P.COAST
    requires b.head.active && !b.head.pid.latched && b.head.pid.iAcc == 0
    requires b.dist.active && Reference(b.dist, TWISTED.now, 360_000) == Ref(360_000, 0, 0, true)
    requires Reference(b.head, TWISTED.now, -10000) == Ref(0, 0, 0, true)
    ensures UpdateDist(b, BASE_CFG, TWISTED).1 == AxisOut(0, 0, P.COAST, true, true, 0)
    ensures UpdateHead(b, BASE_CFG, TWISTED).1 == AxisOut(500, 0, P.HOLD, false, true, 10000)
  {
    var i := TickInput(b.head, AXIS_CFG, TWISTED.now, TWISTED.headX, TWISTED.headV, TWISTED.dtMs);
    TwistedHeading(b.head.pid, i);
    LatchedOutput(b.dist, AXIS_CFG, TWISTED.now, 360_000, 0, 5, Ref(360_000, 0, 0, true));
    ActiveOutput(b.head, AXIS_CFG, TWISTED.now, -10000, 0, 5, Ref(0, 0, 0, true));
    hide Update, P.Step;
  }

  lemma ActiveOutput(a: Axis, cfg: Settings, now: nat, x: int, v: int, dtMs: uint32, r: Ref)
    requires a.active && Reference(a, now, x) == r
    ensures var o := P.Step(a.pid, TickInput(a, cfg, now, x, v, dtMs)).1;
            Update(a, cfg, now, x, v, dtMs).1 == AxisOut(o.duty, r.v, o.actuation, o.done, r.done, ClampedErr(r, x))
  {
    hide P.Step, Reference, TickInput, WantsPause, SetPause;
  }

  lemma LatchedOutput(a: Axis, cfg: Settings, now: nat, x: int, v: int, dtMs: uint32, r: Ref)
    requires a.active && a.pid.latched && Reference(a, now, x) == r
    ensures Update(a, cfg, now, x, v, dtMs).1 == AxisOut(0, r.v, a.pid.latchedActuation, true, r.done, ClampedErr(r, x))
  {
    ActiveOutput(a, cfg, now, x, v, dtMs, r);
    hide Update;
  }

  /** The references the twisted tick sees. */
  lemma TwistedReferences(b: Base)
    requires b == SettledBase(10)
    ensures b.dist.active && Reference(b.dist, TWISTED.now, 360_000) == Ref(360_000, 0, 0, true)
    ensures b.head.active && Reference(b.head, TWISTED.now, -10000) == Ref(0, 0, 0, true)
    ensures b.dist.pid.latched && b.dist.pid.latchedActuation == P.COAST
    ensures !b.head.pid.latched && b.head.pid.iAcc == 0
    ensures b.left == Wheel(0, false, 0) && b.right == Wheel(0, false, 0)
  {
    OneTurnPlan(CURVE_V, CURVE_A, TWISTED.now);
    HoldPlan(FIVE_SECONDS, TWISTED.now);
    hide Plan, Sample;
  }

  lemma TwistedTick(b: Base)
    requires b.left == Wheel(0, false, 0) && b.right == Wheel(0, false, 0)
    requires UpdateDist(b, BASE_CFG, TWISTED).1 == AxisOut(0, 0, P.COAST, true, true, 0)
    requires UpdateHead(b, BASE_CFG, TWISTED).1 == AxisOut(500, 0, P.HOLD, false, true, 10000)
    ensures var (next, cmdL, cmdR) := Tick(b, BASE_CFG, TWISTED);
            cmdL == Duty(-500) && cmdR == Duty(500) && !next.done
  {
    hide Update;
    var c := BASE_CFG.wheel;
    assert ComposeWheel(c, b.left, -500, 0, -10000, true, 7200).1 == -500;
    assert ComposeWheel(c, b.right, 500, 0, 10000, true, 7200).1 == 500;
  }

  /**
   A robot that has completed a straight COAST move of one wheel turn, with ten
   ticks on target, and is then twisted ten degrees off its heading is driven,
   not coasted.
   */
  lemma CoastCompletionWitness() returns (mv: Move, ms: seq<Measured>, m: Measured)
    ensures mv == ONE_TURN && |ms| == 10 && ms == Settling(10) && !m.faultBefore && !m.faultAfter
    ensures var b := Run(Commanded(RESET_BASE, BASE_CFG, mv), BASE_CFG, ms);
            b.dist.pid.latched && b.dist.pid.latchedActuation == P.COAST &&
            var (next, cmdL, cmdR) := Tick(b, BASE_CFG, m);
            cmdL == Duty(-500) && cmdR == Duty(500) && !next.done
  {
    mv, ms, m := ONE_TURN, Settling(10), TWISTED;
    SettleRun(10);
    var b := Run(Commanded(RESET_BASE, BASE_CFG, mv), BASE_CFG, ms);
    TwistedReferences(b);
    hide Tick, Plan, SettledBase, Run, Commanded, Update;
    TwistedOutputs(b);
    TwistedTick(b);
  }
}
