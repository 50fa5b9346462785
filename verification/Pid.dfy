/**
 The per-axis PID controller with anti-windup, completion window and passive
 latch (apps/drivebase/drivebase_control.c): one update as a function of the
 state, and the controller object whose methods compute it in place.
 */
module PidControl {
  import opened CArith

  /** enum drivebase_on_completion_e, boards/spike-prime-hub/include/board_drivebase.h:110-118. */
  const COAST: int := 0
  const BRAKE: int := 1
  const HOLD: int := 2
  const CONTINUE: int := 3
  const COAST_SMART: int := 4
  const BRAKE_SMART: int := 5

  /** The integrator accumulates in duty << 8. */
  const IACC_SCALE: int := 256

  datatype Gains = Gains(kpPos: int32, kiPos: int32, kdPos: int32, kpSpeed: int32, kiSpeed: int32,
                         deadband: int32, outMin: int32, outMax: int32)

  datatype Completion = Completion(posTolerance: int32, speedTolerance: int32, smartContinueWindow: int32,
                                   doneWindowMs: uint32, smartPassiveHoldMs: uint32)

  datatype State = State(iAcc: int, prevPosErr: int, paused: bool, satHigh: bool, satLow: bool,
                         doneStreakMs: uint32, done: bool,
                         smartStreakMs: uint32, smartActive: bool, smartExpired: bool,
                         latched: bool, latchedActuation: int)

  datatype Input = Input(refX: int, refV: int, actX: int, actV: int, dtMs: uint32,
                         gains: Gains, completion: Completion, dutyFf: int,
                         trajectoryDone: bool, onCompletion: int)

  datatype Output = Output(duty: int, actuation: int, done: bool)

  /** db_pid_reset. */
  const FRESH: State := State(0, 0, false, false, false, 0, false, 0, false, false, false, 0)

  // ----- one update, piece by piece

  function PosErr(i: Input): int {
    Clamp(i.refX - i.actX, INT32_MIN, INT32_MAX)
  }

  function SpeedErr(i: Input): int {
    i.refV - i.actV
  }

  /** P + D on position, P on speed, the scaled integrator and the feed-forward, before saturation. */
  function Unsaturated(s: State, i: Input): int {
    var g := i.gains;
    TruncDiv(g.kpPos * PosErr(i), 1000) +
    (if i.dtMs > 0 then TruncDiv(g.kdPos * (PosErr(i) - s.prevPosErr), i.dtMs) else 0) +
    TruncDiv(g.kpSpeed * SpeedErr(i), 1000) +
    TruncDiv(s.iAcc, IACC_SCALE) + i.dutyFf
  }

  /** should_freeze_integrator. */
  predicate FreezesIntegrator(s: State, i: Input) {
    s.paused || Abs(PosErr(i)) <= i.gains.deadband ||
    (Unsaturated(s, i) > i.gains.outMax && PosErr(i) > 0) ||
    (Unsaturated(s, i) < i.gains.outMin && PosErr(i) < 0)
  }

  function NextIAcc(s: State, i: Input): int {
    if FreezesIntegrator(s, i) then s.iAcc
    else
      var g := i.gains;
      var acc := s.iAcc + TruncDiv(g.kiPos * PosErr(i) * i.dtMs, 1000)
                        + TruncDiv(g.kiSpeed * SpeedErr(i) * i.dtMs, 1000);
      var clip := g.outMax * IACC_SCALE;
      var capped := if acc > clip then clip else acc;
      if capped < -clip then -clip else capped
  }

  /** The completion test of one tick: a property of the input alone. */
  predicate InTolerance(i: Input) {
    i.trajectoryDone && Abs(PosErr(i)) <= i.completion.posTolerance && Abs(SpeedErr(i)) <= i.completion.speedTolerance
  }

  function NextStreak(s: State, i: Input): uint32 {
    if InTolerance(i) then (s.doneStreakMs + i.dtMs) % UINT32_MOD else 0
  }

  predicate NextDone(s: State, i: Input) {
    InTolerance(i) && (s.done || NextStreak(s, i) >= i.completion.doneWindowMs)
  }

  predicate IsSmart(m: int) {
    m == COAST_SMART || m == BRAKE_SMART
  }

  /** What a completed move in mode m degrades to. */
  function PassiveOf(m: int): int {
    if m == BRAKE || m == BRAKE_SMART then BRAKE else COAST
  }

  /** The state after the bookkeeping common to all modes (lines 158-251). */
  function Bookkept(s: State, i: Input): State {
    s.(iAcc := NextIAcc(s, i), prevPosErr := PosErr(i),
       satHigh := Unsaturated(s, i) > i.gains.outMax, satLow := Unsaturated(s, i) < i.gains.outMin,
       doneStreakMs := NextStreak(s, i), done := NextDone(s, i))
  }

  /** The timed hold of the SMART modes on a done tick (lines 300-313). */
  function SmartHold(s: State, i: Input): State {
    var a := if !s.smartActive && !s.smartExpired then s.(smartActive := true, smartStreakMs := 0) else s;
    if a.smartActive then
      var streak := (a.smartStreakMs + i.dtMs) % UINT32_MOD;
      if streak >= i.completion.smartPassiveHoldMs
      then a.(smartStreakMs := streak, smartActive := false, smartExpired := true)
      else a.(smartStreakMs := streak)
    else a
  }

  function Latch(s: State, actuation: int): State {
    s.(paused := true, latched := true, latchedActuation := actuation)
  }

  /** on_completion arbitration: b is the state after the bookkeeping, duty the clamped PID output. */
  function Arbitrate(b: State, duty: int, i: Input): (State, Output) {
    if !b.done then (b, Output(duty, HOLD, false))
    else if i.onCompletion == COAST || i.onCompletion == BRAKE then
      (Latch(b, i.onCompletion), Output(0, i.onCompletion, true))
    else if IsSmart(i.onCompletion) then
      var h := SmartHold(b, i);
      if h.smartExpired
      then (Latch(h, PassiveOf(i.onCompletion)), Output(0, PassiveOf(i.onCompletion), true))
      else (h, Output(duty, HOLD, true))
    else (b, Output(duty, HOLD, true))
  }

  /** db_pid_update. */
  function Step(s: State, i: Input): (State, Output) {
    if s.latched then (s, Output(0, s.latchedActuation, true))
    else Arbitrate(Bookkept(s, i), Clamp(Unsaturated(s, i), i.gains.outMin, i.gains.outMax), i)
  }

  function Paused(s: State, paused: bool): State {
    if paused then s.(paused := true) else s.(paused := false, latched := false, latchedActuation := 0)
  }

  /** db_pid_stop_passive. */
  const STOPPED: State := FRESH.(paused := true, done := true)

  class Pid {
    var iAcc: int
    var prevPosErr: int
    var paused: bool
    var satHigh: bool
    var satLow: bool
    var doneStreakMs: uint32
    var done: bool
    var smartStreakMs: uint32
    var smartActive: bool
    var smartExpired: bool
    var latched: bool
    var latchedActuation: int

    function View(): State
      reads this
    {
      State(iAcc, prevPosErr, paused, satHigh, satLow, doneStreakMs, done,
            smartStreakMs, smartActive, smartExpired, latched, latchedActuation)
    }

    constructor ()
      ensures View() == FRESH
    {
      iAcc, prevPosErr, paused, satHigh, satLow := 0, 0, false, false, false;
      doneStreakMs, done, smartStreakMs, smartActive, smartExpired := 0, false, 0, false, false;
      latched, latchedActuation := false, 0;
    }

    method Reset()
      modifies this
      ensures View() == FRESH
    {
      iAcc, prevPosErr, paused, satHigh, satLow := 0, 0, false, false, false;
      doneStreakMs, done, smartStreakMs, smartActive, smartExpired := 0, false, 0, false, false;
      latched, latchedActuation := false, 0;
    }

    method Pause(p: bool)
      modifies this
      ensures View() == Paused(old(View()), p)
    {
      paused := p;
      if !p {
        latched, latchedActuation := false, 0;
      }
    }

    method StopPassive()
      modifies this
      ensures View() == State(0, 0, true, false, false, 0, true, 0, false, false, false, 0)
    {
      Reset();
      paused := true;
      done := true;
    }

    method Update(i: Input) returns (out: Output)
      modifies this
      ensures (View(), out) == Step(old(View()), i)
    {
      hide Arbitrate, TruncDiv;
      if latched {
        return Output(0, latchedActuation, true);
      }
      var g := i.gains;
      var posErr := i.refX - i.actX;
      if posErr > INT32_MAX { posErr := INT32_MAX; }
      if posErr < INT32_MIN { posErr := INT32_MIN; }
      var speedErr := i.refV - i.actV;
      var pTerm := TruncDiv(g.kpPos * posErr, 1000);
      var dTerm := 0;
      if i.dtMs > 0 {
        dTerm := TruncDiv(g.kdPos * (posErr - prevPosErr), i.dtMs);
      }
      var kpv := TruncDiv(g.kpSpeed * speedErr, 1000);
      var unsat := pTerm + dTerm + kpv + TruncDiv(iAcc, IACC_SCALE) + i.dutyFf;
      var duty := Clamp(unsat, g.outMin, g.outMax);
      var high, low := unsat > g.outMax, unsat < g.outMin;
      Integrate(i, posErr, speedErr, high, low);
      prevPosErr := posErr;
      satHigh, satLow := high, low;
      JudgeTolerance(i, posErr, speedErr);
      assert View() == Bookkept(old(View()), i) && duty == Clamp(Unsaturated(old(View()), i), g.outMin, g.outMax);
      hide Bookkept, Unsaturated, Clamp;
      out := Complete(i, duty);
    }

    /** Completion bookkeeping (lines 237-251). */
    method JudgeTolerance(i: Input, posErr: int, speedErr: int)
      requires posErr == PosErr(i) && speedErr == SpeedErr(i)
      modifies this`doneStreakMs, this`done
      ensures doneStreakMs == NextStreak(old(View()), i) && done == NextDone(old(View()), i)
    {
      var c := i.completion;
      if i.trajectoryDone && Abs(posErr) <= c.posTolerance && Abs(speedErr) <= c.speedTolerance {
        doneStreakMs := (doneStreakMs + i.dtMs) % UINT32_MOD;
        if doneStreakMs >= c.doneWindowMs {
          done := true;
        }
      } else {
        doneStreakMs := 0;
        done := false;
      }
    }

    /** Anti-windup gated integration (lines 207-227). */
    method Integrate(i: Input, posErr: int, speedErr: int, high: bool, low: bool)
      requires posErr == PosErr(i) && speedErr == SpeedErr(i)
      requires high == (Unsaturated(View(), i) > i.gains.outMax) && low == (Unsaturated(View(), i) < i.gains.outMin)
      modifies this`iAcc
      ensures iAcc == NextIAcc(old(View()), i)
    {
      var g := i.gains;
      if paused || Abs(posErr) <= g.deadband || (high && posErr > 0) || (low && posErr < 0) {
        return;
      }
      iAcc := iAcc + TruncDiv(g.kiPos * posErr * i.dtMs, 1000);
      iAcc := iAcc + TruncDiv(g.kiSpeed * speedErr * i.dtMs, 1000);
      var clip := g.outMax * IACC_SCALE;
      if iAcc > clip { iAcc := clip; }
      if iAcc < -clip { iAcc := -clip; }
    }

    /** on_completion arbitration (lines 259-340). */
    method Complete(i: Input, rawDuty: int) returns (out: Output)
      requires !latched
      modifies this
      ensures (View(), out) == Arbitrate(old(View()), rawDuty, i)
    {
      var actuation, duty := HOLD, rawDuty;
      if done {
        if i.onCompletion == COAST || i.onCompletion == BRAKE {
          actuation := i.onCompletion;
          Pause(true);
          duty := 0;
          latched, latchedActuation := true, actuation;
        } else if i.onCompletion == COAST_SMART || i.onCompletion == BRAKE_SMART {
          if !smartActive && !smartExpired {
            smartActive, smartStreakMs := true, 0;
          }
          if smartActive {
            smartStreakMs := (smartStreakMs + i.dtMs) % UINT32_MOD;
            if smartStreakMs >= i.completion.smartPassiveHoldMs {
              smartActive, smartExpired := false, true;
            }
          }
          if smartExpired {
            actuation := if i.onCompletion == BRAKE_SMART then BRAKE else COAST;
            Pause(true);
            duty := 0;
            latched, latchedActuation := true, actuation;
          }
        }
      }
      out := Output(duty, actuation, done);
    }
  }
}
