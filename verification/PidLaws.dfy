/**
 What the controller's duty is made of: laws on one update and on whole runs
 against the textbook controller on real numbers.
 */
module PidLaws {
  import opened CArith
  import opened PidControl
  import opened PidRuns

  /** The position error, limited to int32. */
  function Behind(i: Input): int {
    Clamp(i.refX - i.actX, INT32_MIN, INT32_MAX)
  }

  function Slow(i: Input): int {
    i.refV - i.actV
  }

  /** The textbook demand: P and D on position, P on speed, the integral and the feed-forward. */
  ghost function Ideal(s: State, i: Input): real {
    var g := i.gains;
    (g.kpPos * Behind(i)) as real / 1000.0 +
    (if i.dtMs > 0 then (g.kdPos * (Behind(i) - s.prevPosErr)) as real / i.dtMs as real else 0.0) +
    (g.kpSpeed * Slow(i)) as real / 1000.0 +
    s.iAcc as real / 256.0 +
    i.dutyFf as real
  }

  /**
   A tick is in tolerance exactly when the trajectory is done and both errors are
   within their tolerances; the clamp on the position error does not matter.
   */
  lemma ToleranceExactly(i: Input)
    requires i.completion.posTolerance < INT32_MAX
    ensures InTolerance(i) <==>
              i.trajectoryDone &&
              i.refX - i.completion.posTolerance <= i.actX <= i.refX + i.completion.posTolerance &&
              i.refV - i.completion.speedTolerance <= i.actV <= i.refV + i.completion.speedTolerance
  {
  }

  /** The demand before saturation is the textbook one to within four: one per truncated quotient. */
  lemma DemandNearIdeal(s: State, i: Input)
    ensures -4.0 < Unsaturated(s, i) as real - Ideal(s, i) < 4.0
  {
    var g := i.gains;
    TruncNear(g.kpPos * Behind(i), 1000);
    TruncNear(g.kpSpeed * Slow(i), 1000);
    TruncNear(s.iAcc, 256);
    if i.dtMs > 0 { TruncNear(g.kdPos * (Behind(i) - s.prevPosErr), i.dtMs); }
    hide TruncDiv;
  }

  /** A tick that drives the motors. */
  ghost predicate Drives(s: State, i: Input) {
    !s.latched && Step(s, i).1.actuation == HOLD
  }

  /**
   The duty of a driving tick is the textbook demand, limited: at the upper limit
   only if the demand is close to or beyond it, likewise at the lower one, and in
   between within four of the demand.
   */
  lemma DutyIsDemand(s: State, i: Input)
    requires Drives(s, i) && i.gains.outMin <= i.gains.outMax
    ensures var duty := Step(s, i).1.duty;
            i.gains.outMin <= duty <= i.gains.outMax &&
            (duty < i.gains.outMax ==> Ideal(s, i) < duty as real + 4.0) &&
            (duty > i.gains.outMin ==> Ideal(s, i) > duty as real - 4.0)
  {
    DrivingDuty(s, i);
    DemandNearIdeal(s, i);
    hide Step, Unsaturated, Ideal;
  }

  lemma DrivingDuty(s: State, i: Input)
    requires Drives(s, i)
    ensures Step(s, i).1.duty == Clamp(Unsaturated(s, i), i.gains.outMin, i.gains.outMax)
  {
    hide Unsaturated, NextIAcc, Clamp;
  }

  /** The same axis further behind, slower or pushed harder; non-negative gains. */
  ghost predicate FurtherBehind(i: Input, j: Input) {
    j.gains == i.gains && j.dtMs == i.dtMs && i.gains.kpPos >= 0 && i.gains.kdPos >= 0 && i.gains.kpSpeed >= 0 &&
    i.refX - i.actX <= j.refX - j.actX && i.refV - i.actV <= j.refV - j.actV && i.dutyFf <= j.dutyFf
  }

  /** The duty never falls when the axis is further behind, slower or pushed harder. */
  lemma DutyNeverFalls(s: State, i: Input, j: Input)
    requires Drives(s, i) && Drives(s, j) && FurtherBehind(i, j) && i.gains.outMin <= i.gains.outMax
    ensures Step(s, i).1.duty <= Step(s, j).1.duty
  {
    assert i.gains == j.gains;
    hide *;
    DrivingDuty(s, i);
    DrivingDuty(s, j);
    DemandNeverFalls(s, i, j);
    ClampMono(Unsaturated(s, i), Unsaturated(s, j), i.gains.outMin, i.gains.outMax);
  }

  lemma ClampMono(x: int, y: int, lo: int, hi: int)
    requires x <= y
    ensures Clamp(x, lo, hi) <= Clamp(y, lo, hi) || hi < lo
  {
  }

  lemma DemandNeverFalls(s: State, i: Input, j: Input)
    requires FurtherBehind(i, j)
    ensures Unsaturated(s, i) <= Unsaturated(s, j)
  {
    var g := i.gains;
    assert Behind(i) <= Behind(j);
    MulMono(Behind(i), Behind(j), g.kpPos);
    MulMono(Behind(i) - s.prevPosErr, Behind(j) - s.prevPosErr, g.kdPos);
    MulMono(Slow(i), Slow(j), g.kpSpeed);
    TruncMono(g.kpPos * Behind(i), g.kpPos * Behind(j), 1000);
    TruncMono(g.kpSpeed * Slow(i), g.kpSpeed * Slow(j), 1000);
    if i.dtMs > 0 { TruncMono(g.kdPos * (Behind(i) - s.prevPosErr), g.kdPos * (Behind(j) - s.prevPosErr), i.dtMs); }
    hide TruncDiv;
  }

  /** And it never falls with the integral. */
  lemma DutyFollowsIntegral(s: State, t: State, i: Input)
    requires Drives(s, i) && Drives(t, i) && t.prevPosErr == s.prevPosErr && s.iAcc <= t.iAcc && i.gains.outMin <= i.gains.outMax
    ensures Step(s, i).1.duty <= Step(t, i).1.duty
  {
    DrivingDuty(s, i);
    DrivingDuty(t, i);
    TruncMono(s.iAcc, t.iAcc, 256);
    hide Step, TruncDiv, Drives;
    assert Unsaturated(s, i) <= Unsaturated(t, i);
    ClampMono(Unsaturated(s, i), Unsaturated(t, i), i.gains.outMin, i.gains.outMax);
  }

  // ----- the integrator

  /** The demand is beyond a limit on the side the axis has to go to. */
  predicate Railed(s: State, i: Input) {
    (Behind(i) > 0 && Unsaturated(s, i) > i.gains.outMax) || (Behind(i) < 0 && Unsaturated(s, i) < i.gains.outMin)
  }

  predicate Integrates(s: State, i: Input) {
    !s.latched && !s.paused && Abs(Behind(i)) > i.gains.deadband && !Railed(s, i)
  }

  /** One update: the integral moves exactly when it integrates, by the textbook step to within two, and is clipped. */
  lemma IntegralStep(s: State, i: Input)
    requires i.gains.outMax >= 0
    ensures !Integrates(s, i) ==> Step(s, i).0.iAcc == s.iAcc
    ensures Integrates(s, i) ==>
              Step(s, i).0.iAcc == Clamp(s.iAcc + Increment(i), -256 * i.gains.outMax, 256 * i.gains.outMax)
    ensures !s.latched ==> Step(s, i).0.prevPosErr == Behind(i)
  {
    StepIntegral(s, i);
    hide Unsaturated, TruncDiv, Step;
  }

  lemma StepIntegral(s: State, i: Input)
    ensures Step(s, i).0.iAcc == if s.latched then s.iAcc else NextIAcc(s, i)
    ensures Step(s, i).0.prevPosErr == if s.latched then s.prevPosErr else PosErr(i)
    ensures !s.latched ==> (Step(s, i).0.satHigh <==> Unsaturated(s, i) > i.gains.outMax)
    ensures !s.latched ==> (Step(s, i).0.satLow <==> Unsaturated(s, i) < i.gains.outMin)
  {
    hide Unsaturated, NextIAcc, NextStreak, NextDone, PosErr, Clamp, Arbitrate;
    if !s.latched { ArbitrateKeeps(Bookkept(s, i), Clamp(Unsaturated(s, i), i.gains.outMin, i.gains.outMax), i); }
  }

  /** A tick out of tolerance does not let go. */
  lemma OffTolerance(s: State, i: Input)
    requires !s.latched && !InTolerance(i)
    ensures !Step(s, i).0.latched && Step(s, i).1.actuation == HOLD && !Step(s, i).1.done
  {
    hide Unsaturated, NextIAcc, Clamp;
  }

  /** The completion logic leaves the control terms alone. */
  lemma ArbitrateKeeps(b: State, duty: int, i: Input)
    ensures var t := Arbitrate(b, duty, i).0;
            t.iAcc == b.iAcc && t.prevPosErr == b.prevPosErr && t.satHigh == b.satHigh && t.satLow == b.satLow
  {
    HoldKeeps(b, i);
    hide SmartHold;
  }

  lemma HoldKeeps(b: State, i: Input)
    ensures var t := SmartHold(b, i);
            t.iAcc == b.iAcc && t.prevPosErr == b.prevPosErr && t.satHigh == b.satHigh && t.satLow == b.satLow
  {
  }

  /** What one tick adds: both errors times their gains and the tick, per second. */
  function Increment(i: Input): int {
    TruncDiv(i.gains.kiPos * Behind(i) * i.dtMs, 1000) + TruncDiv(i.gains.kiSpeed * Slow(i) * i.dtMs, 1000)
  }

  lemma IncrementNear(i: Input)
    ensures var ideal := (i.gains.kiPos * Behind(i) * i.dtMs) as real / 1000.0 + (i.gains.kiSpeed * Slow(i) * i.dtMs) as real / 1000.0;
            -2.0 < Increment(i) as real - ideal < 2.0
  {
    TruncNear(i.gains.kiPos * Behind(i) * i.dtMs, 1000);
    TruncNear(i.gains.kiSpeed * Slow(i) * i.dtMs, 1000);
    hide TruncDiv;
  }

  /** The clipped sum of the steps of the ticks that integrated. */
  function Accumulated(s: State, ins: seq<Input>): int {
    if ins == [] then s.iAcc
    else
      var before, i := ins[..|ins| - 1], ins[|ins| - 1];
      if Integrates(RunState(s, before), i)
      then Clamp(Accumulated(s, before) + Increment(i), -256 * i.gains.outMax, 256 * i.gains.outMax)
      else Accumulated(s, before)
  }

  /** Over any run the integral is that sum, and the error the next tick differentiates against is the last one. */
  lemma {:induction false} IntegralOverRun(s: State, ins: seq<Input>)
    requires forall i :: i in ins ==> i.gains.outMax >= 0
    ensures RunState(s, ins).iAcc == Accumulated(s, ins)
    ensures ins != [] && !RunState(s, ins[..|ins| - 1]).latched ==> RunState(s, ins).prevPosErr == Behind(ins[|ins| - 1])
    decreases |ins|
  {
    if ins != [] {
      var before, i := ins[..|ins| - 1], ins[|ins| - 1];
      assert i in ins && forall x :: x in before ==> x in ins;
      IntegralOverRun(s, before);
      IntegralStep(RunState(s, before), i);
      hide Step, Integrates, Increment, Behind;
    }
  }

  /** Unpausing a latched controller makes it drive or complete again instead of repeating its passive actuation. */
  lemma UnpauseReleases(s: State, i: Input)
    ensures Paused(s, true) == s.(paused := true)
    ensures !Paused(s, false).latched && !Paused(s, false).paused && Paused(s, false).iAcc == s.iAcc
    ensures !InTolerance(i) ==> Step(Paused(s, false), i).1 == Output(Step(Paused(s, false), i).1.duty, HOLD, false)
  {
    hide Unsaturated, NextIAcc;
  }
}
