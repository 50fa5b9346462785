/**
 The controller over whole runs of ticks from a reset.  When and how it latches
 is characterised by measures of the input history alone, defined without the
 controller's state.
 */
module PidRuns {
  import opened CArith
  import opened PidControl

  function RunState(s: State, ins: seq<Input>): State {
    if ins == [] then s else Step(RunState(s, ins[..|ins| - 1]), ins[|ins| - 1]).0
  }

  /** What the update of the last tick of a run puts out. */
  function LastOutput(s: State, ins: seq<Input>): Output
    requires ins != []
  {
    Step(RunState(s, ins[..|ins| - 1]), ins[|ins| - 1]).1
  }

  // ----- bounds

  ghost predicate SaneGains(g: Gains) {
    g.outMin <= 0 <= g.outMax
  }

  ghost predicate Uses(ins: seq<Input>, g: Gains) {
    forall i :: i in ins ==> i.gains == g
  }

  /**
   Over any run the integrator stays within 256 * outMax, so its contribution
   alone never saturates the output, and every duty stays within the limits.
   */
  lemma {:induction false} IntegratorAndDutyBounded(ins: seq<Input>, g: Gains)
    requires SaneGains(g) && Uses(ins, g)
    ensures Abs(RunState(FRESH, ins).iAcc) <= IACC_SCALE * g.outMax
    ensures Abs(TruncDiv(RunState(FRESH, ins).iAcc, IACC_SCALE)) <= g.outMax
    ensures ins != [] ==> g.outMin <= LastOutput(FRESH, ins).duty <= g.outMax
    decreases |ins|
  {
    if ins != [] {
      var before, i := ins[..|ins| - 1], ins[|ins| - 1];
      IntegratorAndDutyBounded(before, g);
      assert i in ins;
      assert i.gains == g;
      StepBounded(RunState(FRESH, before), i);
    }
    ContributionBounded(RunState(FRESH, ins).iAcc, g.outMax);
  }

  lemma StepBounded(s: State, i: Input)
    requires SaneGains(i.gains) && Abs(s.iAcc) <= IACC_SCALE * i.gains.outMax
    ensures Abs(Step(s, i).0.iAcc) <= IACC_SCALE * i.gains.outMax
    ensures i.gains.outMin <= Step(s, i).1.duty <= i.gains.outMax
  {
    assert Abs(NextIAcc(s, i)) <= IACC_SCALE * i.gains.outMax;
  }

  lemma ContributionBounded(acc: int, max: nat)
    requires Abs(acc) <= IACC_SCALE * max
    ensures Abs(TruncDiv(acc, IACC_SCALE)) <= max
  {
  }

  // ----- measures of the input history

  /** Milliseconds of the unbroken trailing block of in-tolerance, trajectory-done ticks. */
  function TrailingMs(ins: seq<Input>): nat {
    if ins == [] || !InTolerance(ins[|ins| - 1]) then 0
    else TrailingMs(ins[..|ins| - 1]) + ins[|ins| - 1].dtMs
  }

  /** The move counts as done on the last tick of the history. */
  predicate DoneTick(ins: seq<Input>) {
    ins != [] && InTolerance(ins[|ins| - 1]) && TrailingMs(ins) >= ins[|ins| - 1].completion.doneWindowMs
  }

  /** Milliseconds spent in done ticks, over the whole history. */
  function HoldMs(ins: seq<Input>): nat {
    if ins == [] then 0
    else HoldMs(ins[..|ins| - 1]) + (if DoneTick(ins) then ins[|ins| - 1].dtMs else 0)
  }

  /** The tick on which a move in its completion mode lets go of the motors. */
  predicate LetsGo(ins: seq<Input>) {
    DoneTick(ins) &&
    var i := ins[|ins| - 1];
    (i.onCompletion == COAST || i.onCompletion == BRAKE ||
     ((i.onCompletion == COAST_SMART || i.onCompletion == BRAKE_SMART) && HoldMs(ins) >= i.completion.smartPassiveHoldMs))
  }

  /**
   One move: fixed thresholds and completion mode, ticks short enough that the
   two uint32 millisecond counters reach their thresholds before they wrap.
   */
  ghost predicate OneMove(ins: seq<Input>, c: Completion, mode: int) {
    forall i :: i in ins ==>
      i.completion == c && i.onCompletion == mode &&
      i.dtMs <= UINT32_MOD - c.doneWindowMs && i.dtMs <= UINT32_MOD - c.smartPassiveHoldMs
  }

  /** Everything the unlatched controller remembers about completion, in terms of the history. */
  ghost predicate Tracks(s: State, ins: seq<Input>, c: Completion, mode: int) {
    Remembers(s, TrailingMs(ins), HoldMs(ins), DoneTick(ins), c, mode)
  }

  ghost predicate Remembers(s: State, trailing: nat, hold: nat, done: bool, c: Completion, mode: int) {
    !s.latched && !s.smartExpired && s.done == done &&
    (trailing < c.doneWindowMs ==> s.doneStreakMs == trailing) &&
    (s.smartActive ==> IsSmart(mode) && s.smartStreakMs == hold < c.smartPassiveHoldMs) &&
    (!s.smartActive ==> IsSmart(mode) ==> hold == 0)
  }

  /** Some prefix of the history ends in a tick that lets go. */
  ghost predicate HasLetGo(ins: seq<Input>) {
    exists k :: 0 < k <= |ins| && LetsGo(ins[..k])
  }

  lemma HasLetGoStep(ins: seq<Input>)
    requires ins != []
    ensures HasLetGo(ins) <==> HasLetGo(ins[..|ins| - 1]) || LetsGo(ins)
  {
    var before := ins[..|ins| - 1];
    assert ins[..|ins|] == ins;
    forall k | 0 < k <= |before| ensures ins[..k] == before[..k] {}
    if HasLetGo(before) {
      var k :| 0 < k <= |before| && LetsGo(before[..k]);
      assert LetsGo(ins[..k]);
    }
    if HasLetGo(ins) && !LetsGo(ins) {
      var k :| 0 < k <= |ins| && LetsGo(ins[..k]);
      assert LetsGo(before[..k]);
    }
  }

  /** One update either keeps track of the history or latches, exactly when the history lets go. */
  lemma StepTracks(s: State, ins: seq<Input>, c: Completion, mode: int)
    requires ins != [] && OneMove(ins, c, mode)
    requires Tracks(s, ins[..|ins| - 1], c, mode)
    ensures var (t, out) := Step(s, ins[|ins| - 1]);
            if LetsGo(ins) then
              t.latched && t.latchedActuation == PassiveOf(mode) && out == Output(0, PassiveOf(mode), true)
            else
              Tracks(t, ins, c, mode) && out.actuation == HOLD && out.done == DoneTick(ins)
  {
    hide InTolerance, NextIAcc, Unsaturated;
    var before, i := ins[..|ins| - 1], ins[|ins| - 1];
    assert i in ins;
    assert before != [] ==> before[|before| - 1] in ins;
    var b := Bookkept(s, i);
    DoneTickStep(s, i, TrailingMs(before), HoldMs(before), DoneTick(before), c, mode);
    ArbitrateTracks(s, b, Clamp(Unsaturated(s, i), i.gains.outMin, i.gains.outMax), i,
                    TrailingMs(before), HoldMs(before), DoneTick(before), TrailingMs(ins), c, mode);
  }

  /** The arbitration on a tick with in-tolerance flag ok, in terms of the measures before it. */
  lemma ArbitrateTracks(s: State, b: State, duty: int, i: Input, trailing: nat, hold: nat, wasDone: bool,
                        newTrailing: nat, c: Completion, mode: int)
    requires Remembers(s, trailing, hold, wasDone, c, mode)
    requires i.completion == c && i.onCompletion == mode && i.dtMs <= UINT32_MOD - c.smartPassiveHoldMs
    requires newTrailing < c.doneWindowMs ==> b.doneStreakMs == newTrailing
    requires b.smartActive == s.smartActive && b.smartStreakMs == s.smartStreakMs && b.smartExpired == s.smartExpired
    requires b.latched == s.latched
    ensures var (t, out) := Arbitrate(b, duty, i);
            var newHold := hold + if b.done then i.dtMs else 0;
            if b.done && (mode == COAST || mode == BRAKE || (IsSmart(mode) && newHold >= c.smartPassiveHoldMs)) then
              t.latched && t.latchedActuation == PassiveOf(mode) && out == Output(0, PassiveOf(mode), true)
            else
              Remembers(t, newTrailing, newHold, b.done, c, mode) && out.actuation == HOLD && out.done == b.done
  {
  }

  lemma DoneTickStep(s: State, i: Input, trailing: nat, hold: nat, wasDone: bool, c: Completion, mode: int)
    requires Remembers(s, trailing, hold, wasDone, c, mode)
    requires i.completion == c && i.dtMs <= UINT32_MOD - c.doneWindowMs
    requires wasDone ==> trailing >= c.doneWindowMs
    requires trailing >= c.doneWindowMs > 0 ==> wasDone
    ensures var newTrailing := if InTolerance(i) then trailing + i.dtMs else 0;
            NextDone(s, i) == (InTolerance(i) && newTrailing >= c.doneWindowMs) &&
            (newTrailing < c.doneWindowMs ==> NextStreak(s, i) == newTrailing)
  {
    hide InTolerance;
  }

  /**
   The passive latch, exactly: a run from reset is latched after its last tick
   if and only if some tick of it ended an unbroken block of at least
   doneWindowMs in tolerance - for the SMART modes with smartPassiveHoldMs spent
   in such done ticks - and the mode lets go at all.  HOLD and CONTINUE never do.
   */
  lemma {:induction false} LatchExactly(ins: seq<Input>, c: Completion, mode: int)
    requires OneMove(ins, c, mode)
    ensures RunState(FRESH, ins).latched <==> HasLetGo(ins)
    ensures HasLetGo(ins) ==> RunState(FRESH, ins).latchedActuation == PassiveOf(mode)
    ensures !HasLetGo(ins) ==> Tracks(RunState(FRESH, ins), ins, c, mode)
    decreases |ins|
  {
    if ins != [] {
      var before := ins[..|ins| - 1];
      HasLetGoStep(ins);
      LatchExactly(before, c, mode);
      if !HasLetGo(before) {
        StepTracks(RunState(FRESH, before), ins, c, mode);
      }
    }
  }

  /**
   What the motors see: from the tick that lets go onwards every update reports
   zero duty, the same passive actuation and done; before it the controller
   drives and reports done exactly on done ticks.
   */
  lemma OutputExactly(ins: seq<Input>, c: Completion, mode: int)
    requires ins != [] && OneMove(ins, c, mode)
    ensures HasLetGo(ins) ==>
              LastOutput(FRESH, ins) == Output(0, if mode == BRAKE || mode == BRAKE_SMART then BRAKE else COAST, true)
    ensures !HasLetGo(ins) ==>
              LastOutput(FRESH, ins).actuation == HOLD && LastOutput(FRESH, ins).done == DoneTick(ins)
  {
    var before := ins[..|ins| - 1];
    HasLetGoStep(ins);
    LatchExactly(before, c, mode);
    if !HasLetGo(before) {
      StepTracks(RunState(FRESH, before), ins, c, mode);
    }
  }

  /** Once latched, any inputs at all leave the state and the output as they are. */
  lemma {:induction false} LatchedForGood(s: State, ins: seq<Input>)
    requires s.latched
    ensures RunState(s, ins) == s
    ensures ins != [] ==> LastOutput(s, ins) == Output(0, s.latchedActuation, true)
    decreases |ins|
  {
    if ins != [] { LatchedForGood(s, ins[..|ins| - 1]); }
  }

  // ----- what the timed hold does not promise

  /**
   The hold time is counted over all done ticks since the reset and is not
   restarted by a disturbance: after one done tick, a disturbance and a second
   done tick the controller lets go, although its trailing block is shorter
   than the configured hold.
   */
  lemma SmartHoldSurvivesDisturbance(t: Input, f: Input, mode: int)
    requires OneMove([t, f, t], t.completion, mode) && IsSmart(mode)
    requires InTolerance(t) && !InTolerance(f)
    requires t.completion.doneWindowMs <= t.dtMs < t.completion.smartPassiveHoldMs <= 2 * t.dtMs
    ensures RunState(FRESH, [t, f, t]).latched
    ensures TrailingMs([t, f, t]) < t.completion.smartPassiveHoldMs
  {
    var ins := [t, f, t];
    assert ins[0].onCompletion == mode && ins[0].completion == t.completion by { assert ins[0] in ins; }
    TrailingOf([], t);
    TrailingOf([t], f);
    TrailingOf([t, f], t);
    assert [t] + [f] == [t, f] && [t, f] + [t] == ins && [] + [t] == [t] && ins[..3] == ins;
    assert DoneTick([t]) && !DoneTick([t, f]) && DoneTick(ins);
    assert LetsGo(ins[..3]);
    LatchExactly(ins, t.completion, mode);
  }

  lemma TrailingOf(ins: seq<Input>, i: Input)
    ensures TrailingMs(ins + [i]) == if InTolerance(i) then TrailingMs(ins) + i.dtMs else 0
    ensures HoldMs(ins + [i]) == HoldMs(ins) + if DoneTick(ins + [i]) then i.dtMs else 0
  {
    assert (ins + [i])[..|ins|] == ins;
  }

  /**
   It is the documented hold when no disturbance comes in between: then all
   done ticks belong to the trailing block, which splits at its first done tick
   n into what came before it and exactly the time held since.
   */
  lemma {:induction false} UndisturbedHold(ins: seq<Input>, c: Completion, mode: int)
    requires OneMove(ins, c, mode) && Undisturbed(ins)
    ensures !DoneTick(ins) ==> HoldMs(ins) == 0
    ensures DoneTick(ins) ==> exists n: nat :: n < |ins| && SplitAt(ins, n)
    decreases |ins|
  {
    if ins != [] {
      var before := ins[..|ins| - 1];
      UndisturbedHold(before, c, mode);
      if DoneTick(ins) {
        if DoneTick(before) {
          var n: nat :| n < |before| && SplitAt(before, n);
          SplitLater(ins, n);
        } else {
          SplitNow(ins);
        }
      }
    }
  }

  /** No tick after a done tick leaves the done state. */
  ghost predicate Undisturbed(ins: seq<Input>)
    decreases |ins|
  {
    ins != [] ==> Undisturbed(ins[..|ins| - 1]) && (DoneTick(ins[..|ins| - 1]) ==> DoneTick(ins))
  }

  ghost predicate FirstDone(ins: seq<Input>, n: nat)
    requires n < |ins|
  {
    DoneTick(ins[..n + 1]) && !DoneTick(ins[..n])
  }

  /** Tick n is the first done one, and the hold is the time in tolerance since. */
  ghost predicate SplitAt(ins: seq<Input>, n: nat)
    requires n < |ins|
  {
    FirstDone(ins, n) && TrailingMs(ins[..n]) + HoldMs(ins) == TrailingMs(ins)
  }

  lemma SplitLater(ins: seq<Input>, n: nat)
    requires n + 1 < |ins| && DoneTick(ins) && SplitAt(ins[..|ins| - 1], n)
    ensures SplitAt(ins, n)
  {
    var before := ins[..|ins| - 1];
    assert before[..n] == ins[..n] && before[..n + 1] == ins[..n + 1];
    assert HoldMs(ins) == HoldMs(before) + ins[|ins| - 1].dtMs && TrailingMs(ins) == TrailingMs(before) + ins[|ins| - 1].dtMs;
    hide HoldMs, TrailingMs, DoneTick;
  }

  lemma SplitNow(ins: seq<Input>)
    requires ins != [] && DoneTick(ins) && !DoneTick(ins[..|ins| - 1]) && HoldMs(ins[..|ins| - 1]) == 0
    ensures SplitAt(ins, |ins| - 1)
  {
    assert ins[..|ins|] == ins;
  }
}
