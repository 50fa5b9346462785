/**
 What a curve command comes to, over every fault-free run: both axes carry the
 completion mode, so in a braking mode the first of them whose history lets go
 stops the whole base, however far the other one still has to go.
 */
module CurveRuns {
  import opened CArith
  import opened Profiles
  import opened Aggregate
  import opened DriveBase
  import opened DriveRuns
  import opened Completions
  import P = PidControl
  import H = PidRuns

  /** One axis' share of a curve. */
  datatype Leg = Leg(x: int, delta: int, v: int32, accel: int32, decel: int32)

  /** db_drivebase_drive_curve with both legs moving. */
  function Curve(b: Base, c: BaseSettings, now: uint64, d: Leg, h: Leg, oc: int): Base {
    var dist := DrivePosition(b.dist, c.dist, now, d.x, d.delta, d.v, d.accel, d.decel, oc);
    var head := DrivePosition(b.head, c.head, now, h.x, h.delta, h.v, h.accel, h.decel, oc);
    var (trajD, trajH) := Equalised(dist.traj, head.traj);
    b.(dist := dist.(traj := trajD), head := head.(traj := trajH))
  }

  /** An axis controlled by its input history in the given mode. */
  ghost predicate Follows(a: Axis, cfg: Settings, oc: int, ins: seq<P.Input>) {
    a.active && a.onCompletion == oc && a.pid == H.RunState(P.FRESH, ins) && H.OneMove(ins, cfg.completion, oc)
  }

  ghost predicate BothFollow(b: Base, c: BaseSettings, oc: int, insD: seq<P.Input>, insH: seq<P.Input>) {
    Follows(b.dist, c.dist, oc, insD) && Follows(b.head, c.head, oc, insH)
  }

  /** One update of such an axis: it still follows, and reports a passive actuation exactly once its history has let go. */
  lemma FollowTick(a: Axis, cfg: Settings, oc: int, ins: seq<P.Input>, now: nat, x: int, v: int, dtMs: uint32)
    requires Follows(a, cfg, oc, ins)
    requires var dt := if dtMs != 0 then dtMs else cfg.tickMs;
             dt <= UINT32_MOD - cfg.completion.doneWindowMs && dt <= UINT32_MOD - cfg.completion.smartPassiveHoldMs
    ensures var later := ins + [TickInput(a, cfg, now, x, v, dtMs)];
            var (n, out) := Update(a, cfg, now, x, v, dtMs);
            Follows(n, cfg, oc, later) && out.actuation == if H.HasLetGo(later) then P.PassiveOf(oc) else P.HOLD
  {
    var i := TickInput(a, cfg, now, x, v, dtMs);
    var later := ins + [i];
    assert i.completion == cfg.completion && i.onCompletion == oc;
    assert later[..|later| - 1] == ins;
    assert H.RunState(P.FRESH, later) == P.Step(H.RunState(P.FRESH, ins), i).0;
    assert H.LastOutput(P.FRESH, later) == P.Step(H.RunState(P.FRESH, ins), i).1;
    H.OutputExactly(later, cfg.completion, oc);
    ActiveAxisTick(a, cfg, now, x, v, dtMs);
    hide Update, TickInput, P.Step, H.RunState, H.LastOutput, H.HasLetGo;
  }

  /** Either history has let go. */
  ghost predicate EitherLetsGo(insD: seq<P.Input>, insH: seq<P.Input>) {
    H.HasLetGo(insD) || H.HasLetGo(insH)
  }

  lemma BothFollowTick(b: Base, c: BaseSettings, oc: int, insD: seq<P.Input>, insH: seq<P.Input>, m: Measured)
    requires c.wheel.minMv >= 1 && FaultFree([m]) && ShortTicks([m], c.dist) && ShortTicks([m], c.head)
    requires BothFollow(b, c, oc, insD, insH)
    ensures var laterD, laterH := insD + [MainInput(b, c, false, m)], insH + [MainInput(b, c, true, m)];
            var (next, cmdL, cmdR) := Tick(b, c, m);
            if Brakes(oc) && EitherLetsGo(laterD, laterH) then BothLatched(next, P.BRAKE) && cmdL == cmdR == Brake
            else BothFollow(next, c, oc, laterD, laterH) && cmdL.Duty? && cmdR.Duty?
  {
    assert m in [m];
    FollowTick(b.dist, c.dist, oc, insD, m.now, m.distX, m.distV, m.dtMs);
    FollowTick(b.head, c.head, oc, insH, m.now, m.headX, m.headV, m.dtMs);
    PassiveOfMode(insD, oc);
    hide Tick, Update, TickInput, BothLatched, H.HasLetGo, Follows;
    TickByActuations(b, c, m);
  }

  /**
   A curve's completion, end to end: over every fault-free run both motors brake,
   and both axes are latched, from the first tick on which either axis' history
   lets go if and only if the mode is BRAKE or BRAKE_SMART.  In every other mode
   both axes stay active and every tick drives both motors.
   */
  lemma {:induction false} CurveCompletionExactly(b: Base, c: BaseSettings, now: uint64, d: Leg, h: Leg, oc: int, ms: seq<Measured>)
    requires c.wheel.minMv >= 1 && FaultFree(ms) && ShortTicks(ms, c.dist) && ShortTicks(ms, c.head)
    ensures var s := Curve(b, c, now, d, h, oc);
            var insD, insH := Inputs(s, c, false, ms), Inputs(s, c, true, ms);
            if Brakes(oc) && EitherLetsGo(insD, insH) then BothLatched(Run(s, c, ms), P.BRAKE)
            else BothFollow(Run(s, c, ms), c, oc, insD, insH)
    ensures ms != [] ==>
              var s := Curve(b, c, now, d, h, oc);
              var (next, cmdL, cmdR) := Tick(Run(s, c, ms[..|ms| - 1]), c, ms[|ms| - 1]);
              if Brakes(oc) && EitherLetsGo(Inputs(s, c, false, ms), Inputs(s, c, true, ms)) then cmdL == cmdR == Brake
              else cmdL.Duty? && cmdR.Duty?
    decreases |ms|
  {
    var s := Curve(b, c, now, d, h, oc);
    if ms == [] {
      NothingYet(b, c, now, d, h, oc);
    } else {
      var before, m := ms[..|ms| - 1], ms[|ms| - 1];
      assert m in ms && forall x :: x in before ==> x in ms;
      CurveCompletionExactly(b, c, now, d, h, oc, before);
      hide Curve, Tick, BothFollow, BothLatched, H.HasLetGo, MainInput, ShortTicks;
      var at := Run(s, c, before);
      StillLetGo(s, c, ms, false);
      StillLetGo(s, c, ms, true);
      if Brakes(oc) && EitherLetsGo(Inputs(s, c, false, before), Inputs(s, c, true, before)) {
        BrakedTick(at, c, m);
      } else {
        BothFollowTick(at, c, oc, Inputs(s, c, false, before), Inputs(s, c, true, before), m);
      }
    }
  }

  lemma NothingYet(b: Base, c: BaseSettings, now: uint64, d: Leg, h: Leg, oc: int)
    ensures BothFollow(Curve(b, c, now, d, h, oc), c, oc, [], []) && !H.HasLetGo([])
  {
    hide Plan, Stretch, Equalised;
  }

  /** A history that has let go stays so. */
  lemma StillLetGo(s: Base, c: BaseSettings, ms: seq<Measured>, turn: bool)
    requires c.wheel.minMv >= 1 && ms != []
    ensures var before := ms[..|ms| - 1];
            Inputs(s, c, turn, ms) == Inputs(s, c, turn, before) + [MainInput(Run(s, c, before), c, turn, ms[|ms| - 1])] &&
            (H.HasLetGo(Inputs(s, c, turn, before)) ==> H.HasLetGo(Inputs(s, c, turn, ms)))
  {
    var now := Inputs(s, c, turn, ms);
    assert now[..|now| - 1] == Inputs(s, c, turn, ms[..|ms| - 1]);
    H.HasLetGoStep(now);
    hide MainInput, H.HasLetGo;
  }
}
