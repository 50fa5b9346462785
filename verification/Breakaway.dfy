/**
 When the terminal breakaway floor may fire: exactly, on the sequence of commands
 and errors a wheel is offered, and on every run of the drivebase that offers it.
 */
module Breakaways {
  import opened CArith
  import opened Aggregate
  import opened DriveBase
  import opened DriveRuns
  import P = PidControl

  /** What one tick with both profiles done offers a wheel: the commanded duty and the wheel's error. */
  datatype WheelTick = WheelTick(pre: int, err: int)

  function WheelRun(floor: nat, w: Wheel, ts: seq<WheelTick>): Wheel {
    if ts == [] then w
    else Breakaway(floor, WheelRun(floor, w, ts[..|ts| - 1]), ts[|ts| - 1].pre, ts[|ts| - 1].err, true).0
  }

  /** The duty of the last tick after the breakaway stage. */
  function LastDuty(floor: nat, w: Wheel, ts: seq<WheelTick>): int
    requires ts != []
  {
    Breakaway(floor, WheelRun(floor, w, ts[..|ts| - 1]), ts[|ts| - 1].pre, ts[|ts| - 1].err, true).1
  }

  /** The floor would help: the wheel is off target and the command points there, but is weaker than the floor. */
  predicate Eligible(floor: nat, t: WheelTick) {
    ErrSide(t.err) != 0 && 0 <= ErrSide(t.err) * t.pre < floor
  }

  /** The side of the first eligible tick, from the ticks alone. */
  function EpisodeSide(floor: nat, ts: seq<WheelTick>): int {
    if ts == [] then 0
    else
      var before := EpisodeSide(floor, ts[..|ts| - 1]);
      if before != 0 then before
      else if Eligible(floor, ts[|ts| - 1]) then ErrSide(ts[|ts| - 1].err) else 0
  }

  /** Since the episode began the wheel has entered the deadband or crossed the target. */
  predicate Spent(floor: nat, ts: seq<WheelTick>) {
    ts != [] &&
    var before := ts[..|ts| - 1];
    Spent(floor, before) ||
    (EpisodeSide(floor, before) != 0 && ErrSide(ts[|ts| - 1].err) != EpisodeSide(floor, before))
  }

  /** A wheel whose episode was re-armed while the move was still under way. */
  ghost predicate Armed(w: Wheel) {
    !w.consumed && w.episode == 0
  }

  /**
   The floor, exactly: over a run with both profiles done, the last tick's
   command is raised if and only if it is eligible and the episode that began
   with the first eligible tick is not spent; then it is the floor towards the
   target, and otherwise the command passes unchanged.
   */
  lemma {:induction false} BreakawayExactly(floor: nat, w: Wheel, ts: seq<WheelTick>)
    requires Armed(w) && floor > 0
    ensures WheelRun(floor, w, ts).episode == EpisodeSide(floor, ts)
    ensures WheelRun(floor, w, ts).consumed == Spent(floor, ts)
    ensures Spent(floor, ts) ==> EpisodeSide(floor, ts) != 0
    ensures ts != [] ==> LastDuty(floor, w, ts) == Floored(floor, ts)
    decreases |ts|
  {
    if ts != [] {
      BreakawayExactly(floor, w, ts[..|ts| - 1]);
    }
  }

  /** Once spent, always spent; and until then the error has stayed on the episode's side. */
  lemma {:induction false} EpisodeHistory(floor: nat, ts: seq<WheelTick>, j: nat, k: nat)
    requires j <= k < |ts| && Eligible(floor, ts[j]) && !Spent(floor, ts)
    ensures ErrSide(ts[k].err) == ErrSide(ts[j].err) == EpisodeSide(floor, ts)
    decreases |ts|
  {
    var before := ts[..|ts| - 1];
    if j < |ts| - 1 {
      if k < |ts| - 1 {
        EpisodeHistory(floor, before, j, k);
      } else {
        EpisodeHistory(floor, before, j, j);
      }
    } else if EpisodeSide(floor, before) != 0 {
      assert ErrSide(ts[j].err) == EpisodeSide(floor, before);
    }
  }

  lemma {:induction false} SpentPrefix(floor: nat, ts: seq<WheelTick>, n: nat)
    requires n <= |ts| && Spent(floor, ts[..n])
    ensures Spent(floor, ts)
    decreases |ts|
  {
    if n == |ts| {
      assert ts[..n] == ts;
    } else {
      assert ts[..|ts| - 1][..n] == ts[..n];
      SpentPrefix(floor, ts[..|ts| - 1], n);
    }
  }

  /** The floor changed the command of the last tick. */
  ghost predicate Raised(floor: nat, w: Wheel, ts: seq<WheelTick>) {
    ts != [] && LastDuty(floor, w, ts) != ts[|ts| - 1].pre
  }

  /**
   One shot per move: if the floor fires on ticks j and k, then between them the
   error never entered the deadband nor changed side, both push the same way,
   and neither reverses the command it replaces.
   */
  lemma OneShot(floor: nat, w: Wheel, ts: seq<WheelTick>, j: nat, k: nat)
    requires Armed(w) && floor > 0 && j <= k < |ts|
    requires Raised(floor, w, ts[..j + 1]) && Raised(floor, w, ts[..k + 1])
    ensures forall n :: j <= n <= k ==> ErrSide(ts[n].err) == ErrSide(ts[j].err) != 0
    ensures LastDuty(floor, w, ts[..k + 1]) == LastDuty(floor, w, ts[..j + 1]) == ErrSide(ts[j].err) * floor
    ensures ErrSide(ts[j].err) * ts[k].pre >= 0
  {
    var tj, tk := ts[..j + 1], ts[..k + 1];
    BreakawayExactly(floor, w, tj);
    BreakawayExactly(floor, w, tk);
    forall n: nat | j <= n <= k ensures ErrSide(ts[n].err) == ErrSide(ts[j].err) {
      EpisodeHistory(floor, tk, j, n);
    }
  }

  // ----- the drivebase offers these ticks

  /** A tick that reaches the wheels: no port fault, and no passive actuation to propagate. */
  predicate Composed(b: Base, c: BaseSettings, m: Measured) {
    !m.faultBefore && Propagate(UpdateDist(b, c, m).1.actuation, UpdateHead(b, c, m).1.actuation) == 0
  }

  predicate BothEnded(b: Base, c: BaseSettings, m: Measured) {
    UpdateDist(b, c, m).1.trajectoryDone && UpdateHead(b, c, m).1.trajectoryDone
  }

  /** The sign of a wheel's share of the heading axis. */
  datatype Side = Left | Right

  function WheelOf(b: Base, side: Side): Wheel {
    if side == Left then b.left else b.right
  }

  function Share(side: Side, d: int, h: int): int {
    if side == Left then d - h else d + h
  }

  /** What a composed tick offers a wheel: its duty with friction assist, and its error. */
  function Offer(b: Base, c: BaseSettings, m: Measured, side: Side): WheelTick {
    var outD, outH := UpdateDist(b, c, m).1, UpdateHead(b, c, m).1;
    WheelTick(Share(side, outD.duty, outH.duty) + NewSign(b, c, m, side) * (c.wheel.kS / 2),
              Share(side, outD.posErr, outH.posErr))
  }

  function NewSign(b: Base, c: BaseSettings, m: Measured, side: Side): int {
    var outD, outH := UpdateDist(b, c, m).1, UpdateHead(b, c, m).1;
    FfSign(Share(side, outD.refV, outH.refV), WheelOf(b, side).signHeld, c.wheel.enter, c.wheel.exit)
  }

  /** Everything a wheel is offered over a run. */
  function Offers(b: Base, c: BaseSettings, ms: seq<Measured>, side: Side): seq<WheelTick>
    requires c.wheel.minMv >= 1
  {
    if ms == [] then []
    else
      var before, m := ms[..|ms| - 1], ms[|ms| - 1];
      var at := Run(b, c, before);
      Offers(b, c, before, side) + if Composed(at, c, m) then [Offer(at, c, m, side)] else []
  }

  /** Every composed tick of the run finds both profiles ended. */
  ghost predicate Ended(b: Base, c: BaseSettings, ms: seq<Measured>)
    requires c.wheel.minMv >= 1
  {
    ms != [] ==>
      var before, m := ms[..|ms| - 1], ms[|ms| - 1];
      var at := Run(b, c, before);
      Ended(b, c, before) && (Composed(at, c, m) ==> BothEnded(at, c, m))
  }

  /** A composed tick of a move still under way re-arms both wheels. */
  lemma MovingTickArms(b: Base, c: BaseSettings, m: Measured)
    requires c.wheel.minMv >= 1 && Composed(b, c, m) && !BothEnded(b, c, m)
    ensures Armed(Tick(b, c, m).0.left) && Armed(Tick(b, c, m).0.right)
  {
    hide Update, Corrected;
  }

  /** One tick, as a wheel sees it. */
  lemma TickOffers(b: Base, c: BaseSettings, m: Measured, side: Side)
    requires c.wheel.minMv >= 1 && (Composed(b, c, m) ==> BothEnded(b, c, m))
    ensures var (next, cmdL, cmdR) := Tick(b, c, m);
            var w, n := WheelOf(b, side), WheelOf(next, side);
            var t := Offer(b, c, m, side);
            if Composed(b, c, m) then
              var (u, duty) := Breakaway(c.wheel.floor, w, t.pre, t.err, true);
              n.consumed == u.consumed && n.episode == u.episode &&
              (!m.faultAfter ==> CmdOf(cmdL, cmdR, side) == Sent(c.wheel, duty, m.vbat))
            else n == w
  {
    TickComposes(b, c, m, side);
    if Composed(b, c, m) {
      var outD, outH := UpdateDist(b, c, m).1, UpdateHead(b, c, m).1;
      ComposeOffers(c.wheel, WheelOf(b, side), Share(side, outD.duty, outH.duty), Share(side, outD.refV, outH.refV),
                    Share(side, outD.posErr, outH.posErr), m.vbat);
    }
    hide Tick, Composed, BothEnded, ComposeWheel, Breakaway, FfSign, Sent, MotorCommand, UpdateDist, UpdateHead, Share;
  }

  /** What a tick does with a wheel, given the compose stage. */
  lemma TickComposes(b: Base, c: BaseSettings, m: Measured, side: Side)
    requires c.wheel.minMv >= 1
    ensures var (next, cmdL, cmdR) := Tick(b, c, m);
            if Composed(b, c, m) then
              var (n, duty) := ComposedWheel(b, c, m, side);
              WheelOf(next, side) == n && (!m.faultAfter ==> CmdOf(cmdL, cmdR, side) == MotorCommand(duty, P.HOLD))
            else WheelOf(next, side) == WheelOf(b, side)
  {
    hide Update, ComposeWheel, Stop, MotorCommand;
  }

  function ComposedWheel(b: Base, c: BaseSettings, m: Measured, side: Side): (Wheel, int)
    requires c.wheel.minMv >= 1
  {
    var outD, outH := UpdateDist(b, c, m).1, UpdateHead(b, c, m).1;
    ComposeWheel(c.wheel, WheelOf(b, side), Share(side, outD.duty, outH.duty), Share(side, outD.refV, outH.refV),
                 Share(side, outD.posErr, outH.posErr), BothEnded(b, c, m), m.vbat)
  }

  /** The compose stage of one wheel with both profiles ended. */
  lemma ComposeOffers(c: WheelSettings, w: Wheel, base: int, vRef: int, err: int, vbat: int)
    requires c.minMv >= 1
    ensures var (n, duty) := ComposeWheel(c, w, base, vRef, err, true, vbat);
            var (u, raised) := Breakaway(c.floor, w, base + FfSign(vRef, w.signHeld, c.enter, c.exit) * (c.kS / 2), err, true);
            n.consumed == u.consumed && n.episode == u.episode && MotorCommand(duty, P.HOLD) == Sent(c, raised, vbat)
  {
    var sign := FfSign(vRef, w.signHeld, c.enter, c.exit);
    var t := WheelTick(base + sign * (c.kS / 2), err);
    BreakawayEpisode(c.floor, w, w.(signHeld := sign), t);
    SentAsIs(c, Breakaway(c.floor, w, t.pre, t.err, true).1, vbat);
    hide Breakaway, FfSign, Corrected, Sent;
  }

  function CmdOf(cmdL: MotorCmd, cmdR: MotorCmd, side: Side): MotorCmd {
    if side == Left then cmdL else cmdR
  }

  /** The clamp on the way to the motor changes nothing. */
  lemma SentAsIs(c: WheelSettings, duty: int, vbat: int)
    requires c.minMv >= 1
    ensures MotorCommand(Corrected(c, Clamp(duty, -DUTY_MAX, DUTY_MAX), vbat), P.HOLD) == Sent(c, duty, vbat)
  {
    hide TruncDiv;
  }

  /** The motor command that a duty from the breakaway stage becomes. */
  function Sent(c: WheelSettings, duty: int, vbat: int): MotorCmd
    requires c.minMv >= 1
  {
    Duty(Corrected(c, Clamp(duty, -DUTY_MAX, DUTY_MAX), vbat))
  }

  /** The wheel's episode depends on what it was offered alone. */
  lemma BreakawayEpisode(floor: nat, w: Wheel, v: Wheel, t: WheelTick)
    requires w.consumed == v.consumed && w.episode == v.episode
    ensures var (w2, d) := Breakaway(floor, w, t.pre, t.err, true);
            var (v2, e) := Breakaway(floor, v, t.pre, t.err, true);
            w2.consumed == v2.consumed && w2.episode == v2.episode && d == e
  {
  }

  /** Over a run with both profiles ended, a wheel's episode is the one of the ticks it was offered. */
  lemma {:induction false} EpisodeOverRun(b: Base, c: BaseSettings, ms: seq<Measured>, side: Side)
    requires c.wheel.minMv >= 1 && Ended(b, c, ms)
    ensures var u := WheelRun(c.wheel.floor, WheelOf(b, side), Offers(b, c, ms, side));
            var e := WheelOf(Run(b, c, ms), side);
            e.episode == u.episode && e.consumed == u.consumed
    decreases |ms|
  {
    if ms != [] {
      var before, m := ms[..|ms| - 1], ms[|ms| - 1];
      var at := Run(b, c, before);
      var past, ts := Offers(b, c, before, side), Offers(b, c, ms, side);
      assert Run(b, c, ms) == Tick(at, c, m).0 && Ended(b, c, before);
      assert ts == past + if Composed(at, c, m) then [Offer(at, c, m, side)] else [];
      hide Run, Tick, Offers, Ended, Composed, Offer, BothEnded, Breakaway, Sent, WheelRun;
      EpisodeOverRun(b, c, before, side);
      EpisodeStep(WheelOf(b, side), at, c, m, past, side);
    }
  }

  lemma EpisodeStep(w: Wheel, at: Base, c: BaseSettings, m: Measured, past: seq<WheelTick>, side: Side)
    requires c.wheel.minMv >= 1 && (Composed(at, c, m) ==> BothEnded(at, c, m))
    requires var u := WheelRun(c.wheel.floor, w, past);
             WheelOf(at, side).episode == u.episode && WheelOf(at, side).consumed == u.consumed
    ensures var ts := past + if Composed(at, c, m) then [Offer(at, c, m, side)] else [];
            var u, e := WheelRun(c.wheel.floor, w, ts), WheelOf(Tick(at, c, m).0, side);
            e.episode == u.episode && e.consumed == u.consumed
  {
    hide Composed, Offer, Breakaway, Sent, Tick, BothEnded;
    TickOffers(at, c, m, side);
    var t := Offer(at, c, m, side);
    if Composed(at, c, m) {
      assert (past + [t])[..|past + [t]| - 1] == past;
      BreakawayEpisode(c.wheel.floor, WheelRun(c.wheel.floor, w, past), WheelOf(at, side), t);
    } else {
      assert past + [] == past;
    }
  }

  /**
   The exact characterisation, on the drivebase: over any run with both profiles
   ended, from a wheel whose episode is armed, the episode is the one of the ticks
   the wheel was offered, and the last composed tick sends the floor towards the
   target if it is eligible and the episode is not spent, and else its own duty.
   */
  lemma DrivebaseBreakaway(b: Base, c: BaseSettings, ms: seq<Measured>, side: Side)
    requires c.wheel.minMv >= 1 && c.wheel.floor > 0 && Armed(WheelOf(b, side)) && Ended(b, c, ms)
    ensures var ts := Offers(b, c, ms, side);
            var e := WheelOf(Run(b, c, ms), side);
            e.episode == EpisodeSide(c.wheel.floor, ts) && e.consumed == Spent(c.wheel.floor, ts)
    ensures ms != [] ==>
              var at, m := Run(b, c, ms[..|ms| - 1]), ms[|ms| - 1];
              var ts := Offers(b, c, ms, side);
              var (next, cmdL, cmdR) := Tick(at, c, m);
              Composed(at, c, m) && !m.faultAfter ==>
                ts != [] && CmdOf(cmdL, cmdR, side) == Sent(c.wheel, Floored(c.wheel.floor, ts), m.vbat) &&
                Abs(CmdOf(cmdL, cmdR, side).d) <= DUTY_MAX
  {
    var w, floor := WheelOf(b, side), c.wheel.floor;
    var ts := Offers(b, c, ms, side);
    EpisodeOverRun(b, c, ms, side);
    BreakawayExactly(floor, w, ts);
    if ms != [] {
      var before, m := ms[..|ms| - 1], ms[|ms| - 1];
      var at := Run(b, c, before);
      if Composed(at, c, m) {
        var past := Offers(b, c, before, side);
        EpisodeOverRun(b, c, before, side);
        TickOffers(at, c, m, side);
        DutyBounded(at, c, m);
        assert ts == past + [Offer(at, c, m, side)] && ts[..|ts| - 1] == past;
        BreakawayEpisode(floor, WheelRun(floor, w, past), WheelOf(at, side), Offer(at, c, m, side));
      }
    }
    hide Tick, Composed, Offer, Breakaway, EpisodeSide, Spent, Eligible, Corrected, Run, Ended;
  }

  /** What the exact characterisation makes of the last tick offered. */
  function Floored(floor: nat, ts: seq<WheelTick>): int
    requires ts != []
  {
    var t := ts[|ts| - 1];
    if Eligible(floor, t) && !Spent(floor, ts) then ErrSide(t.err) * floor else t.pre
  }
}
