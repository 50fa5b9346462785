/**
 What an acknowledged freeze comes to: the drivebase is reset before the freeze
 falls exactly when every lost port has been recovered.
 */
module FreezeRuns {
  import opened Freeze

  /** The run passes through a reset. */
  ghost predicate Resets(s: State, acts: seq<Action>) {
    exists k :: 0 <= k <= |acts| && Run(s, acts[..k]).daemon.Resetting?
  }

  /** The freeze falls with the last action and not before. */
  ghost predicate FirstRelease(s: State, acts: seq<Action>) {
    acts != [] && !Run(s, acts).frozen && forall k :: 0 <= k < |acts| ==> Run(s, acts[..k]).frozen
  }

  /** Between the acknowledgement and the release, without a reset so far. */
  ghost predicate Recovering(s: State) {
    Inv(s) && (s.daemon.Acked? || s.daemon.Sweep? || s.daemon.Reclaiming? || s.daemon.Reclaimed? || s.daemon.CheckPending? ||
               (s.daemon.Releasing? && s.requests != {}))
  }

  lemma RecoveringStep(s: State, a: Action)
    requires Recovering(s) && !a.RtLoad? && !a.RtStore?
    ensures var t := Step(s, a);
            Inv(t) && (t.daemon.Resetting? || Recovering(t) || (t.daemon == Idle && !t.frozen && t.requests != {}))
  {
  }

  /** Along a run that neither resets nor releases early the daemon is still recovering. */
  lemma {:induction false} StillRecovering(s: State, acts: seq<Action>)
    requires Recovering(s) && GateAtomic(acts) && !Resets(s, acts)
    requires forall k :: 0 <= k <= |acts| ==> Run(s, acts[..k]).frozen
    ensures Recovering(Run(s, acts))
    decreases |acts|
  {
    if acts != [] {
      Earlier(s, acts);
      var before := acts[..|acts| - 1];
      StillRecovering(s, before);
      RecoveringStep(Run(s, before), acts[|acts| - 1]);
      assert acts[..|acts|] == acts;
    }
  }

  /** What holds of all prefixes of a run holds of all prefixes of its beginning. */
  lemma Earlier(s: State, acts: seq<Action>)
    requires acts != []
    ensures var before := acts[..|acts| - 1];
            (forall k :: 0 <= k <= |before| ==> before[..k] == acts[..k]) &&
            (GateAtomic(acts) ==> GateAtomic(before)) && (!Resets(s, acts) ==> !Resets(s, before))
  {
    var before := acts[..|acts| - 1];
    forall k | 0 <= k <= |before| ensures before[..k] == acts[..k] {}
    if Resets(s, before) {
      var k :| 0 <= k <= |before| && Run(s, before[..k]).daemon.Resetting?;
      assert Run(s, acts[..k]).daemon.Resetting?;
    }
  }

  /**
   A release after an acknowledgement without a reset means a port is still lost:
   some request bit is set when the freeze falls.
   */
  lemma ReleaseWithoutReset(s: State, acts: seq<Action>)
    requires Recovering(s) && GateAtomic(acts) && FirstRelease(s, acts) && !Resets(s, acts)
    ensures Run(s, acts).requests != {}
  {
    Earlier(s, acts);
    var before := acts[..|acts| - 1];
    StillRecovering(s, before);
    assert acts[..|acts|] == acts;
    RecoveringStep(Run(s, before), acts[|acts| - 1]);
  }

  /**
   So a freeze whose pending check finds no request bit resets the drivebase
   before it falls, in every interleaving.
   */
  lemma CleanCheckResets(s: State, acts: seq<Action>)
    requires Inv(s) && s.daemon.CheckPending? && s.requests == {} && GateAtomic(acts) && !Run(s, acts).frozen
    ensures Resets(s, acts)
  {
    if !Resets(s, acts) {
      StaysClean(s, acts);
    }
  }

  lemma {:induction false} StaysClean(s: State, acts: seq<Action>)
    requires Inv(s) && s.daemon.CheckPending? && s.requests == {} && GateAtomic(acts) && !Resets(s, acts)
    ensures var t := Run(s, acts); Inv(t) && t.daemon.CheckPending? && t.requests == {}
    decreases |acts|
  {
    if acts != [] {
      Earlier(s, acts);
      StaysClean(s, acts[..|acts| - 1]);
      StepKeepsInv(Run(s, acts[..|acts| - 1]), acts[|acts| - 1]);
      assert acts[..|acts|] == acts;
    }
  }

  // ----- progress

  /** The daemon is not asked to stop and every reclaim succeeds. */
  ghost predicate Smooth(acts: seq<Action>) {
    GateAtomic(acts) && forall i :: 0 <= i < |acts| ==> acts[i] != StopRequest && acts[i] != Daemon(false)
  }

  /** The sides from `side` on that are wanted. */
  function From(wanted: set<nat>, side: nat): set<nat> {
    set x <- wanted | x >= side
  }

  /** On its way to the reset: what is still requested is what the sweep has yet to reach. */
  ghost predicate OnTheWay(s: State) {
    Inv(s) && s.running && (forall x <- Wanted(s.daemon) :: x < SIDES) &&
    match s.daemon
    case Acked => forall x <- s.requests :: x < SIDES
    case Sweep(side, wanted) => s.requests == From(wanted, side)
    case Reclaiming(side, wanted) => s.requests == From(wanted, side)
    case Reclaimed(side, wanted) => s.requests == From(wanted, side)
    case CheckPending(_) => s.requests == {}
    case _ => false
  }

  lemma OnTheWayStep(s: State, a: Action)
    requires OnTheWay(s) && Smooth([a])
    ensures Step(s, a).daemon.Resetting? || OnTheWay(Step(s, a))
  {
    assert [a][0] == a;
    StepKeepsInv(s, a);
    if a.Daemon? && s.daemon.Sweep? {
      var side, wanted := s.daemon.side, s.daemon.wanted;
      assert side !in wanted ==> From(wanted, side) == From(wanted, side + 1);
      assert side >= SIDES ==> From(wanted, side) == {};
    }
    if a.Daemon? && s.daemon.Reclaimed? {
      assert From(s.daemon.wanted, s.daemon.side) - {s.daemon.side} == From(s.daemon.wanted, s.daemon.side + 1);
    }
    if a.Daemon? && s.daemon.Acked? {
      assert From(s.requests, 0) == s.requests;
    }
  }

  /** Either the reset has been reached, or each daemon step has brought it nearer. */
  lemma {:induction false} NearerToReset(s: State, acts: seq<Action>)
    requires OnTheWay(s) && Smooth(acts)
    ensures Resets(s, acts) || (OnTheWay(Run(s, acts)) && Rank(Run(s, acts).daemon) + DaemonSteps(acts) <= Rank(s.daemon))
    decreases |acts|
  {
    if acts != [] {
      var before, a := acts[..|acts| - 1], acts[|acts| - 1];
      Earlier(s, acts);
      NearerToReset(s, before);
      if !Resets(s, before) {
        OnTheWayStep(Run(s, before), a);
        RankStep(Run(s, before), a);
        assert acts[..|acts|] == acts;
      } else {
        var k :| 0 <= k <= |before| && Run(s, before[..k]).daemon.Resetting?;
        assert Run(s, acts[..k]).daemon.Resetting?;
      }
    }
  }

  /**
   Progress: from an acknowledged freeze, if every reclaim succeeds and nobody
   stops the daemon, it reaches the reset within its rank of own steps, whatever
   the RT thread does in between.
   */
  lemma ReachesReset(s: State, acts: seq<Action>)
    requires Inv(s) && s.daemon.Acked? && s.running && (forall x <- s.requests :: x < SIDES)
    requires Smooth(acts) && DaemonSteps(acts) >= Rank(s.daemon)
    ensures Resets(s, acts)
  {
    NearerToReset(s, acts);
  }

  /** The acknowledgement: a waiting daemon is acknowledged by the next gate and sees it at its next poll. */
  lemma GateAcknowledges(s: State, ok: bool)
    requires Inv(s) && s.daemon.Waiting? && s.daemon.polls < ACK_POLLS && s.running && s.rt == Between
    ensures Step(Step(s, RtGate), Daemon(ok)).daemon.Acked?
  {
  }

  /** While the flag is up the gate keeps the tick out; once it is down the next tick enters. */
  lemma GateFollowsFlag(s: State)
    requires s.rt == Between
    ensures Step(s, RtGate).rt == Body <==> !s.frozen
    ensures Step(s, RtGate).requests == s.requests && Step(s, RtGate).daemon == s.daemon
  {
  }

  // ----- a whole recovery

  const OK: Action := Daemon(true)
  const LOSE_PORT: seq<Action> := [RtGate, RtBody({0})] + [RtReturn, OK]
  const ACKNOWLEDGE: seq<Action> := [OK, RtGate] + [OK, OK]
  const RECLAIM: seq<Action> := [OK, OK] + [OK, OK] + [OK, RtGate]
  const RESET_AND_GO: seq<Action> := [OK, OK] + [OK, RtGate]
  const LOST: State := INITIAL.(requests := {0}, daemon := Lowered)
  const ACKED: State := LOST.(frozen := true, rtIdle := true, daemon := Sweep(0, {0}))
  const CLEAN: State := ACKED.(requests := {}, daemon := CheckPending({0}), healed := {0})

  /** A lost port, an acknowledged freeze, one reclaim, the reset, and the next tick runs. */
  lemma RecoveryWitness()
    ensures Run(INITIAL, LOSE_PORT + ACKNOWLEDGE + RECLAIM) == CLEAN
    ensures Resets(CLEAN, RESET_AND_GO) && Run(CLEAN, RESET_AND_GO) == INITIAL.(rt := Body, rtIdle := true, healed := {0})
  {
    LosePort();
    Acknowledge();
    Reclaim();
    ResetAndGo();
    hide Run, Step, Resets;
    Chain(INITIAL, LOSE_PORT, ACKNOWLEDGE, LOST, ACKED);
    Chain(INITIAL, LOSE_PORT + ACKNOWLEDGE, RECLAIM, ACKED, CLEAN);
  }

  lemma LosePort()
    ensures Run(INITIAL, LOSE_PORT) == LOST
  {
    var m := INITIAL.(rt := Body, requests := {0});
    assert {} + {0} == {0};
    RunTwo(INITIAL, RtGate, RtBody({0}));
    RunTwo(m, RtReturn, OK);
    hide Run;
    Chain(INITIAL, [RtGate, RtBody({0})], [RtReturn, OK], m, LOST);
  }

  lemma Acknowledge()
    ensures Run(LOST, ACKNOWLEDGE) == ACKED
  {
    var w := LOST.(frozen := true, rtIdle := true, daemon := Waiting(0));
    RunTwo(LOST, OK, RtGate);
    RunTwo(w, OK, OK);
    hide Run;
    Chain(LOST, [OK, RtGate], [OK, OK], w, ACKED);
  }

  lemma Reclaim()
    ensures Run(ACKED, RECLAIM) == CLEAN
  {
    var r1 := ACKED.(daemon := Reclaimed(0, {0}), healed := {0});
    var r2 := r1.(requests := {}, daemon := Sweep(2, {0}));
    assert {} + {0} == {0} && {0} - {0} == {};
    RunTwo(ACKED, OK, OK);
    assert 1 !in {0};
    RunTwo(r1, OK, OK);
    RunTwo(r2, OK, RtGate);
    hide Run;
    Chain(ACKED, [OK, OK], [OK, OK], r1, r2);
    Chain(ACKED, [OK, OK] + [OK, OK], [OK, RtGate], r2, CLEAN);
  }

  lemma ResetAndGo()
    ensures Resets(CLEAN, RESET_AND_GO) && Run(CLEAN, RESET_AND_GO) == INITIAL.(rt := Body, rtIdle := true, healed := {0})
  {
    var r := CLEAN.(daemon := Releasing);
    RunTwo(CLEAN, OK, OK);
    RunTwo(r, OK, RtGate);
    assert RESET_AND_GO[..1] == [OK] && [OK][..0] == [];
    assert Run(CLEAN, RESET_AND_GO[..1]).daemon.Resetting?;
    Chain(CLEAN, [OK, OK], [OK, RtGate], r, INITIAL.(rt := Body, rtIdle := true, healed := {0}));
  }
}
