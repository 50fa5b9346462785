/**
 The freeze handshake between the real-time tick and the daemon's port recovery
 (apps/drivebase/drivebase_daemon.c, flags in drivebase_motor.c) as interleaved
 steps over the shared flags.  A run is any sequence of actions; an action that
 is not enabled leaves the state unchanged.
 */
module Freeze {

  const SIDES: nat := 2
  const ACK_POLLS: nat := 12

  /** Where the RT thread is: between ticks, past a gate load that saw the freeze, or in the tick body. */
  datatype RtPc = Between | SawFreeze | Body

  /** Where daemon_try_reclaim is. */
  datatype DaemonPc =
    | Idle
    | Lowered                                     // rt_idle cleared, freeze not yet raised
    | Waiting(polls: nat)                         // polling for the acknowledgement
    | GivingUp                                    // no acknowledgement
    | Acked                                       // about to read the request bits
    | Sweep(side: nat, wanted: set<nat>)          // per-side loop
    | Reclaiming(side: nat, wanted: set<nat>)     // closing and reopening a port
    | Reclaimed(side: nat, wanted: set<nat>)      // the port is healthy, its bit still set
    | CheckPending(wanted: set<nat>)
    | Resetting(wanted: set<nat>)                 // re-seeding the drivebase epoch
    | Releasing

  /** Shared flags, both program counters, and the sides reclaimed since the last acknowledgement. */
  datatype State = State(frozen: bool, rtIdle: bool, requests: set<nat>, running: bool,
                         rt: RtPc, daemon: DaemonPc, healed: set<nat>)

  const INITIAL: State := State(false, false, {}, true, Between, Idle, {})

  datatype Action =
    | RtGate                       // load io_frozen and act on it, in one step
    | RtLoad | RtStore             // the same gate split into its load and its store
    | RtBody(faults: set<nat>)     // part of the tick body, possibly losing ports
    | RtReturn
    | Daemon(ok: bool)             // next daemon step; ok is the result of a reclaim
    | ResetDrain(faults: set<nat>) // the epoch reset drains the ports, possibly losing some again
    | StopRequest

  function RtStep(s: State, a: Action): State {
    match a
    case RtGate =>
      if s.rt != Between then s else if s.frozen then s.(rtIdle := true) else s.(rt := Body)
    case RtLoad =>
      if s.rt != Between then s else if s.frozen then s.(rt := SawFreeze) else s.(rt := Body)
    case RtStore => if s.rt == SawFreeze then s.(rtIdle := true, rt := Between) else s
    case RtBody(faults) => if s.rt == Body then s.(requests := s.requests + faults) else s
    case RtReturn => if s.rt == Body then s.(rt := Between) else s
    case _ => s
  }

  function DaemonStep(s: State, ok: bool): State {
    match s.daemon
    case Idle => if s.requests == {} then s else s.(rtIdle := false, daemon := Lowered)
    case Lowered => s.(frozen := true, daemon := Waiting(0))
    case Waiting(polls) =>
      if polls >= ACK_POLLS || !s.running then s.(daemon := GivingUp)
      else if s.rtIdle then s.(daemon := Acked)
      else s.(daemon := Waiting(polls + 1))
    case GivingUp => s.(frozen := false, daemon := Idle)
    case Acked => s.(daemon := Sweep(0, s.requests), healed := {})
    case Sweep(side, wanted) =>
      if side >= SIDES || !s.running then s.(daemon := CheckPending(wanted))
      else if side in wanted then s.(daemon := Reclaiming(side, wanted))
      else s.(daemon := Sweep(side + 1, wanted))
    case Reclaiming(side, wanted) =>
      if ok then s.(daemon := Reclaimed(side, wanted), healed := s.healed + {side})
      else s.(daemon := Sweep(side + 1, wanted))
    case Reclaimed(side, wanted) => s.(requests := s.requests - {side}, daemon := Sweep(side + 1, wanted))
    case CheckPending(wanted) => s.(daemon := if s.requests == {} then Resetting(wanted) else Releasing)
    case Resetting(_) => s.(daemon := Releasing)
    case Releasing => s.(frozen := false, daemon := Idle)
  }

  function Step(s: State, a: Action): State {
    match a
    case Daemon(ok) => DaemonStep(s, ok)
    case ResetDrain(faults) => if s.daemon.Resetting? then s.(requests := s.requests + faults) else s
    case StopRequest => s.(running := false)
    case _ => RtStep(s, a)
  }

  function Run(s: State, acts: seq<Action>): State {
    if acts == [] then s else Step(Run(s, acts[..|acts| - 1]), acts[|acts| - 1])
  }

  // ----- safety

  /** The daemon is using the ports or rewriting the drivebase. */
  predicate DaemonTouches(s: State) {
    s.daemon.Reclaiming? || s.daemon.Reclaimed? || s.daemon.Resetting?
  }

  predicate Holds(d: DaemonPc) {
    !(d.Idle? || d.Lowered?)
  }

  predicate Exclusive(d: DaemonPc) {
    Holds(d) && !d.Waiting? && !d.GivingUp?
  }

  function Wanted(d: DaemonPc): set<nat> {
    match d
    case Sweep(_, wanted) => wanted
    case Reclaiming(_, wanted) => wanted
    case Reclaimed(_, wanted) => wanted
    case CheckPending(wanted) => wanted
    case Resetting(wanted) => wanted
    case _ => {}
  }

  ghost predicate Inv(s: State) {
    (s.frozen <==> Holds(s.daemon)) &&
    s.rt != SawFreeze &&
    (s.daemon.Lowered? ==> !s.rtIdle) &&
    (s.daemon.Waiting? && s.rtIdle ==> s.rt == Between) &&
    (Exclusive(s.daemon) ==> s.rt == Between) &&
    (s.daemon.Waiting? ==> s.daemon.polls <= ACK_POLLS) &&
    (s.daemon.Sweep? ==> s.daemon.side <= SIDES) && (s.daemon.Reclaiming? ==> s.daemon.side < SIDES) &&
    (s.daemon.Reclaimed? ==> s.daemon.side < SIDES && s.daemon.side in s.healed) &&
    Wanted(s.daemon) <= s.requests + s.healed &&
    (s.daemon.Resetting? ==> s.daemon.wanted <= s.healed)
  }

  /** The gate's load and store count as one step: RT outranks the daemon and does not block in between. */
  ghost predicate GateAtomic(acts: seq<Action>) {
    forall i :: 0 <= i < |acts| ==> !acts[i].RtLoad? && !acts[i].RtStore?
  }

  lemma StepKeepsInv(s: State, a: Action)
    requires Inv(s) && !a.RtLoad? && !a.RtStore?
    ensures Inv(Step(s, a))
  {
  }

  lemma {:induction false} RunKeepsInv(acts: seq<Action>)
    requires GateAtomic(acts)
    ensures Inv(Run(INITIAL, acts))
    decreases |acts|
  {
    if acts != [] {
      RunKeepsInv(acts[..|acts| - 1]);
      StepKeepsInv(Run(INITIAL, acts[..|acts| - 1]), acts[|acts| - 1]);
    }
  }

  /**
   Mutual exclusion, in every interleaving: the tick body never runs while the
   daemon reclaims a port or resets the drivebase; and throughout a reset every
   side that was requested when the freeze was acknowledged has been reclaimed.
   */
  lemma MutualExclusion(acts: seq<Action>)
    requires GateAtomic(acts)
    ensures var s := Run(INITIAL, acts);
            !(s.rt == Body && DaemonTouches(s)) && (s.daemon.Resetting? ==> s.daemon.wanted <= s.healed)
  {
    RunKeepsInv(acts);
  }

  /**
   The reset is entered only from the pending check and with no request bit set;
   a port lost again while it drains leaves its bit set after the release.
   */
  lemma ResetEntry(s: State, a: Action)
    ensures var t := Step(s, a);
            (t.daemon.Resetting? && !s.daemon.Resetting? ==> s.daemon.CheckPending? && s.requests == {} && t.requests == {}) &&
            (s.daemon.Resetting? || s.daemon.Releasing? ==> s.requests <= t.requests)
  {
  }

  /** A request bit disappears only in the step that follows the successful reclaim of its side. */
  lemma BitClearedAfterReclaim(acts: seq<Action>, a: Action, side: nat)
    requires GateAtomic(acts + [a])
    requires side in Run(INITIAL, acts).requests && side !in Step(Run(INITIAL, acts), a).requests
    ensures Run(INITIAL, acts).daemon.Reclaimed? && Run(INITIAL, acts).daemon.side == side
    ensures side in Run(INITIAL, acts).healed && Run(INITIAL, acts).rt == Between
  {
    assert GateAtomic(acts) by {
      forall i | 0 <= i < |acts| ensures !acts[i].RtLoad? && !acts[i].RtStore? { assert (acts + [a])[i] == acts[i]; }
    }
    assert (acts + [a])[|acts|] == a;
    RunKeepsInv(acts);
  }

  // ----- the freeze always ends

  /** Daemon steps left until the freeze is released. */
  function Rank(d: DaemonPc): nat {
    match d
    case Idle => 0
    case Releasing => 1
    case Resetting(_) => 2
    case CheckPending(_) => 3
    case Sweep(side, _) => 4 + 3 * (if side < SIDES then SIDES - side else 0)
    case Reclaimed(side, _) => 5 + 3 * (if side < SIDES then SIDES - side - 1 else 0)
    case Reclaiming(side, _) => 6 + 3 * (if side < SIDES then SIDES - side - 1 else 0)
    case Acked => 5 + 3 * SIDES
    case GivingUp => 1
    case Waiting(polls) => 6 + 3 * SIDES + (if polls < ACK_POLLS then ACK_POLLS - polls else 0)
    case Lowered => 7 + 3 * SIDES + ACK_POLLS
  }

  function DaemonSteps(acts: seq<Action>): nat {
    if acts == [] then 0 else DaemonSteps(acts[..|acts| - 1]) + if acts[|acts| - 1].Daemon? then 1 else 0
  }

  /** The freeze is released within a bounded number of daemon steps, whatever the RT thread does or fails to do. */
  lemma FreezeEnds(s: State, acts: seq<Action>)
    requires FlagFits(s) && DaemonSteps(acts) >= Rank(s.daemon)
    ensures exists k :: 0 <= k <= |acts| && Run(s, acts[..k]).daemon == Idle && !Run(s, acts[..k]).frozen
  {
    if s.daemon == Idle {
      assert acts[..0] == [] && Run(s, acts[..0]) == s;
    } else {
      DaemonComesToRest(s, acts);
      var k :| 0 <= k <= |acts| && Run(s, acts[..k]).daemon == Idle;
      RunKeepsFlag(s, acts[..k]);
    }
  }

  /** The freeze flag is up exactly between the daemon's raising and lowering it, in split-gate runs too. */
  ghost predicate FlagFits(s: State) {
    s.frozen <==> Holds(s.daemon)
  }

  lemma {:induction false} RunKeepsFlag(s: State, acts: seq<Action>)
    requires FlagFits(s)
    ensures FlagFits(Run(s, acts))
    decreases |acts|
  {
    if acts != [] { RunKeepsFlag(s, acts[..|acts| - 1]); }
  }

  lemma {:induction false} DaemonComesToRest(s: State, acts: seq<Action>)
    requires DaemonSteps(acts) >= Rank(s.daemon) && s.daemon != Idle
    ensures exists k :: 0 <= k <= |acts| && Run(s, acts[..k]).daemon == Idle
    decreases |acts|
  {
    if acts != [] {
      var before := acts[..|acts| - 1];
      RankDrops(s, acts);
      assert acts[..|acts|] == acts;
      if DaemonSteps(before) >= Rank(s.daemon) {
        DaemonComesToRest(s, before);
        var k :| 0 <= k <= |before| && Run(s, before[..k]).daemon == Idle;
        assert acts[..k] == before[..k];
      }
    }
  }

  /** Either the daemon has been idle on the way, or each of its steps has used up rank. */
  lemma {:induction false} RankDrops(s: State, acts: seq<Action>)
    ensures (exists k :: 0 <= k <= |acts| && Run(s, acts[..k]).daemon == Idle) ||
            Rank(Run(s, acts).daemon) + DaemonSteps(acts) <= Rank(s.daemon)
    decreases |acts|
  {
    if acts != [] {
      var before := acts[..|acts| - 1];
      RankDrops(s, before);
      if k :| 0 <= k <= |before| && Run(s, before[..k]).daemon == Idle {
        assert acts[..k] == before[..k];
      } else {
        assert acts[..|acts|] == acts && before[..|before|] == before;
        RankStep(Run(s, before), acts[|acts| - 1]);
      }
    }
  }

  lemma RankStep(s: State, a: Action)
    requires s.daemon != Idle
    ensures Rank(Step(s, a).daemon) + (if a.Daemon? then 1 else 0) <= Rank(s.daemon)
  {
  }

  // ----- the atomic gate is needed

  function Polls(n: nat): (acts: seq<Action>) {
    if n == 0 then [] else Polls(n - 1) + [POLL]
  }

  lemma {:induction false} PollingOut(s: State, n: nat)
    requires s.daemon == Waiting(0) && n <= ACK_POLLS && s.running && !s.rtIdle
    ensures Run(s, Polls(n)) == s.(daemon := Waiting(n))
  {
    if n > 0 {
      assert Polls(n) == Polls(n - 1) + [POLL];
      hide Run, Polls;
      PollingOut(s, n - 1);
      PollOnce(s, Polls(n - 1), s.(daemon := Waiting(n - 1)));
    }
  }

  lemma PollOnce(s: State, acts: seq<Action>, t: State)
    requires Run(s, acts) == t && t.daemon.Waiting? && t.daemon.polls < ACK_POLLS && t.running && !t.rtIdle
    ensures Run(s, acts + [POLL]) == t.(daemon := Waiting(t.daemon.polls + 1))
  {
    assert (acts + [POLL])[..|acts|] == acts;
  }

  lemma {:induction false} RunConcat(s: State, xs: seq<Action>, ys: seq<Action>)
    ensures Run(s, xs + ys) == Run(Run(s, xs), ys)
    decreases |ys|
  {
    if ys == [] {
      assert xs + ys == xs;
    } else {
      assert (xs + ys)[..|xs + ys| - 1] == xs + ys[..|ys| - 1];
      RunConcat(s, xs, ys[..|ys| - 1]);
    }
  }

  lemma RunTwo(s: State, a: Action, b: Action)
    ensures Run(s, [a, b]) == Step(Step(s, a), b)
  {
    assert [a, b][..1] == [a] && [a][..0] == [];
    assert Run(s, [a]) == Step(s, a);
  }

  /**
   With the gate's load and store as separate steps the exclusion fails: the RT
   thread sees one freeze, stalls until the daemon has given it up, and its late
   acknowledgement is taken for one of the next freeze - while the following
   tick has already entered its body.
   */
  lemma SplitGateUnsafe() returns (acts: seq<Action>)
    ensures var s := Run(INITIAL, acts); s.rt == Body && DaemonTouches(s)
  {
    FirstFreezeMissed();
    SecondFreezeFooled();
    Chain(INITIAL, FIRST_FREEZE, SECOND_FREEZE, GAVE_UP, FOOLED);
    acts := FIRST_FREEZE + SECOND_FREEZE;
  }

  const POLL: Action := Daemon(false)
  const FIRST_FREEZE: seq<Action> :=
    [RtGate, RtBody({0})] + [RtReturn, POLL] + [POLL, RtLoad] + Polls(ACK_POLLS) + [POLL, POLL]
  const SECOND_FREEZE: seq<Action> := [POLL, RtStore] + [RtLoad, POLL] + [POLL, POLL] + [POLL, RtBody({})]
  const GAVE_UP: State := INITIAL.(requests := {0}, rt := SawFreeze)
  const FOOLED: State := State(true, true, {0}, true, Body, Reclaiming(0, {0}), {})

  /** The RT gate sees the first freeze but is not acknowledged in time. */
  lemma FirstFreezeMissed()
    ensures Run(INITIAL, FIRST_FREEZE) == GAVE_UP
  {
    var s1 := INITIAL.(requests := {0}, daemon := Lowered);
    FaultThenLower(s1);
    var a1 := [RtGate, RtBody({0})] + [RtReturn, POLL];
    var s2 := s1.(frozen := true, rt := SawFreeze, daemon := Waiting(0));
    RunTwo(s1, POLL, RtLoad);
    PollingOut(s2, ACK_POLLS);
    var s3 := s2.(daemon := Waiting(ACK_POLLS));
    RunTwo(s3, POLL, POLL);
    hide Run, Step;
    Chain(INITIAL, a1, [POLL, RtLoad], s1, s2);
    Chain(INITIAL, a1 + [POLL, RtLoad], Polls(ACK_POLLS), s2, s3);
    Chain(INITIAL, a1 + [POLL, RtLoad] + Polls(ACK_POLLS), [POLL, POLL], s3, GAVE_UP);
  }

  /** In the second freeze the stale store arrives before the freeze is raised, and the next tick enters its body. */
  lemma SecondFreezeFooled()
    ensures Run(GAVE_UP, SECOND_FREEZE) == FOOLED
  {
    RunTwo(GAVE_UP, POLL, RtStore);
    var s5 := GAVE_UP.(rtIdle := true, rt := Between, daemon := Lowered);
    RunTwo(s5, RtLoad, POLL);
    var s6 := s5.(rt := Body, frozen := true, daemon := Waiting(0));
    RunTwo(s6, POLL, POLL);
    var s7 := s6.(daemon := Sweep(0, {0}));
    RunTwo(s7, POLL, RtBody({}));
    assert s7.requests + {} == s7.requests;
    assert FOOLED == s7.(daemon := Reclaiming(0, {0}));
    hide Run, Step;
    Chain(GAVE_UP, [POLL, RtStore], [RtLoad, POLL], s5, s6);
    Chain(GAVE_UP, [POLL, RtStore] + [RtLoad, POLL], [POLL, POLL], s6, s7);
    Chain(GAVE_UP, [POLL, RtStore] + [RtLoad, POLL] + [POLL, POLL], [POLL, RtBody({})], s7, FOOLED);
  }

  lemma FaultThenLower(s1: State)
    requires s1 == INITIAL.(requests := {0}, daemon := Lowered)
    ensures Run(INITIAL, [RtGate, RtBody({0})] + [RtReturn, POLL]) == s1
  {
    RunTwo(INITIAL, RtGate, RtBody({0}));
    var m := INITIAL.(rt := Body, requests := {0});
    assert {} + {0} == {0};
    RunTwo(m, RtReturn, POLL);
    RunConcat(INITIAL, [RtGate, RtBody({0})], [RtReturn, POLL]);
  }

  lemma Chain(s: State, xs: seq<Action>, ys: seq<Action>, mid: State, end: State)
    requires Run(s, xs) == mid && Run(mid, ys) == end
    ensures Run(s, xs + ys) == end
  {
    RunConcat(s, xs, ys);
  }
}
