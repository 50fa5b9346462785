/**
 What the speed observer guarantees over runs of samples and idle ticks: which
 samples it holds, how accurate its slope is on constant-speed motion, and when
 its estimate can change.
 */
module ObserverRuns {
  import opened CArith
  import opened Observers

  datatype Event = Arrive(s: Sample, duty: uint32) | IdleFor(dtMs: uint32, duty: uint32)

  function Apply(o: Obs, e: Event): Obs {
    match e
    case Arrive(s, duty) => Update(o, s, duty)
    case IdleFor(dtMs, duty) => Idle(o, dtMs, duty)
  }

  function Run(o: Obs, es: seq<Event>): Obs {
    if es == [] then o else Apply(Run(o, es[..|es| - 1]), es[|es| - 1])
  }

  // ----- the samples held

  /** The samples whose time is later than that of every sample accepted before them. */
  function Accepted(q0: seq<Sample>, es: seq<Event>): seq<Sample> {
    if es == [] then q0
    else
      var before, e := Accepted(q0, es[..|es| - 1]), es[|es| - 1];
      if e.Arrive? && (before == [] || e.s.t > before[|before| - 1].t) then before + [e.s] else before
  }

  function LastN(q: seq<Sample>, n: nat): seq<Sample> {
    if |q| <= n then q else q[|q| - n..]
  }

  ghost predicate Increasing(q: seq<Sample>) {
    forall i, j :: 0 <= i < j < |q| ==> q[i].t < q[j].t
  }

  /** An observer right after a reset to its first sample. */
  ghost predicate JustReset(o: Obs) {
    |o.q| == 1 && o.primed && o.snapped && o.vEst == 0
  }

  /** A new observer waits for its first sample, a reset one starts from the given sample; both forget everything older. */
  lemma StartsFresh(o: Obs, s: Sample, dtMs: uint32, duty: uint32)
    ensures !o.primed ==> Idle(o, dtMs, duty) == o
    ensures !o.primed && o.vEst == 0 && o.snapped ==> JustReset(Update(o, s, duty)) && Update(o, s, duty).q == [s]
    ensures JustReset(ResetTo(o, s)) && ResetTo(o, s).q == [s] && ResetTo(o, s).w == o.w
    ensures ResetTo(o, s).stall.streakMs == 0 && !ResetTo(o, s).stall.stalled
  {
    hide Estimate;
  }

  /**
   After any run the ring holds exactly the last 128 accepted samples, in order
   of strictly increasing time; late samples leave no trace.
   */
  lemma {:induction false} RingHoldsLastAccepted(o: Obs, es: seq<Event>)
    requires JustReset(o)
    ensures var all := Accepted(o.q, es);
            Increasing(all) && all != [] &&
            Run(o, es).q == LastN(all, RING_DEPTH) && Run(o, es).primed && Run(o, es).w == o.w
    decreases |es|
  {
    hide Apply;
    if es == [] {
      assert LastN(o.q, RING_DEPTH) == o.q;
    } else {
      RingHoldsLastAccepted(o, es[..|es| - 1]);
      RingStep(Run(o, es[..|es| - 1]), Accepted(o.q, es[..|es| - 1]), es[|es| - 1]);
    }
  }

  lemma RingStep(b: Obs, all: seq<Sample>, e: Event)
    requires Increasing(all) && all != [] && b.q == LastN(all, RING_DEPTH) && b.primed
    ensures var next := if e.Arrive? && e.s.t > all[|all| - 1].t then all + [e.s] else all;
            Increasing(next) && Apply(b, e).q == LastN(next, RING_DEPTH) && Apply(b, e).primed && Apply(b, e).w == b.w
  {
    hide Push, LastN, Apply;
    LastOfLastN(all);
    EventRing(b, e);
    if e.Arrive? && e.s.t > all[|all| - 1].t {
      PushIsLastN(all, e.s);
      IncreasingAppend(all, e.s);
    }
  }

  lemma IncreasingAppend(all: seq<Sample>, s: Sample)
    requires Increasing(all) && all != [] && s.t > all[|all| - 1].t
    ensures Increasing(all + [s])
  {
    forall i | 0 <= i < |all| ensures all[i].t < s.t {
      if i < |all| - 1 { assert all[i].t < all[|all| - 1].t; }
    }
  }

  lemma EventRing(b: Obs, e: Event)
    requires b.primed && b.q != []
    ensures var n := Apply(b, e);
            n.primed && n.w == b.w &&
            n.q == if e.Arrive? && e.s.t > b.q[|b.q| - 1].t then Push(b.q, e.s) else b.q
  {
    hide RawSlope, Push;
  }

  lemma LastNIncreasing(all: seq<Sample>)
    requires Increasing(all)
    ensures Increasing(LastN(all, RING_DEPTH))
  {
  }

  lemma LastOfLastN(all: seq<Sample>)
    requires all != []
    ensures var q := LastN(all, RING_DEPTH); q != [] && q[|q| - 1] == all[|all| - 1]
  {
  }

  lemma PushIsLastN(all: seq<Sample>, s: Sample)
    ensures Push(LastN(all, RING_DEPTH), s) == LastN(all + [s], RING_DEPTH)
  {
  }

  // ----- the estimate

  /** The estimate belongs to the samples held, or is zero. */
  ghost predicate Settled(o: Obs) {
    (o.snapped <==> o.vEst == 0) &&
    (!o.snapped ==> o.vEst == RawSlope(o.q, o.w) && Abs(o.vEst) >= HYST_LOW) &&
    (o.snapped ==> Abs(RawSlope(o.q, o.w)) <= HYST_HIGH)
  }

  lemma EstimateSettles(o: Obs, dtMs: uint32, duty: uint32)
    requires o.snapped <==> o.vEst == 0
    ensures var n := Estimate(o, dtMs, duty);
            Settled(n) && n.q == o.q && n.w == o.w &&
            (o.vEst == 0 && n.vEst != 0 ==> Abs(n.vEst) > HYST_HIGH)
  {
    hide RawSlope;
  }

  /**
   Zero-speed hysteresis over any run: a non-zero estimate is the slope of the
   samples held and at least 30 000 mdeg/s, and right after a zero estimate it
   is above 60 000.
   */
  lemma {:induction false} EstimateIsZeroOrFast(o: Obs, es: seq<Event>)
    requires JustReset(o)
    ensures Settled(Run(o, es))
    ensures es != [] && Run(o, es[..|es| - 1]).vEst == 0 && Run(o, es).vEst != 0 ==> Abs(Run(o, es).vEst) > HYST_HIGH
    decreases |es|
  {
    if es != [] {
      var before, e := es[..|es| - 1], es[|es| - 1];
      EstimateIsZeroOrFast(o, before);
      RingHoldsLastAccepted(o, before);
      EventSettles(Run(o, before), e);
    }
  }

  lemma EventSettles(b: Obs, e: Event)
    requires Settled(b) && b.primed && b.q != []
    ensures Settled(Apply(b, e))
    ensures b.vEst == 0 && Apply(b, e).vEst != 0 ==> Abs(Apply(b, e).vEst) > HYST_HIGH
  {
    hide RawSlope, Estimate;
    match e
    case Arrive(s, duty) =>
      var prev := b.q[|b.q| - 1];
      if s.t > prev.t {
        EstimateSettles(b.(q := Push(b.q, s)), ((s.t - prev.t + 500) / 1000) % UINT32_MOD, duty);
      }
    case IdleFor(dtMs, duty) =>
      EstimateSettles(b, dtMs, duty);
  }

  /**
   Idle ticks never change the speed estimate: the slope is taken from the
   newest sample's own time, so it does not decay while no sample arrives.
   */
  lemma {:induction false} IdleKeepsEstimate(o: Obs, es: seq<Event>)
    requires Settled(o) && o.primed && forall e :: e in es ==> e.IdleFor?
    ensures Run(o, es).vEst == o.vEst && Run(o, es).q == o.q && Settled(Run(o, es)) && Run(o, es).primed
    decreases |es|
  {
    hide RawSlope;
    if es != [] {
      var before, e := es[..|es| - 1], es[|es| - 1];
      assert e in es;
      IdleKeepsEstimate(o, before);
    }
  }

  // ----- accuracy

  /** Twice the quantisation error stays within one encoder step of 1000 mdeg, for motion c + v t. */
  ghost predicate Quantised(q: seq<Sample>, v: int, c: int) {
    forall i :: 0 <= i < |q| ==> Abs(q[i].x * US_PER_S - (c + v * q[i].t)) <= 500 * US_PER_S
  }

  /** The older end of the slope window. */
  function Base(q: seq<Sample>, w: nat): nat
    requires |q| >= 2
  {
    Pick(q, w, |q| - 2)
  }

  ghost predicate InInt32(x: int) {
    INT32_MIN <= x <= INT32_MAX
  }

  /** Sample i is old enough and far enough from the newest. */
  ghost predicate Suits(q: seq<Sample>, w: nat, i: int)
    requires 0 <= i < |q|
  {
    q[i].t + w <= q[|q| - 1].t && (q[i].x + 3000 <= q[|q| - 1].x || q[|q| - 1].x + 3000 <= q[i].x)
  }

  /** The slope is that from the latest suitable sample to the newest one, or from the oldest if none suits. */
  lemma SlopeWindow(q: seq<Sample>, w: nat, p: nat)
    requires p + 2 <= |q| && Increasing(q) && (p == 0 || Suits(q, w, p))
    requires forall i :: p < i < |q| - 1 ==> !Suits(q, w, i)
    ensures var dt := q[|q| - 1].t - q[p].t;
            dt > 0 && RawSlope(q, w) == Clamp(TruncDiv((q[|q| - 1].x - q[p].x) * 1_000_000, dt), INT32_MIN, INT32_MAX)
  {
    assert forall i :: 0 <= i < |q| ==> (Suits(q, w, i) <==> Meets(q, w, i));
    var k := Pick(q, w, |q| - 2);
    hide TruncDiv, Clamp, Suits, Meets, Pick;
    assert k == p;
  }

  /** Two quantised samples dt apart give a slope within 10^9 / dt + 1 of the true speed. */
  lemma SlopeError(x0: int, t0: int, x1: int, t1: int, v: int, c: int)
    requires t0 < t1
    requires Abs(x0 * US_PER_S - (c + v * t0)) <= 500 * US_PER_S
    requires Abs(x1 * US_PER_S - (c + v * t1)) <= 500 * US_PER_S
    ensures Abs(TruncDiv((x1 - x0) * US_PER_S, t1 - t0) - v) <= 1_000_000_000 / (t1 - t0) + 1
  {
    hide TruncDiv;
    var dt, n := t1 - t0, (x1 - x0) * US_PER_S;
    var r := TruncDiv(n, dt);
    TruncDivRemainder(n, dt);
    Difference(t1, t0, v);
    Difference(r, v, dt);
    ErrorQuotient(Abs(r - v), dt, Abs(r * dt - v * dt)) by { AbsProduct(r - v, dt); }
  }

  lemma Difference(x: int, y: int, k: int)
    ensures (x - y) * k == x * k - y * k
  {
  }

  lemma AbsProduct(x: int, k: nat)
    ensures Abs(x * k) == Abs(x) * k
  {
    if x < 0 { assert x * k == -((-x) * k); MulMono(x, 0, k); } else { MulMono(0, x, k); }
  }

  lemma ErrorQuotient(e: nat, dt: nat, p: nat)
    requires dt > 0 && p == e * dt && p < 1_000_000_000 + dt
    ensures e <= 1_000_000_000 / dt + 1
  {
    if e > 0 {
      assert (e - 1) * dt == e * dt - dt;
      DivAtLeast(e - 1, 1_000_000_000, dt);
    }
  }

  /**
   Constant-speed motion quantised to half an encoder step: the raw slope is
   within 10^9 / dt + 1 mdeg/s of the true speed over the window actually used,
   and within 10^9 / w + 1 whenever the window criterion was met.
   */
  lemma RawSlopeAccurate(q: seq<Sample>, w: nat, v: int, c: int)
    requires |q| >= 2 && Increasing(q) && Quantised(q, v, c)
    requires InInt32(TruncDiv((q[|q| - 1].x - q[Base(q, w)].x) * US_PER_S, q[|q| - 1].t - q[Base(q, w)].t))
    ensures Abs(RawSlope(q, w) - v) <= 1_000_000_000 / (q[|q| - 1].t - q[Base(q, w)].t) + 1
    ensures w > 0 && Meets(q, w, Base(q, w)) ==> Abs(RawSlope(q, w) - v) <= 1_000_000_000 / w + 1
  {
    hide Pick, TruncDiv;
    var p, n := Base(q, w), |q| - 1;
    assert q[p].t < q[n].t;
    SlopeError(q[p].x, q[p].t, q[n].x, q[n].t, v, c);
    if w > 0 && Meets(q, w, p) {
      QuotientShrinks(w, q[n].t - q[p].t);
    }
  }

  lemma QuotientShrinks(w: nat, dt: nat)
    requires 0 < w <= dt
    ensures 1_000_000_000 / dt <= 1_000_000_000 / w
  {
    var m := 1_000_000_000 / dt;
    FloorDiv(1_000_000_000, dt);
    MulMono(w, dt, m);
    DivAtLeast(m, 1_000_000_000, w);
  }

  /**
   End to end: after any run on constant-speed motion whose slope window is met,
   a non-zero estimate is within 10^9 / w + 1 of the true speed, and an estimate
   of zero means the true speed is at most 60 000 plus that error.
   */
  lemma EstimateAccurate(o: Obs, es: seq<Event>, v: int, c: int)
    requires JustReset(o) && o.w > 0
    requires var q := Run(o, es).q;
             |q| >= 2 && Quantised(q, v, c) && Meets(q, o.w, Base(q, o.w)) &&
             InInt32(TruncDiv((q[|q| - 1].x - q[Base(q, o.w)].x) * US_PER_S, q[|q| - 1].t - q[Base(q, o.w)].t))
    ensures var n := Run(o, es);
            var bound := 1_000_000_000 / o.w + 1;
            (n.vEst != 0 ==> Abs(n.vEst - v) <= bound) && (n.vEst == 0 ==> Abs(v) <= HYST_HIGH + bound)
  {
    hide RawSlope, Run, Pick, TruncDiv, Meets, Settled;
    RingHoldsLastAccepted(o, es);
    EstimateIsZeroOrFast(o, es);
    LastNIncreasing(Accepted(o.q, es));
    RawSlopeAccurate(Run(o, es).q, o.w, v, c);
    SettledAccurate(Run(o, es), v, 1_000_000_000 / o.w + 1);
  }

  lemma SettledAccurate(n: Obs, v: int, bound: nat)
    requires Settled(n) && Abs(RawSlope(n.q, n.w) - v) <= bound
    ensures n.vEst != 0 ==> Abs(n.vEst - v) <= bound
    ensures n.vEst == 0 ==> Abs(v) <= HYST_HIGH + bound
  {
    hide RawSlope;
  }

  // ----- the stall detector

  /** One pass over the estimate: its result, the milliseconds since the last pass, the duty commanded. */
  datatype Pass = Pass(v: int, dtMs: uint32, duty: uint32)

  /** The pass an event makes, if any: idle ticks do, and samples later than the newest held. */
  function PassesOf(q: seq<Sample>, e: Event, v: int): (ps: seq<Pass>)
    ensures |ps| <= 1
  {
    match e
    case IdleFor(dtMs, duty) => [Pass(v, dtMs, duty)]
    case Arrive(s, duty) =>
      if q == [] || s.t <= q[|q| - 1].t then []
      else [Pass(v, ((s.t - q[|q| - 1].t + 500) / 1000) % UINT32_MOD, duty)]
  }

  /** The passes of a run. */
  function Passes(o: Obs, es: seq<Event>): seq<Pass> {
    if es == [] then []
    else
      var before := es[..|es| - 1];
      Passes(o, before) + PassesOf(Run(o, before).q, es[|es| - 1], Run(o, es).vEst)
  }

  /** Slower than the limit although more than the minimum duty is commanded. */
  predicate Blocked(s: Stall, p: Pass) {
    0 - s.lowSpeed < p.v < s.lowSpeed && p.duty > s.minDuty
  }

  /** How many of the last passes are blocked without a gap. */
  function BlockedTail(s: Stall, ps: seq<Pass>): (n: nat)
    ensures n <= |ps|
  {
    if ps == [] || !Blocked(s, ps[|ps| - 1]) then 0 else BlockedTail(s, ps[..|ps| - 1]) + 1
  }

  function Millis(ps: seq<Pass>): nat {
    if ps == [] then 0 else Millis(ps[..|ps| - 1]) + ps[|ps| - 1].dtMs
  }

  function BlockedMillis(s: Stall, ps: seq<Pass>): nat {
    Millis(ps[|ps| - BlockedTail(s, ps)..])
  }

  lemma BlockedMillisStep(s: Stall, ps: seq<Pass>)
    requires ps != []
    ensures var last := ps[|ps| - 1];
            BlockedMillis(s, ps) == if Blocked(s, last) then BlockedMillis(s, ps[..|ps| - 1]) + last.dtMs else 0
  {
    var before, n := ps[..|ps| - 1], BlockedTail(s, ps);
    var tail := ps[|ps| - n..];
    if Blocked(s, ps[|ps| - 1]) {
      assert tail[..n - 1] == before[|before| - (n - 1)..];
    }
  }

  /** The streak counter never reaches 2^32 ms. */
  ghost predicate ShortStreaks(s: Stall, ps: seq<Pass>) {
    BlockedMillis(s, ps) < UINT32_MOD && (ps != [] ==> ShortStreaks(s, ps[..|ps| - 1]))
  }

  /** The stall state after a run is that of its passes. */
  ghost predicate StallIs(s: Stall, s0: Stall, ps: seq<Pass>) {
    s.lowSpeed == s0.lowSpeed && s.minDuty == s0.minDuty && s.windowMs == s0.windowMs &&
    s.streakMs == BlockedMillis(s0, ps) &&
    (s.stalled <==> BlockedTail(s0, ps) > 0 && BlockedMillis(s0, ps) >= s0.windowMs)
  }

  /**
   Over any run from a reset the wheel counts as stalled exactly when the last
   pass found it slow under duty and the unbroken passes that did so add up to
   the stall window.
   */
  lemma {:induction false} StalledExactly(o: Obs, es: seq<Event>)
    requires JustReset(o) && o.stall.streakMs == 0 && !o.stall.stalled && ShortStreaks(o.stall, Passes(o, es))
    ensures StallIs(Run(o, es).stall, o.stall, Passes(o, es))
    decreases |es|
  {
    hide ShortStreaks, StallIs, Apply, PassesOf, JustReset, NextStall;
    if es == [] {
      NoPasses(o);
    } else {
      var before, e := es[..|es| - 1], es[|es| - 1];
      var p := PassesOf(Run(o, before).q, e, Run(o, es).vEst);
      RingHoldsLastAccepted(o, before);
      assert Run(o, before).q != [] by { LastOfLastN(Accepted(o.q, before)); }
      EventPass(Run(o, before), e);
      if p == [] {
        assert Passes(o, es) == Passes(o, before);
        StalledExactly(o, before);
      } else {
        assert p == [p[0]] && Passes(o, es) == Passes(o, before) + [p[0]];
        ShortBefore(o.stall, Passes(o, before), p[0]);
        StalledExactly(o, before);
        StallStep(Run(o, before).stall, o.stall, Passes(o, before), p[0]);
      }
    }
  }

  lemma NoPasses(o: Obs)
    requires o.stall.streakMs == 0 && !o.stall.stalled
    ensures StallIs(o.stall, o.stall, [])
  {
  }

  lemma ShortBefore(s: Stall, ps: seq<Pass>, p: Pass)
    requires ShortStreaks(s, ps + [p])
    ensures ShortStreaks(s, ps) && BlockedMillis(s, ps + [p]) < UINT32_MOD
  {
    hide BlockedMillis;
    assert (ps + [p])[..|ps + [p]| - 1] == ps;
  }

  /** An event without a pass leaves the stall state; a pass updates it. */
  lemma EventPass(b: Obs, e: Event)
    requires b.primed && b.q != []
    ensures var n := Apply(b, e);
            var ps := PassesOf(b.q, e, n.vEst);
            n.stall == if ps == [] then b.stall else NextStall(b.stall, ps[0].v, ps[0].dtMs, ps[0].duty)
  {
    hide RawSlope, Push, NextStall;
  }

  lemma StallStep(s: Stall, s0: Stall, ps: seq<Pass>, p: Pass)
    requires StallIs(s, s0, ps) && BlockedMillis(s0, ps + [p]) < UINT32_MOD
    ensures StallIs(NextStall(s, p.v, p.dtMs, p.duty), s0, ps + [p])
  {
    assert (ps + [p])[..|ps + [p]| - 1] == ps;
    BlockedMillisStep(s0, ps + [p]);
    hide BlockedMillis;
  }
}
