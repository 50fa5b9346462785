/**
 The speed observer (apps/drivebase/drivebase_observer.c): a ring of recent
 encoder samples, an adaptive-window slope over it, zero-speed hysteresis and
 stall detection.
 */
module Observers {
  import opened CArith

  const RING_DEPTH: int := 128
  const US_PER_S: int := 1_000_000
  const LSB_THRESHOLD: int := 3000
  const HYST_LOW: int := 30_000
  const HYST_HIGH: int := 60_000

  datatype Sample = Sample(t: nat, x: int)

  // ----- the observer on sequences

  /** Keep the newest samples only. */
  function Push(q: seq<Sample>, s: Sample): seq<Sample> {
    if |q| < RING_DEPTH then q + [s] else q[|q| + 1 - RING_DEPTH..] + [s]
  }

  /** Both stop criteria of the backward walk hold at sample i. */
  predicate Meets(q: seq<Sample>, w: nat, i: nat)
    requires i < |q|
  {
    var n := q[|q| - 1];
    n.t - q[i].t >= w && Abs(n.x - q[i].x) >= LSB_THRESHOLD
  }

  /** The walk back from sample i: the nearest one that meets both criteria, else the oldest. */
  function Pick(q: seq<Sample>, w: nat, i: nat): (p: nat)
    requires i < |q|
    ensures p <= i
    ensures Meets(q, w, p) || p == 0
    ensures forall k :: p < k <= i ==> !Meets(q, w, k)
  {
    if i == 0 || Meets(q, w, i) then i else Pick(q, w, i - 1)
  }

  /** v_slope_raw_mdegps. */
  function RawSlope(q: seq<Sample>, w: nat): int {
    if |q| < 2 then 0 else SlopeFrom(q[Pick(q, w, |q| - 2)], q[|q| - 1])
  }

  function SlopeFrom(old_: Sample, new_: Sample): int {
    if new_.t <= old_.t then 0
    else Clamp(TruncDiv((new_.x - old_.x) * US_PER_S, new_.t - old_.t), INT32_MIN, INT32_MAX)
  }

  /** The state the estimate depends on. */
  datatype Obs = Obs(q: seq<Sample>, w: nat, vEst: int, primed: bool, snapped: bool, stall: Stall)

  datatype Stall = Stall(lowSpeed: uint32, minDuty: uint32, windowMs: uint32, streakMs: uint32, stalled: bool)

  /** apply_zero_hysteresis: released only above the high threshold, snapped below the low one. */
  function Hysteresis(snapped: bool, raw: int): (bool, int) {
    if snapped then (if Abs(raw) > HYST_HIGH then (false, raw) else (true, 0))
    else if Abs(raw) < HYST_LOW then (true, 0)
    else (false, raw)
  }

  /** update_stall. */
  function NextStall(s: Stall, v: int, dtMs: uint32, duty: uint32): Stall {
    if Abs(v) < s.lowSpeed && duty > s.minDuty then
      var streak := (s.streakMs + dtMs) % UINT32_MOD;
      s.(streakMs := streak, stalled := s.stalled || streak >= s.windowMs)
    else s.(streakMs := 0, stalled := false)
  }

  /** Slope, hysteresis and stall over the samples held. */
  function Estimate(o: Obs, dtMs: uint32, duty: uint32): Obs {
    var (snapped, v) := Hysteresis(o.snapped, RawSlope(o.q, o.w));
    o.(snapped := snapped, vEst := v, stall := NextStall(o.stall, v, dtMs, duty))
  }

  function ResetTo(o: Obs, s: Sample): Obs {
    Obs([s], o.w, 0, true, true, o.stall.(streakMs := 0, stalled := false))
  }

  /** db_observer_update_sample. */
  function Update(o: Obs, s: Sample, duty: uint32): Obs {
    if !o.primed || o.q == [] then o.(q := [s], primed := true)
    else
      var prev := o.q[|o.q| - 1];
      if s.t <= prev.t then o
      else Estimate(o.(q := Push(o.q, s)), ((s.t - prev.t + 500) / 1000) % UINT32_MOD, duty)
  }

  /** db_observer_idle_tick. */
  function Idle(o: Obs, dtMs: uint32, duty: uint32): Obs {
    if !o.primed then o else Estimate(o, dtMs, duty)
  }

  // ----- the circular array

  /** The live samples of a ring, oldest first, given the next write slot. */
  function Live(r: seq<Sample>, head: nat, count: nat): (q: seq<Sample>)
    requires |r| == RING_DEPTH && head < RING_DEPTH && count <= RING_DEPTH
    ensures |q| == count
  {
    if count < RING_DEPTH then r[..count] else r[head..] + r[..head]
  }

  function Newest(head: nat): nat
    requires head < RING_DEPTH
  {
    (head + RING_DEPTH - 1) % RING_DEPTH
  }

  /** The slot i steps before the newest. */
  function Slot(head: nat, i: nat): nat
    requires head < RING_DEPTH && i <= RING_DEPTH
  {
    (Newest(head) + RING_DEPTH - i) % RING_DEPTH
  }

  /** The slot without the modulus: below the write slot, or wrapped to the top. */
  lemma SlotIs(head: nat, i: nat)
    requires head < RING_DEPTH && i < RING_DEPTH
    ensures Slot(head, i) == if i < head then head - 1 - i else head + RING_DEPTH - 1 - i
  {
    assert Newest(head) == if head > 0 then head - 1 else RING_DEPTH - 1;
    hide Newest;
  }

  lemma SlotHolds(r: seq<Sample>, head: nat, count: nat, i: nat)
    requires |r| == RING_DEPTH && head < RING_DEPTH && i < count <= RING_DEPTH
    requires count < RING_DEPTH ==> head == count
    ensures r[Slot(head, i)] == Live(r, head, count)[count - 1 - i]
  {
    SlotIs(head, i);
    hide Slot, Newest;
  }

  lemma AppendLive(r: seq<Sample>, head: nat, count: nat, s: Sample)
    requires |r| == RING_DEPTH && head < RING_DEPTH && count <= RING_DEPTH
    requires count < RING_DEPTH ==> head == count
    ensures Live(r[head := s], (head + 1) % RING_DEPTH, if count < RING_DEPTH then count + 1 else count)
         == Push(Live(r, head, count), s)
  {
    var next := if head + 1 < RING_DEPTH then head + 1 else 0;
    assert (head + 1) % RING_DEPTH == next;
    if count < RING_DEPTH { AppendWhileFilling(r, count, next, s); } else { AppendWhenFull(r, head, next, s); }
    hide Live, Push;
  }

  lemma AppendWhileFilling(r: seq<Sample>, count: nat, next: nat, s: Sample)
    requires |r| == RING_DEPTH && count < RING_DEPTH && next == if count + 1 < RING_DEPTH then count + 1 else 0
    ensures Live(r[count := s], next, count + 1) == Push(Live(r, count, count), s)
  {
    AppendFilling(r, count, s);
    if count + 1 == RING_DEPTH { assert r[count := s][0..] + r[count := s][..0] == r[count := s]; }
  }

  lemma AppendWhenFull(r: seq<Sample>, head: nat, next: nat, s: Sample)
    requires |r| == RING_DEPTH && head < RING_DEPTH && next == if head + 1 < RING_DEPTH then head + 1 else 0
    ensures Live(r[head := s], next, RING_DEPTH) == Push(Live(r, head, RING_DEPTH), s)
  {
    AppendFull(r, head, s);
  }

  lemma AppendFilling(r: seq<Sample>, count: nat, s: Sample)
    requires count < |r|
    ensures r[count := s][..count + 1] == r[..count] + [s]
    ensures count + 1 == |r| ==> r[count := s] == r[..count] + [s]
  {
  }

  /** A full ring drops its oldest sample, the one in the write slot. */
  lemma AppendFull(r: seq<Sample>, head: nat, s: Sample)
    requires head < |r|
    ensures var r' := r[head := s];
            (r[head..] + r[..head])[1..] + [s] == if head + 1 < |r| then r'[head + 1..] + r'[..head + 1] else r'[0..] + r'[..0]
  {
    AppendFilling(r, head, s);
    assert (r[head..] + r[..head])[1..] == r[head + 1..] + r[..head];
    assert r[head := s][head + 1..] == r[head + 1..];
  }

  // ----- the observer object

  class Observer {
    const ring: array<Sample>
    var head: nat
    var count: nat
    var vEst: int
    var minWindowUs: nat
    var primed: bool
    var snapped: bool
    var stall: Stall

    predicate Valid()
      reads this
    {
      ring.Length == RING_DEPTH && head < RING_DEPTH && count <= RING_DEPTH &&
      (count < RING_DEPTH ==> head == count) && (primed ==> count > 0)
    }

    /** The live samples, oldest first. */
    function Contents(): (q: seq<Sample>)
      requires Valid()
      reads this, ring
      ensures |q| == count
    {
      Live(ring[..], head, count)
    }

    function View(): Obs
      requires Valid()
      reads this, ring
    {
      Obs(Contents(), minWindowUs, vEst, primed, snapped, stall)
    }

    constructor (lowSpeed: uint32, minDuty: uint32, stallWindowMs: uint32, windowMs: uint32)
      ensures Valid() && fresh(ring)
      ensures View() == Obs([], (if windowMs != 0 then windowMs else 30) * 1000, 0, false, true,
                            Stall(lowSpeed, minDuty, stallWindowMs, 0, false))
    {
      ring := new Sample[128](_ => Sample(0, 0));
      head, count, vEst, primed, snapped := 0, 0, 0, false, true;
      minWindowUs := (if windowMs != 0 then windowMs else 30) * 1000;
      stall := Stall(lowSpeed, minDuty, stallWindowMs, 0, false);
    }

    method Reset(x: int, t: nat)
      requires Valid()
      modifies this, ring
      ensures Valid() && View() == ResetTo(old(View()), Sample(t, x))
    {
      vEst, snapped := 0, true;
      stall := stall.(streakMs := 0, stalled := false);
      Prime(Sample(t, x));
    }

    /** The ring holds just this sample. */
    method Prime(s: Sample)
      requires Valid()
      modifies this, ring
      ensures Valid() && View() == old(View()).(q := [s], primed := true)
    {
      ring[0] := s;
      head, count, primed := 1, 1, true;
      assert Contents() == [s];
    }

    method SlopeRaw() returns (v: int)
      requires Valid()
      ensures v == RawSlope(Contents(), minWindowUs)
    {
      hide Live, Pick, TruncDiv;
      if count < 2 {
        return 0;
      }
      ghost var q := Contents();
      SlotHolds(ring[..], head, count, 0);
      var newest := Newest(head);
      var tNew, xNew := ring[newest].t, ring[newest].x;
      assert Sample(tNew, xNew) == q[count - 1];
      var pick := WalkBack(tNew, xNew);
      var dt := tNew - ring[pick].t;
      if dt <= 0 {
        return 0;
      }
      v := TruncDiv((xNew - ring[pick].x) * US_PER_S, dt);
      if v > INT32_MAX { v := INT32_MAX; }
      if v < INT32_MIN { v := INT32_MIN; }
    }

    /** Lines 86-98: the backward walk over the ring. */
    method WalkBack(tNew: nat, xNew: int) returns (pick: nat)
      requires Valid() && count >= 2 && Contents()[count - 1] == Sample(tNew, xNew)
      ensures pick < RING_DEPTH && ring[pick] == Contents()[Pick(Contents(), minWindowUs, count - 2)]
    {
      ghost var q := Contents();
      var i := 1;
      while true
        invariant 1 <= i < count
        invariant Pick(q, minWindowUs, count - 2) == Pick(q, minWindowUs, count - 1 - i)
        decreases count - i
      {
        pick := Slot(head, i);
        SlotHolds(ring[..], head, count, i);
        var elapsed := tNew - ring[pick].t;
        var dxAbs := Abs(xNew - ring[pick].x);
        if elapsed >= minWindowUs && dxAbs >= LSB_THRESHOLD {
          assert Meets(q, minWindowUs, count - 1 - i);
          return;
        }
        i := i + 1;
        if i >= count {
          return;
        }
      }
    }

    method Refresh(dtMs: uint32, duty: uint32)
      requires Valid()
      modifies this
      ensures Valid() && View() == Estimate(old(View()), dtMs, duty)
    {
      var raw := SlopeRaw();
      if snapped {
        if Abs(raw) > HYST_HIGH {
          snapped, vEst := false, raw;
        } else {
          vEst := 0;
        }
      } else if Abs(raw) < HYST_LOW {
        snapped, vEst := true, 0;
      } else {
        vEst := raw;
      }
      stall := NextStall(stall, vEst, dtMs, duty);
    }

    method UpdateSample(x: int, t: nat, duty: uint32)
      requires Valid()
      modifies this, ring
      ensures Valid() && View() == Update(old(View()), Sample(t, x), duty)
    {
      hide Estimate, Push, Live;
      if !primed {
        Prime(Sample(t, x));
        return;
      }
      var prev := Newest(head);
      SlotHolds(ring[..], head, count, 0);
      var tPrev := ring[prev].t;
      if t <= tPrev {
        return;
      }
      Append(Sample(t, x));
      Refresh(((t - tPrev + 500) / 1000) % UINT32_MOD, duty);
    }

    method Append(s: Sample)
      requires Valid() && primed
      modifies this, ring
      ensures Valid() && View() == old(View()).(q := Push(old(Contents()), s))
    {
      hide Live, Push;
      AppendLive(ring[..], head, count, s);
      ghost var r := ring[..];
      ring[head] := s;
      assert ring[..] == r[head := s];
      head := (head + 1) % RING_DEPTH;
      if count < RING_DEPTH {
        count := count + 1;
      }
    }

    method IdleTick(dtMs: uint32, duty: uint32)
      requires Valid()
      modifies this
      ensures Valid() && View() == Idle(old(View()), dtMs, duty)
    {
      if primed {
        Refresh(dtMs, duty);
      }
    }
  }
}
