/**
 The per-motor servo (apps/drivebase/drivebase_servo.c): the glitch gate that
 decides which encoder samples may move the tracked wheel position, and the
 actuation it records.
 */
module Servos {
  import opened CArith
  import opened Observers
  import P = PidControl

  const GLITCH_MDEG: int := 5_000_000
  const AGREE_MDEG: int := 100_000
  const REBASE_RUN: int := 10

  // ----- the glitch gate

  /** The tracked position, the last rejected sample and how many agreed in a row. */
  datatype Gate = Gate(x: int, candidate: int, run: nat)

  predicate IsFar(x: int, sample: int) {
    Abs(sample - x) > GLITCH_MDEG
  }

  predicate Agrees(sample: int, previous: int) {
    Abs(sample - previous) <= AGREE_MDEG
  }

  /** Lines 157-202 of db_servo_update. */
  function GateStep(g: Gate, sample: int): Gate {
    if !IsFar(g.x, sample) then Gate(sample, g.candidate, 0)
    else
      var run := if g.run > 0 && Agrees(sample, g.candidate) then (if g.run < 255 then g.run + 1 else g.run) else 1;
      if run >= REBASE_RUN then Gate(sample, sample, 0) else Gate(g.x, sample, run)
  }

  function GateRun(g: Gate, samples: seq<int>): Gate {
    if samples == [] then g else GateStep(GateRun(g, samples[..|samples| - 1]), samples[|samples| - 1])
  }

  /** Length of the longest block of latest samples that are all far from x, each agreeing with the one before it. */
  function ChainLength(samples: seq<int>, x: int): nat {
    if samples == [] || !IsFar(x, samples[|samples| - 1]) then 0
    else
      var before := samples[..|samples| - 1];
      var n := ChainLength(before, x);
      if n > 0 && Agrees(samples[|samples| - 1], before[|before| - 1]) then n + 1 else 1
  }

  /** A gate that has just been initialised or reset. */
  ghost predicate Fresh(g: Gate) {
    g.run == 0
  }

  /** The gate's counter is the length of the current chain, and shorter than ten. */
  lemma {:induction false} RunIsChain(g: Gate, samples: seq<int>)
    requires Fresh(g)
    ensures var now := GateRun(g, samples);
            now.run == ChainLength(samples, now.x) < REBASE_RUN &&
            (now.run > 0 ==> now.candidate == samples[|samples| - 1])
    decreases |samples|
  {
    if samples != [] {
      RunIsChain(g, samples[..|samples| - 1]);
    }
  }

  /**
   The tracked position moves by more than 5000 degrees in one update if and
   only if the new sample completes a chain of ten; it then moves to that sample.
   A sample within 5000 degrees is followed at once.
   */
  lemma JumpsExactly(g: Gate, samples: seq<int>)
    requires Fresh(g) && samples != []
    ensures var before, now := GateRun(g, samples[..|samples| - 1]), GateRun(g, samples);
            (Abs(now.x - before.x) > GLITCH_MDEG <==> ChainLength(samples, before.x) >= REBASE_RUN) &&
            (now.x == before.x || now.x == samples[|samples| - 1]) &&
            (Abs(samples[|samples| - 1] - before.x) <= 5_000_000 ==> now.x == samples[|samples| - 1])
  {
    RunIsChain(g, samples[..|samples| - 1]);
  }

  /** What a chain of n means for the individual samples. */
  lemma {:induction false} ChainMeaning(samples: seq<int>, x: int, n: nat)
    requires n <= ChainLength(samples, x)
    ensures n <= |samples|
    ensures forall i :: |samples| - n <= i < |samples| ==> IsFar(x, samples[i])
    ensures forall i :: |samples| - n < i < |samples| ==> Agrees(samples[i], samples[i - 1])
    decreases |samples|
  {
    if n > 0 {
      ChainMeaning(samples[..|samples| - 1], x, n - 1);
    }
  }

  /**
   So a single jump is never due to fewer than ten consecutive data samples,
   all that far away and each within 100 degrees of its predecessor.
   */
  lemma JumpNeedsTen(g: Gate, samples: seq<int>)
    requires Fresh(g) && samples != []
    requires Abs(GateRun(g, samples).x - GateRun(g, samples[..|samples| - 1]).x) > GLITCH_MDEG
    ensures |samples| >= REBASE_RUN
    ensures var x := GateRun(g, samples[..|samples| - 1]).x;
            forall i :: |samples| - REBASE_RUN <= i < |samples| ==> IsFar(x, samples[i])
    ensures forall i :: |samples| - REBASE_RUN < i < |samples| ==> Agrees(samples[i], samples[i - 1])
  {
    JumpsExactly(g, samples);
    ChainMeaning(samples, GateRun(g, samples[..|samples| - 1]).x, REBASE_RUN);
  }

  // ----- the servo object

  /** What drivebase_motor_drain hands over. */
  datatype Drain = Data(raw: int32, t: nat) | NoData | Lost

  /** What a motor actuation call returns. */
  datatype Applied = AppliedOk | ApplyFailed

  class Servo {
    const observer: Observer
    var x: int
    var vEstimate: int
    var tLast: nat
    var lastDuty: int32
    var lastActuation: int
    var candidate: int
    var candidateRun: nat

    predicate Valid()
      reads this, observer
    {
      observer.Valid() && Abs(lastDuty) <= 10000
    }

    function Tracking(): Gate
      reads this
    {
      Gate(x, candidate, candidateRun)
    }

    constructor (lowSpeed: uint32, minDuty: uint32, stallWindowMs: uint32)
      ensures Valid() && fresh(observer) && fresh(observer.ring) && Tracking() == Gate(0, 0, 0)
    {
      observer := new Observer(lowSpeed, minDuty, stallWindowMs, 30);
      x, vEstimate, tLast, lastDuty, lastActuation, candidate, candidateRun := 0, 0, 0, 0, P.COAST, 0, 0;
    }

    /** db_servo_reset after its drain: seed from a sample, or neutrally from the clock. */
    method Reset(d: Drain, now: nat)
      requires Valid()
      modifies this, observer, observer.ring
      ensures Valid() && Fresh(Tracking()) && x == (if d.Data? then d.raw * 1000 else 0)
      ensures observer.View() == ResetTo(old(observer.View()), Sample(tLast, x)) && tLast <= now
      ensures lastDuty == 0 && lastActuation == P.COAST
    {
      if d.Data? {
        x := d.raw * 1000;
        tLast := if d.t > now then now else d.t;
      } else {
        x, tLast := 0, now;
      }
      observer.Reset(x, tLast);
      vEstimate, lastDuty, lastActuation, candidate, candidateRun := 0, 0, P.COAST, 0, 0;
    }

    /** db_servo_update; `lost` reports that a reclaim was requested. */
    method Update(d: Drain, now: nat) returns (lost: bool)
      requires Valid()
      modifies this, observer, observer.ring
      ensures Valid() && lost == d.Lost?
      ensures Tracking() == if d.Data? then GateStep(old(Tracking()), d.raw * 1000) else old(Tracking())
      ensures var o, duty := old(observer.View()), Abs(old(lastDuty));
              observer.View() ==
                if d.Data? then
                  (if !IsFar(old(x), d.raw * 1000) then Observers.Update(o, Sample(d.t, x), duty)
                   else if x != old(x) then ResetTo(o, Sample(d.t, x)) else o)
                else if d.NoData? then
                  Idle(o, if now > old(tLast) then ((now - old(tLast)) / 1000) % UINT32_MOD else 0, duty)
                else o
      ensures tLast == now && vEstimate == observer.vEst
      ensures lastDuty == old(lastDuty) && lastActuation == old(lastActuation)
    {
      hide Observers.Update, Idle;
      lost := false;
      var duty := Abs(lastDuty);
      match d {
        case Data(raw, t) =>
          Ingest(raw * 1000, t, duty);
        case NoData =>
          var dtMs := if now > tLast then ((now - tLast) / 1000) % UINT32_MOD else 0;
          observer.IdleTick(dtMs, duty);
        case Lost =>
          lost := true;
      }
      tLast := now;
      vEstimate := observer.vEst;
    }

    method Ingest(xNew: int, t: nat, duty: uint32)
      requires Valid()
      modifies this`x, this`candidate, this`candidateRun, observer, observer.ring
      ensures Valid() && Tracking() == GateStep(old(Tracking()), xNew)
      ensures observer.View() ==
                if !IsFar(old(x), xNew) then Observers.Update(old(observer.View()), Sample(t, xNew), duty)
                else if x != old(x) then ResetTo(old(observer.View()), Sample(t, xNew)) else old(observer.View())
    {
      hide Observers.Update;
      var dTrack := Abs(xNew - x);
      if dTrack <= GLITCH_MDEG {
        candidateRun := 0;
        x := xNew;
        observer.UpdateSample(xNew, t, duty);
      } else {
        var dCand := Abs(xNew - candidate);
        if candidateRun > 0 && dCand <= AGREE_MDEG {
          if candidateRun < 255 { candidateRun := candidateRun + 1; }
        } else {
          candidateRun := 1;
        }
        candidate := xNew;
        if candidateRun >= REBASE_RUN {
          candidateRun := 0;
          x := xNew;
          observer.Reset(xNew, t);
        }
      }
    }

    /** db_servo_apply: the duty recorded is the one that reached the motor. */
    method Apply(duty: int32, actuation: int, rc: Applied)
      requires Valid()
      modifies this`lastDuty, this`lastActuation
      ensures Valid()
      ensures actuation == P.COAST || actuation == P.COAST_SMART ==> lastDuty == 0 && lastActuation == P.COAST
      ensures actuation == P.BRAKE || actuation == P.BRAKE_SMART ==> lastDuty == 0 && lastActuation == P.BRAKE
      ensures actuation == P.HOLD || actuation == P.CONTINUE ==>
                lastActuation == P.HOLD && lastDuty == if rc.AppliedOk? then Clamp(duty, -10000, 10000) else 0
    {
      if actuation == P.COAST || actuation == P.COAST_SMART {
        lastDuty, lastActuation := 0, P.COAST;
      } else if actuation == P.BRAKE || actuation == P.BRAKE_SMART {
        lastDuty, lastActuation := 0, P.BRAKE;
      } else {
        lastDuty := if rc.AppliedOk? then Clamp(duty, -10000, 10000) else 0;
        lastActuation := P.HOLD;
      }
    }
  }
}
