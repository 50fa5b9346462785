/**
 What a receiver gets from the bundle emitter: every drained sample once, in
 order, each under the configuration it was taken with, over any run of ticks.
 */
module BundleRuns {
  import opened CArith
  import opened Wire
  import opened Bundle
  import Tx

  // ----- splitting one drain

  function Concat(parts: seq<Slice>): seq<Imu> {
    if parts == [] then [] else parts[0] + Concat(parts[1..])
  }

  /**
   The runs partition the drain in order; each is non-empty and of one
   configuration, and neighbours differ, so each is maximal.
   */
  lemma {:induction false} RunsPartition(ss: Slice)
    ensures Concat(Runs(ss)) == ss && Maximal(Runs(ss))
    decreases |ss|
  {
    if ss != [] {
      var n := RunFrom(ss, 1);
      var head: Slice, tail: Slice := ss[..n], ss[n..];
      RunsPartition(tail);
      RunsStartWith(tail);
      assert Homogeneous(head) && (tail != [] ==> !SameConfig(head[0], tail[0]));
      RunsCons(ss);
      hide Runs, Concat, RunFrom, Homogeneous, SameConfig;
      FirstRunJoins(head, tail, Runs(tail));
      assert ss == head + tail;
    }
  }

  lemma FirstRunJoins(head: Slice, tail: Slice, runs: seq<Slice>)
    requires Homogeneous(head) && Maximal(runs) && Concat(runs) == tail
    requires runs != [] ==> !SameConfig(head[0], runs[0][0])
    ensures Concat([head] + runs) == head + tail && Maximal([head] + runs)
  {
    ConcatCons(head, runs);
    Neighbours(head, runs);
  }

  /** A non-empty slice of one configuration. */
  ghost predicate Homogeneous(ss: seq<Imu>) {
    ss != [] && forall i :: 0 <= i < |ss| ==> SameConfig(ss[i], ss[0])
  }

  /** Every run is homogeneous and no run could be joined with the next. */
  ghost predicate Maximal(runs: seq<Slice>) {
    (forall k :: 0 <= k < |runs| ==> Homogeneous(runs[k])) &&
    forall k :: 1 <= k < |runs| ==> !SameConfig(runs[k - 1][0], runs[k][0])
  }

  lemma Neighbours(head: Slice, runs: seq<Slice>)
    requires Homogeneous(head) && Maximal(runs)
    requires runs != [] ==> !SameConfig(head[0], runs[0][0])
    ensures Maximal([head] + runs)
  {
    var all := [head] + runs;
    forall k | 1 <= k < |all| ensures !SameConfig(all[k - 1][0], all[k][0]) {
      assert all[k] == runs[k - 1];
      if k > 1 { assert all[k - 1] == runs[k - 2]; }
    }
  }

  lemma RunsCons(ss: Slice)
    requires ss != []
    ensures Runs(ss) == [ss[..RunFrom(ss, 1)]] + Runs(ss[RunFrom(ss, 1)..])
  {
  }

  lemma ConcatCons(head: Slice, runs: seq<Slice>)
    ensures Concat([head] + runs) == head + Concat(runs)
  {
    assert ([head] + runs)[1..] == runs;
  }

  lemma RunsStartWith(ss: Slice)
    ensures ss == [] ==> Runs(ss) == []
    ensures ss != [] ==> Runs(ss) != [] && Runs(ss)[0] != [] && Runs(ss)[0][0] == ss[0]
  {
  }

  // ----- the frames of one tick

  lemma {:induction false} FramesAre(s: State, parts: seq<Slice>, now: uint32, snaps: seq<Snapshot>, i: nat)
    requires i < |parts| <= |snaps|
    ensures FramesFor(s, parts, now, snaps)[i] == FrameFor(AfterFrames(s, parts[..i]), parts[i], now, snaps[i])
  {
    hide FrameFor, AfterFrames;
    var n := |parts| - 1;
    if i < n {
      FramesAre(s, parts[..n], now, snaps, i);
      assert parts[..n][..i] == parts[..i];
    }
  }

  lemma SeqAfterAfter(a: uint16, m: nat, n: nat)
    ensures SeqAfter(SeqAfter(a, m), n) == SeqAfter(a, m + n)
  {
    var q := (a + m) / SEQ_MOD;
    assert a + m == q * SEQ_MOD + SeqAfter(a, m);
    ModShift(SeqAfter(a, m) + n, q);
  }

  lemma ModShift(x: nat, q: nat)
    ensures (q * SEQ_MOD + x) % SEQ_MOD == x % SEQ_MOD
  {
    var k := x / SEQ_MOD;
    assert q * SEQ_MOD + x == (q + k) * SEQ_MOD + x % SEQ_MOD;
  }

  lemma {:induction false} SequenceNumbers(s: State, parts: seq<Slice>)
    ensures AfterFrames(s, parts).seqNo == SeqAfter(s.seqNo, |parts|)
    ensures AfterFrames(s, parts).imuOn == s.imuOn && AfterFrames(s, parts).sensorOn == s.sensorOn
  {
    if parts != [] {
      SequenceNumbers(s, parts[..|parts| - 1]);
      SeqAfterAfter(s.seqNo, |parts| - 1, 1);
      hide SeqAfter;
    }
  }

  /**
   The i-th frame of a tick decodes to its part: the next sequence number, the
   absolute time of every sample, the rate and ranges of the configuration all
   its samples share, and the i-th snapshot's TLVs. It always fits the arbiter.
   */
  lemma FrameDecodes(s: State, parts: seq<Slice>, now: uint32, snaps: seq<Snapshot>, i: nat)
    requires i < |parts| <= |snaps|
    ensures var f := FramesFor(s, parts, now, snaps)[i];
            var ss := parts[i];
            0 < |f| <= Tx.FRAME_MAX_SIZE && Decode(f).Some? &&
            var d := Decode(f).value;
            d.samples == SeenAll(ss) && d.tlvs == SeenTlvs(snaps[i], TLV_COUNT) &&
            d.header.seqNo == (s.seqNo + i) % 0x1_0000 &&
            (d.header.flags as bv8 & 0x01 != 0 <==> s.imuOn) && (d.header.flags as bv8 & 0x02 != 0 <==> s.sensorOn) &&
            (ss != [] ==> d.header.tick == ss[0].ts && d.header.odrHz == OdrHz(ss[0].odrIdx) &&
                          d.header.xlG == XlG(ss[0].xlIdx) && d.header.gyDps == GyDps(ss[0].gyIdx)) &&
            (ss == [] ==> d.header.tick == now) &&
            (ss == [] && !s.imuOn ==> d.header.odrHz == OdrHz(0) && d.header.xlG == XlG(0) && d.header.gyDps == GyDps(0))
  {
    FlagBits(s);
    SeqIsRaw(s.seqNo, i);
    FramesAre(s, parts, now, snaps, i);
    SequenceNumbers(s, parts[..i]);
    hide SeqAfter, Flags;
    var at := AfterFrames(s, parts[..i]);
    OneFrameDecodes(at, parts[i], now, snaps[i]);
    assert Flags(at) == Flags(s) by { FlagsOfSwitches(at, s); }
    hide FramesFor, AfterFrames, FrameFor, Decode, SeenAll, SeenTlvs, OdrHz, XlG, GyDps;
  }

  lemma SeqIsRaw(a: uint16, n: nat)
    ensures SeqAfter(a, n) == (a + n) % 0x1_0000
  {
  }

  lemma FlagsOfSwitches(a: State, b: State)
    requires a.imuOn == b.imuOn && a.sensorOn == b.sensorOn
    ensures Flags(a) == Flags(b)
  {
  }

  /** Bit 0 of the flags says the IMU is on, bit 1 that the sensors are. */
  lemma FlagBits(s: State)
    ensures Flags(s) as bv8 & 0x01 != 0 <==> s.imuOn
    ensures Flags(s) as bv8 & 0x02 != 0 <==> s.sensorOn
  {
  }

  lemma OneFrameDecodes(s: State, ss: Slice, now: uint32, snap: Snapshot)
    ensures var f := FrameFor(s, ss, now, snap);
            0 < |f| <= Tx.FRAME_MAX_SIZE && Decode(f) == Some(Decoded(HeaderFor(s, ss, now), SeenAll(ss), SeenTlvs(snap, TLV_COUNT)))
  {
    hide Decode, EncodeFrame, SeenAll, SeenTlvs, HeaderFor;
    FrameRoundTrip(HeaderFor(s, ss, now), ss, snap);
  }

  // ----- how many frames

  /** How often the configuration changes from one sample to the next. */
  function Changes(ss: seq<Imu>): nat {
    if |ss| < 2 then 0
    else Changes(ss[1..]) + (if SameConfig(ss[0], ss[1]) then 0 else 1)
  }

  /** A tick emits one frame, and one more for every change of configuration in what it drained with the IMU on. */
  lemma FramesPerTick(s: State, t: TickInput)
    requires IMU_SAMPLES_MAX <= |t.snaps|
    ensures |TickFrames(s, t)| == 1 + if t.imuOn then Changes(t.drained) else 0
  {
    hide TickFrames;
    if t.drained != [] { RunsAreChanges(t.drained); }
  }

  lemma {:induction false} RunsAreChanges(ss: Slice)
    requires ss != []
    ensures |Runs(ss)| == 1 + Changes(ss)
    decreases |ss|
  {
    var n := RunFrom(ss, 1);
    ChangesAfter(ss, n);
    if n < |ss| {
      RunsAreChanges(ss[n..]);
    } else {
      assert Runs(ss[n..]) == [];
    }
  }

  /** No change inside the first run, one at its end. */
  lemma {:induction false} ChangesAfter(ss: seq<Imu>, n: nat)
    requires 1 <= n <= |ss|
    requires forall i :: 0 <= i < n ==> SameConfig(ss[i], ss[0])
    requires n < |ss| ==> !SameConfig(ss[n], ss[0])
    ensures Changes(ss) == if n < |ss| then 1 + Changes(ss[n..]) else 0
    decreases n
  {
    if n > 1 {
      assert SameConfig(ss[1], ss[0]);
      ChangesAfter(ss[1..], n - 1);
      assert ss[1..][n - 1..] == ss[n..];
    }
  }

  // ----- the receiver

  /** The samples of a stream of frames, in order; None as soon as a frame does not decode. */
  function Received(frames: seq<seq<byte>>): Option<seq<Sample>> {
    if frames == [] then Some([])
    else
      var before := Received(frames[..|frames| - 1]);
      var last := Decode(frames[|frames| - 1]);
      if before.None? || last.None? then None else Some(before.value + last.value.samples)
  }

  lemma {:induction false} ReceivedConcat(f: seq<seq<byte>>, g: seq<seq<byte>>)
    requires Received(f).Some? && Received(g).Some?
    ensures Received(f + g) == Some(Received(f).value + Received(g).value)
  {
    hide Decode;
    if g == [] {
      assert f + g == f && Received(f).value + [] == Received(f).value;
    } else {
      var n := |g| - 1;
      ReceivedConcat(f, g[..n]);
      assert (f + g)[..|f + g| - 1] == f + g[..n] && (f + g)[|f + g| - 1] == g[n];
      var x, y, z := Received(f).value, Received(g[..n]).value, Decode(g[n]).value.samples;
      assert (x + y) + z == x + (y + z);
    }
  }

  lemma {:induction false} SeenConcat(a: seq<Imu>, b: seq<Imu>)
    ensures SeenAll(a + b) == SeenAll(a) + SeenAll(b)
  {
    hide Seen;
    if b == [] {
      assert a + b == a;
    } else {
      var n := |b| - 1;
      SeenConcat(a, b[..n]);
      assert (a + b)[..|a + b| - 1] == a + b[..n];
    }
  }

  lemma {:induction false} ConcatSnoc(parts: seq<Slice>, part: Slice)
    ensures Concat(parts + [part]) == Concat(parts) + part
  {
    if parts == [] {
      assert parts + [part] == [part] && [part][1..] == [];
      assert Concat([part]) == part + [];
    } else {
      ConcatSnoc(parts[1..], part);
      assert (parts + [part])[1..] == parts[1..] + [part];
    }
  }

  lemma {:induction false} PartsReceived(s: State, parts: seq<Slice>, now: uint32, snaps: seq<Snapshot>)
    requires |parts| <= |snaps|
    ensures Received(FramesFor(s, parts, now, snaps)) == Some(SeenAll(Concat(parts)))
  {
    hide AfterFrames, FrameFor;
    if parts != [] {
      hide FramesFor, Received, SeenAll, Concat;
      var before, last := parts[..|parts| - 1], parts[|parts| - 1];
      assert parts == before + [last];
      PartsReceived(s, before, now, snaps);
      PartReceived(s, before, last, now, snaps);
    }
  }

  lemma PartReceived(s: State, before: seq<Slice>, last: Slice, now: uint32, snaps: seq<Snapshot>)
    requires |before| < |snaps| && Received(FramesFor(s, before, now, snaps)) == Some(SeenAll(Concat(before)))
    ensures Received(FramesFor(s, before + [last], now, snaps)) == Some(SeenAll(Concat(before + [last])))
  {
    hide *;
    var at := AfterFrames(s, before);
    Emit(s, before, last, now, snaps);
    OneReceived(at, last, now, snaps[|before|]);
    ReceivedConcat(FramesFor(s, before, now, snaps), [FrameFor(at, last, now, snaps[|before|])]);
    ConcatSnoc(before, last);
    SeenConcat(Concat(before), last);
  }

  lemma OneReceived(s: State, ss: Slice, now: uint32, snap: Snapshot)
    ensures Received([FrameFor(s, ss, now, snap)]) == Some(SeenAll(ss))
  {
    OneFrameDecodes(s, ss, now, snap);
    hide Decode, FrameFor, SeenAll;
    var one := [FrameFor(s, ss, now, snap)];
    assert one[..0] == [] && [] + SeenAll(ss) == SeenAll(ss);
  }

  // ----- runs of ticks

  /** One tick: the switches in force, what the sampler holds, the clock and the sensor snapshots. */
  datatype TickInput = TickInput(imuOn: bool, sensorOn: bool, drained: Slice, now: uint32, snaps: seq<Snapshot>)

  ghost predicate WellFed(ticks: seq<TickInput>) {
    forall k :: 0 <= k < |ticks| ==> IMU_SAMPLES_MAX <= |ticks[k].snaps|
  }

  function Switched(s: State, t: TickInput): State {
    s.(imuOn := t.imuOn, sensorOn := t.sensorOn)
  }

  function PartsOf(s: State, t: TickInput): (parts: seq<Slice>)
    ensures 1 <= |parts| <= IMU_SAMPLES_MAX
  {
    RunsStartWith(t.drained);
    Parts(Switched(s, t), t.drained)
  }

  function TickFrames(s: State, t: TickInput): (frames: seq<seq<byte>>)
    requires IMU_SAMPLES_MAX <= |t.snaps|
    ensures |frames| == |PartsOf(s, t)|
  {
    FramesFor(Switched(s, t), PartsOf(s, t), t.now, t.snaps)
  }

  function RunState(s: State, ticks: seq<TickInput>): State {
    if ticks == [] then s
    else
      var before := RunState(s, ticks[..|ticks| - 1]);
      AfterFrames(Switched(before, ticks[|ticks| - 1]), PartsOf(before, ticks[|ticks| - 1]))
  }

  function RunFrames(s: State, ticks: seq<TickInput>): seq<seq<byte>>
    requires WellFed(ticks)
  {
    if ticks == [] then []
    else
      RunFrames(s, ticks[..|ticks| - 1]) +
      TickFrames(RunState(s, ticks[..|ticks| - 1]), ticks[|ticks| - 1])
  }

  /** Everything drained while the IMU was on. */
  function Drained(ticks: seq<TickInput>): seq<Imu> {
    if ticks == [] then []
    else Drained(ticks[..|ticks| - 1]) + (if ticks[|ticks| - 1].imuOn then ticks[|ticks| - 1].drained else [])
  }

  lemma TickReceived(s: State, t: TickInput)
    requires IMU_SAMPLES_MAX <= |t.snaps|
    ensures Received(TickFrames(s, t)) == Some(SeenAll(if t.imuOn then t.drained else []))
  {
    PartsReceived(Switched(s, t), PartsOf(s, t), t.now, t.snaps);
    if t.imuOn && t.drained != [] {
      RunsPartition(t.drained);
    } else {
      assert PartsOf(s, t) == [[]];
      assert Concat([[]]) == [] + Concat([]);
    }
  }

  /**
   Over any run of ticks, the receiver decodes every frame and recovers exactly
   the samples drained while the IMU was on, each once, in order, with its
   absolute time stamp.
   */
  lemma {:induction false} ReceiverSeesEverySample(s: State, ticks: seq<TickInput>)
    requires WellFed(ticks)
    ensures Received(RunFrames(s, ticks)) == Some(SeenAll(Drained(ticks)))
  {
    if ticks != [] {
      var before, t := ticks[..|ticks| - 1], ticks[|ticks| - 1];
      ReceiverSeesEverySample(s, before);
      TickReceived(RunState(s, before), t);
      hide TickFrames, SeenAll, Received, PartsOf, AfterFrames;
      ReceivedConcat(RunFrames(s, before), TickFrames(RunState(s, before), t));
      SeenConcat(Drained(before), if t.imuOn then t.drained else []);
    }
  }

  /** The k-th frame since start carries sequence number seqNo + k modulo 2^16. */
  lemma {:induction false} ConsecutiveSequence(s: State, ticks: seq<TickInput>, k: nat)
    requires WellFed(ticks) && k < |RunFrames(s, ticks)|
    ensures Decode(RunFrames(s, ticks)[k]).Some?
    ensures Decode(RunFrames(s, ticks)[k]).value.header.seqNo == (s.seqNo + k) % 0x1_0000
  {
    SeqIsRaw(s.seqNo, k);
    hide TickFrames, Decode, SeqAfter;
    var before, t := ticks[..|ticks| - 1], ticks[|ticks| - 1];
    var n := |RunFrames(s, before)|;
    if k < n {
      ConsecutiveSequence(s, before, k);
    } else {
      StateSequence(s, before);
      FrameSequence(s.seqNo, n, RunState(s, before), t, k - n);
    }
  }

  lemma FrameNumber(s: State, parts: seq<Slice>, now: uint32, snaps: seq<Snapshot>, i: nat)
    requires i < |parts| <= |snaps|
    ensures var f := Decode(FramesFor(s, parts, now, snaps)[i]);
            f.Some? && f.value.header.seqNo == (s.seqNo + i) % 0x1_0000
  {
    hide *;
    FrameDecodes(s, parts, now, snaps, i);
  }

  lemma FrameSequence(a: uint16, n: nat, at: State, t: TickInput, i: nat)
    requires at.seqNo == SeqAfter(a, n) && IMU_SAMPLES_MAX <= |t.snaps| && i < |TickFrames(at, t)|
    ensures Decode(TickFrames(at, t)[i]).Some?
    ensures Decode(TickFrames(at, t)[i]).value.header.seqNo == SeqAfter(a, n + i)
  {
    SeqAfterAfter(a, n, i);
    SeqIsRaw(at.seqNo, i);
    FrameNumber(Switched(at, t), PartsOf(at, t), t.now, t.snaps, i);
    hide FramesFor, Decode, PartsOf, SeqAfter;
  }

  lemma {:induction false} StateSequence(s: State, ticks: seq<TickInput>)
    requires WellFed(ticks)
    ensures RunState(s, ticks).seqNo == SeqAfter(s.seqNo, |RunFrames(s, ticks)|)
  {
    hide AfterFrames, PartsOf, TickFrames;
    if ticks != [] {
      var before, t := ticks[..|ticks| - 1], ticks[|ticks| - 1];
      StateSequence(s, before);
      TickSequence(s.seqNo, |RunFrames(s, before)|, RunState(s, before), t);
    }
  }

  lemma TickSequence(a: uint16, n: nat, at: State, t: TickInput)
    requires at.seqNo == SeqAfter(a, n)
    ensures AfterFrames(Switched(at, t), PartsOf(at, t)).seqNo == SeqAfter(a, n + |PartsOf(at, t)|)
  {
    SequenceNumbers(Switched(at, t), PartsOf(at, t));
    SeqAfterAfter(a, n, |PartsOf(at, t)|);
  }

  // ----- the configuration cache

  lemma {:induction false} CacheAfter(s: State, parts: seq<Slice>)
    requires parts != [] && parts[|parts| - 1] != []
    ensures var last := parts[|parts| - 1][0];
            AfterFrames(s, parts).lastOdr == last.odrIdx && AfterFrames(s, parts).lastXl == last.xlIdx &&
            AfterFrames(s, parts).lastGy == last.gyIdx
  {
  }

  lemma {:induction false} LastRun(ss: Slice)
    requires ss != []
    ensures Runs(ss) != [] && Runs(ss)[|Runs(ss)| - 1] != []
    ensures SameConfig(Runs(ss)[|Runs(ss)| - 1][0], ss[|ss| - 1])
    decreases |ss|
  {
    var n := RunFrom(ss, 1);
    if n < |ss| {
      LastRun(ss[n..]);
      assert Runs(ss)[1..] == Runs(ss[n..]);
    } else {
      assert Runs(ss[n..]) == [];
    }
  }

  /**
   A tick with the IMU on but nothing drained still announces the configuration
   of the last sample ever sent, however many ticks ago that was.
   */
  lemma {:induction false} CacheHoldsLastSample(s: State, ticks: seq<TickInput>)
    requires Drained(ticks) != []
    ensures var last := Drained(ticks)[|Drained(ticks)| - 1];
            var c := RunState(s, ticks);
            c.lastOdr == last.odrIdx && c.lastXl == last.xlIdx && c.lastGy == last.gyIdx
  {
    var before, t := ticks[..|ticks| - 1], ticks[|ticks| - 1];
    var at := RunState(s, before);
    if t.imuOn && t.drained != [] {
      LastRun(t.drained);
      CacheAfter(Switched(at, t), PartsOf(at, t));
    } else {
      CacheHoldsLastSample(s, before);
      EmptyFrame(Switched(at, t));
      assert PartsOf(at, t) == [[]];
    }
  }

  lemma EmptyFrame(s: State)
    ensures AfterFrames(s, [[]]) == s.(seqNo := SeqAfter(s.seqNo, 1))
  {
    hide SeqAfter;
    AfterOne(s, []);
    hide AfterFrames;
  }

  lemma AfterOne(s: State, part: Slice)
    ensures AfterFrames(s, [part]) == AfterFrame(s, part)
  {
    hide AfterFrame;
    var one: seq<Slice> := [part];
    assert one[..0] == [];
    assert AfterFrames(s, one[..0]) == s;
  }

  /** The header of such a tick's single frame. */
  lemma EmptyFrameAnnouncesCache(s: State, ticks: seq<TickInput>, t: TickInput)
    requires Drained(ticks) != [] && t.imuOn && t.drained == [] && IMU_SAMPLES_MAX <= |t.snaps|
    ensures var last := Drained(ticks)[|Drained(ticks)| - 1];
            var fs := TickFrames(RunState(s, ticks), t);
            |fs| == 1 && Decode(fs[0]).Some? &&
            var h := Decode(fs[0]).value.header;
            h.tick == t.now && h.odrHz == OdrHz(last.odrIdx) && h.xlG == XlG(last.xlIdx) && h.gyDps == GyDps(last.gyIdx)
  {
    CacheHoldsLastSample(s, ticks);
    var at := Switched(RunState(s, ticks), t);
    var parts: seq<Slice> := [[]];
    FramesAre(at, parts, t.now, t.snaps, 0);
    FrameRoundTrip(HeaderFor(at, [], t.now), [], t.snaps[0]);
    hide EncodeFrame, Decode, FramesFor, RunState, Drained;
    assert parts[..0] == [];
    assert PartsOf(RunState(s, ticks), t) == parts;
  }
}
