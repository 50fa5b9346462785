/**
 The bundle emitter (apps/btsensor/bundle_emitter.c): it splits the drained
 samples of a tick into runs of one sensor configuration and serialises each run
 into its scratch buffer with a running offset.
 */
module Bundle {
  import opened CArith
  import opened Wire
  import Tx

  const FLAG_IMU_ON: byte := 0x01
  const FLAG_SENSOR_ON: byte := 0x02
  const SEQ_MOD: int := 0x1_0000

  // ----- configuration tables

  function OdrHz(idx: byte): uint16 {
    var t := [0, 13, 26, 52, 104, 208, 416, 833, 1660, 3330, 6660];
    if idx < |t| then t[idx] else 0
  }

  function XlG(idx: byte): byte {
    var t := [2, 16, 4, 8];
    if idx < |t| then t[idx] else 0
  }

  function GyDps(idx: byte): uint16 {
    var t := [250, 125, 500, 0, 1000, 0, 2000];
    if idx < |t| then t[idx] else 0
  }

  predicate SameConfig(a: Imu, b: Imu) {
    a.odrIdx == b.odrIdx && a.xlIdx == b.xlIdx && a.gyIdx == b.gyIdx
  }

  // ----- one frame

  /** The emitter's file-static state; the last three are the configuration cache. */
  datatype State = State(seqNo: uint16, imuOn: bool, sensorOn: bool, lastOdr: byte, lastXl: byte, lastGy: byte)

  function Flags(s: State): byte {
    (if s.imuOn then FLAG_IMU_ON else 0) + (if s.sensorOn then FLAG_SENSOR_ON else 0)
  }

  /** The state whose cache the header of a frame with these samples is resolved from. */
  function Cached(s: State, ss: seq<Imu>): State {
    if ss == [] then s else s.(lastOdr := ss[0].odrIdx, lastXl := ss[0].xlIdx, lastGy := ss[0].gyIdx)
  }

  function HeaderFor(s: State, ss: seq<Imu>, now: uint32): Header {
    var c := Cached(s, ss);
    var known := ss != [] || s.imuOn;
    Header(s.seqNo, if ss == [] then now else ss[0].ts,
           OdrHz(if known then c.lastOdr else 0), XlG(if known then c.lastXl else 0), GyDps(if known then c.lastGy else 0),
           Flags(s))
  }

  /** The sequence number n frames after a; it wraps at 16 bits. */
  function SeqAfter(a: uint16, n: nat): uint16 {
    (a + n) % SEQ_MOD
  }

  function AfterFrame(s: State, ss: seq<Imu>): State {
    Cached(s, ss).(seqNo := SeqAfter(s.seqNo, 1))
  }

  function FrameFor(s: State, ss: seq<Imu>, now: uint32, snap: Snapshot): seq<byte>
    requires |ss| <= IMU_SAMPLES_MAX
  {
    EncodeFrame(HeaderFor(s, ss, now), ss, snap)
  }

  // ----- a tick

  /** At most what one drain delivers. */
  type Slice = ss: seq<Imu> | |ss| <= IMU_SAMPLES_MAX

  /** Where the maximal run of equal configuration that contains ss[end - 1] ends. */
  function RunFrom(ss: seq<Imu>, end: nat): (n: nat)
    requires 1 <= end <= |ss|
    requires forall i :: 0 <= i < end ==> SameConfig(ss[i], ss[0])
    ensures end <= n <= |ss|
    ensures forall i :: 0 <= i < n ==> SameConfig(ss[i], ss[0])
    ensures n < |ss| ==> !SameConfig(ss[n], ss[0])
    decreases |ss| - end
  {
    if end < |ss| && SameConfig(ss[end], ss[0]) then RunFrom(ss, end + 1) else end
  }

  /** The maximal runs of a drain, in order. */
  function Runs(ss: Slice): (runs: seq<Slice>)
    ensures |runs| <= |ss|
    decreases |ss|
  {
    if ss == [] then [] else [ss[..RunFrom(ss, 1)]] + Runs(ss[RunFrom(ss, 1)..])
  }

  /** What emit_bundle makes of a drain: the runs, or one empty frame when the IMU is off or has nothing. */
  function Parts(s: State, drained: Slice): seq<Slice> {
    if !s.imuOn || drained == [] then [[]] else Runs(drained)
  }

  function AfterFrames(s: State, parts: seq<Slice>): State {
    if parts == [] then s else AfterFrame(AfterFrames(s, parts[..|parts| - 1]), parts[|parts| - 1])
  }

  /** One frame per part, each with the next sensor snapshot. */
  function FramesFor(s: State, parts: seq<Slice>, now: uint32, snaps: seq<Snapshot>): (frames: seq<seq<byte>>)
    requires |parts| <= |snaps|
    ensures |frames| == |parts|
  {
    if parts == [] then []
    else
      var n := |parts| - 1;
      FramesFor(s, parts[..n], now, snaps) + [FrameFor(AfterFrames(s, parts[..n]), parts[n], now, snaps[n])]
  }

  lemma Emit(s: State, parts: seq<Slice>, part: Slice, now: uint32, snaps: seq<Snapshot>)
    requires |parts| < |snaps|
    ensures AfterFrames(s, parts + [part]) == AfterFrame(AfterFrames(s, parts), part)
    ensures FramesFor(s, parts + [part], now, snaps)
         == FramesFor(s, parts, now, snaps) + [FrameFor(AfterFrames(s, parts), part, now, snaps[|parts|])]
  {
    hide AfterFrame, FrameFor;
    assert (parts + [part])[..|parts|] == parts;
  }

  // ----- the emitter object

  class Emitter {
    const buf: array<byte>
    var seqNo: uint16
    var imuOn: bool
    var sensorOn: bool
    var lastOdr: byte
    var lastXl: byte
    var lastGy: byte

    predicate Valid()
      reads this
    {
      buf.Length == Tx.FRAME_MAX_SIZE
    }

    function View(): State
      reads this
    {
      State(seqNo, imuOn, sensorOn, lastOdr, lastXl, lastGy)
    }

    constructor ()
      ensures Valid() && fresh(buf) && View() == State(0, false, false, 0, 0, 0)
    {
      buf := new byte[1408](_ => 0);
      seqNo, imuOn, sensorOn, lastOdr, lastXl, lastGy := 0, false, false, 0, 0, 0;
    }

    method Put(off: nat, b: byte)
      requires off < buf.Length
      modifies buf
      ensures buf[..off + 1] == old(buf[..off]) + [b]
    {
      buf[off] := b;
      assert buf[..off] == old(buf[..off]);
    }

    method PutU16(off: nat, v: int)
      requires off + 2 <= buf.Length
      modifies buf
      ensures buf[..off + 2] == old(buf[..off]) + U16(v)
    {
      Put(off, v % 256);
      Put(off + 1, (v / 256) % 256);
    }

    method PutU32(off: nat, v: int)
      requires off + 4 <= buf.Length
      modifies buf
      ensures buf[..off + 4] == old(buf[..off]) + U32(v)
    {
      Put(off, v % 256);
      Put(off + 1, (v / 256) % 256);
      Put(off + 2, (v / 65536) % 256);
      Put(off + 3, (v / 16777216) % 256);
    }

    method PutImu(off: nat, s: Imu, delta: uint32)
      requires off + IMU_SAMPLE_SIZE <= buf.Length
      modifies buf
      ensures buf[..off + IMU_SAMPLE_SIZE] == old(buf[..off]) + EncodeImu(s, delta)
    {
      hide U16, U32;
      ghost var b := buf[..off];
      PutU16(off, s.ax);
      PutU16(off + 2, s.ay);
      PutU16(off + 4, s.az);
      PutU16(off + 6, s.gx);
      PutU16(off + 8, s.gy);
      PutU16(off + 10, s.gz);
      PutU32(off + 12, delta);
      assert buf[..off + 16] == b + U16(s.ax) + U16(s.ay) + U16(s.az) + U16(s.gx) + U16(s.gy) + U16(s.gz) + U32(delta);
    }

    method PutTlvHeader(off: nat, cls: byte, t: SensorState, len: byte)
      requires off + TLV_HEADER_SIZE <= buf.Length
      modifies buf
      ensures buf[..off + TLV_HEADER_SIZE]
           == old(buf[..off]) + [cls, t.port, t.mode, t.dataType, t.numValues, len, t.flags, t.age] + U16(t.seqNo)
    {
      hide U16;
      ghost var b := buf[..off];
      Put(off, cls);
      Put(off + 1, t.port);
      Put(off + 2, t.mode);
      Put(off + 3, t.dataType);
      assert buf[..off + 4] == b + [cls, t.port, t.mode, t.dataType];
      Put(off + 4, t.numValues);
      Put(off + 5, len);
      Put(off + 6, t.flags);
      Put(off + 7, t.age);
      assert buf[..off + 8] == b + [cls, t.port, t.mode, t.dataType, t.numValues, len, t.flags, t.age];
      PutU16(off + 8, t.seqNo);
    }

    method PutTlv(off: nat, cls: byte, t: SensorState) returns (n: nat)
      requires |t.payload| == TLV_PAYLOAD_MAX && off + TLV_HEADER_SIZE + TLV_PAYLOAD_MAX <= buf.Length
      modifies buf
      ensures n == |EncodeTlv(cls, t)|
      ensures buf[..off + n] == old(buf[..off]) + EncodeTlv(cls, t)
    {
      hide U16;
      var len: byte := if IsFresh(t.flags) then t.payloadLen else 0;
      if len > TLV_PAYLOAD_MAX {
        len := TLV_PAYLOAD_MAX;
      }
      PutTlvHeader(off, cls, t, len);
      ghost var before := buf[..off + TLV_HEADER_SIZE];
      n := PutPayload(off, t.payload, len);
      assert before + t.payload[..len] == old(buf[..off]) + EncodeTlv(cls, t);
    }

    /** The memcpy of a TLV's payload behind its header. */
    method PutPayload(off: nat, payload: seq<byte>, len: byte) returns (n: nat)
      requires len <= |payload| && off + TLV_HEADER_SIZE + len <= buf.Length
      modifies buf
      ensures n == TLV_HEADER_SIZE + len
      ensures buf[..off + n] == old(buf[..off + TLV_HEADER_SIZE]) + payload[..len]
    {
      n := TLV_HEADER_SIZE;
      while n < TLV_HEADER_SIZE + len
        invariant TLV_HEADER_SIZE <= n <= TLV_HEADER_SIZE + len
        invariant buf[..off + n] == old(buf[..off + TLV_HEADER_SIZE]) + payload[..n - TLV_HEADER_SIZE]
      {
        Put(off + n, payload[n - TLV_HEADER_SIZE]);
        n := n + 1;
      }
    }

    method PutHeader(off: nat, h: Header, count: byte)
      requires off + HEADER_SIZE <= buf.Length
      modifies buf
      ensures buf[..off + HEADER_SIZE] == old(buf[..off]) + EncodeHeader(h, count)
    {
      hide U16, U32;
      ghost var b := buf[..off];
      PutU16(off, h.seqNo);
      PutU32(off + 2, h.tick);
      PutU16(off + 6, IMU_SAMPLE_SIZE * count);
      Put(off + 8, count);
      Put(off + 9, TLV_COUNT);
      assert buf[..off + 10] == b + (U16(h.seqNo) + U32(h.tick) + U16(IMU_SAMPLE_SIZE * count) + [count, TLV_COUNT]);
      PutU16(off + 10, h.odrHz);
      Put(off + 12, h.xlG);
      PutU16(off + 13, h.gyDps);
      Put(off + 15, h.flags);
    }

    method PutImus(start: nat, ss: seq<Imu>, tick: uint32) returns (off: nat)
      requires start + IMU_SAMPLE_SIZE * |ss| <= buf.Length
      modifies buf
      ensures off == start + |EncodeImus(ss, tick)|
      ensures buf[..off] == old(buf[..start]) + EncodeImus(ss, tick)
    {
      hide EncodeImu;
      off := start;
      for i := 0 to |ss|
        invariant off == start + IMU_SAMPLE_SIZE * i
        invariant buf[..off] == old(buf[..start]) + EncodeImus(ss[..i], tick)
      {
        assert ss[..i + 1][..i] == ss[..i];
        PutImu(off, ss[i], (ss[i].ts - tick) % UINT32_MOD);
        off := off + IMU_SAMPLE_SIZE;
      }
      assert ss[..|ss|] == ss;
    }

    method PutTlvs(start: nat, snap: Snapshot) returns (off: nat)
      requires start + (TLV_HEADER_SIZE + TLV_PAYLOAD_MAX) * TLV_COUNT <= buf.Length
      modifies buf
      ensures off == start + |EncodeTlvs(snap, TLV_COUNT)|
      ensures buf[..off] == old(buf[..start]) + EncodeTlvs(snap, TLV_COUNT)
    {
      hide EncodeTlv;
      off := start;
      for cls := 0 to TLV_COUNT
        invariant off == start + |EncodeTlvs(snap, cls)|
        invariant buf[..off] == old(buf[..start]) + EncodeTlvs(snap, cls)
      {
        var n := PutTlv(off, cls, snap[cls]);
        off := off + n;
      }
    }

    /** Patches the length field once the frame is complete. */
    method PatchLength(off: nat)
      requires Valid() && ENVELOPE_SIZE <= off <= buf.Length
      modifies buf
      ensures buf[..off] == old(buf[..3]) + U16(off) + old(buf[ENVELOPE_SIZE..off])
    {
      buf[3] := off % 256;
      buf[4] := (off / 256) % 256;
      assert buf[..3] == old(buf[..3]);
      assert buf[ENVELOPE_SIZE..off] == old(buf[ENVELOPE_SIZE..off]);
      assert buf[..off] == buf[..3] + buf[3..5] + buf[ENVELOPE_SIZE..off];
    }

    method EmitOneFrame(ss: seq<Imu>, now: uint32, snap: Snapshot) returns (frame: seq<byte>)
      requires Valid() && |ss| <= IMU_SAMPLES_MAX
      modifies this, buf
      ensures Valid() && View() == AfterFrame(old(View()), ss)
      ensures frame == FrameFor(old(View()), ss, now, snap)
    {
      var tick := if ss != [] then ss[0].ts else now;
      var odr: byte, xl: byte, gy: byte := 0, 0, 0;
      if ss != [] {
        odr, xl, gy := ss[0].odrIdx, ss[0].xlIdx, ss[0].gyIdx;
        lastOdr, lastXl, lastGy := odr, xl, gy;
      } else if imuOn {
        odr, xl, gy := lastOdr, lastXl, lastGy;
      }
      var flags: byte := 0;
      if imuOn { flags := flags + FLAG_IMU_ON; }
      if sensorOn { flags := flags + FLAG_SENSOR_ON; }
      var h := Header(seqNo, tick, OdrHz(odr), XlG(xl), GyDps(gy), flags);
      assert h == HeaderFor(old(View()), ss, now);
      frame := WriteFrame(h, ss, snap);
      seqNo := (seqNo + 1) % SEQ_MOD;
    }

    method WriteFrame(h: Header, ss: seq<Imu>, snap: Snapshot) returns (frame: seq<byte>)
      requires Valid() && |ss| <= IMU_SAMPLES_MAX
      modifies buf
      ensures frame == EncodeFrame(h, ss, snap)
    {
      hide U16, EncodeHeader, EncodeImus, EncodeTlvs;
      ghost var nothing := buf[..0];
      PutU16(0, FRAME_MAGIC);
      Put(2, FRAME_TYPE_BUNDLE);
      ghost var e, gap := buf[..3], buf[3..5];
      assert e == U16(FRAME_MAGIC) + [FRAME_TYPE_BUNDLE];
      assert buf[..5] == e + gap;
      PutHeader(ENVELOPE_SIZE, h, |ss|);
      var off := PutImus(ENVELOPE_SIZE + HEADER_SIZE, ss, h.tick);
      off := PutTlvs(off, snap);
      ghost var body := EncodeBody(h, ss, snap);
      assert buf[..off] == e + gap + body;
      assert buf[..off][..3] == e && buf[..off][5..] == body;
      assert buf[..3] == e && buf[5..off] == body;
      PatchLength(off);
      frame := buf[..off];
    }

    /** emit_bundle on what imu_sampler_drain delivered, with one sensor snapshot per frame. */
    method EmitBundle(drained: Slice, now: uint32, snaps: seq<Snapshot>) returns (frames: seq<seq<byte>>)
      requires Valid() && IMU_SAMPLES_MAX <= |snaps|
      modifies this, buf
      ensures Valid() && View() == AfterFrames(old(View()), Parts(old(View()), drained))
      ensures frames == FramesFor(old(View()), Parts(old(View()), drained), now, snaps)
    {
      if !imuOn || drained == [] {
        ghost var none: seq<Slice> := [];
        Emit(View(), none, [], now, snaps);
        var frame := EmitOneFrame([], now, snaps[0]);
        assert none + [[]] == [[]];
        frames := [frame];
      } else {
        frames := EmitRuns(drained, now, snaps);
      }
    }

    /** The walk of lines 354-374; each maximal run becomes one frame. */
    method EmitRuns(drained: Slice, now: uint32, snaps: seq<Snapshot>) returns (frames: seq<seq<byte>>)
      requires Valid() && IMU_SAMPLES_MAX <= |snaps|
      modifies this, buf
      ensures Valid() && View() == AfterFrames(old(View()), Runs(drained))
      ensures frames == FramesFor(old(View()), Runs(drained), now, snaps)
    {
      hide *;
      var start := 0;
      frames := [];
      ghost var s0 := View();
      ghost var emitted: seq<Slice> := [];
      NothingEmitted(s0, drained, now, snaps);
      while start < |drained|
        invariant Valid() && start <= |drained|
        invariant Emitted(s0, drained, start, emitted, View(), frames, now, snaps)
        decreases |drained| - start
      {
        var end := FindEnd(drained, start);
        EmitStep(s0, drained, start, end, emitted, View(), frames, now, snaps);
        var frame := EmitOneFrame(drained[start..end], now, snaps[|frames|]);
        frames := frames + [frame];
        emitted := emitted + [drained[start..end]];
        start := end;
      }
      AllEmitted(s0, drained, emitted, View(), frames, now, snaps);
    }

    method FindEnd(drained: Slice, start: nat) returns (end: nat)
      requires start < |drained|
      ensures start < end <= |drained| && end == start + RunFrom(drained[start..], 1)
    {
      end := start + 1;
      ghost var ss := drained[start..];
      while end < |drained| && SameConfig(drained[end], drained[start])
        invariant start + 1 <= end <= |drained|
        invariant forall i :: 0 <= i < end - start ==> SameConfig(ss[i], ss[0])
        invariant RunFrom(ss, end - start) == RunFrom(ss, 1)
      {
        end := end + 1;
      }
    }
  }

  /** The walk has turned the samples before start into the frames of `emitted`. */
  ghost predicate Emitted(s0: State, drained: Slice, start: nat, emitted: seq<Slice>, s: State, frames: seq<seq<byte>>,
                          now: uint32, snaps: seq<Snapshot>) {
    |emitted| <= start <= |drained| && |emitted| <= |snaps| &&
    Runs(drained) == emitted + Runs(drained[start..]) &&
    s == AfterFrames(s0, emitted) && frames == FramesFor(s0, emitted, now, snaps)
  }

  lemma NothingEmitted(s: State, drained: Slice, now: uint32, snaps: seq<Snapshot>)
    ensures Emitted(s, drained, 0, [], s, [], now, snaps)
  {
    assert drained[0..] == drained;
  }

  lemma EmitStep(s0: State, drained: Slice, start: nat, end: nat, emitted: seq<Slice>, s: State, frames: seq<seq<byte>>,
                 now: uint32, snaps: seq<Snapshot>)
    requires start < |drained| && end == start + RunFrom(drained[start..], 1) && IMU_SAMPLES_MAX <= |snaps|
    requires Emitted(s0, drained, start, emitted, s, frames, now, snaps)
    ensures start < end <= |drained| && |drained[start..end]| <= IMU_SAMPLES_MAX && |frames| < |snaps|
    ensures Emitted(s0, drained, end, emitted + [drained[start..end]], AfterFrame(s, drained[start..end]),
                    frames + [FrameFor(s, drained[start..end], now, snaps[|frames|])], now, snaps)
  {
    hide FramesFor, AfterFrames, FrameFor, AfterFrame, Runs;
    Emit(s0, emitted, drained[start..end], now, snaps);
    RunsStep(drained, start, end);
  }

  lemma AllEmitted(s0: State, drained: Slice, emitted: seq<Slice>, s: State, frames: seq<seq<byte>>,
                   now: uint32, snaps: seq<Snapshot>)
    requires Emitted(s0, drained, |drained|, emitted, s, frames, now, snaps)
    ensures |Runs(drained)| <= |snaps|
    ensures s == AfterFrames(s0, Runs(drained)) && frames == FramesFor(s0, Runs(drained), now, snaps)
  {
    hide AfterFrames, FramesFor;
    assert Runs(drained[|drained|..]) == [];
    assert emitted == Runs(drained);
  }

  /** Taking the first run off what is left of a drain. */
  lemma RunsStep(drained: Slice, start: nat, end: nat)
    requires start < |drained| && end == start + RunFrom(drained[start..], 1)
    ensures Runs(drained[start..]) == [drained[start..end]] + Runs(drained[end..])
  {
    var ss := drained[start..];
    assert ss[..RunFrom(ss, 1)] == drained[start..end];
    assert ss[RunFrom(ss, 1)..] == drained[end..];
  }
}
