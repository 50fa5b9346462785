/**
 The BUNDLE wire format (apps/btsensor/btsensor_wire.h) twice: the byte
 sequences the emitter writes, and a decoder that reads them back field by field.
 */
module Wire {
  import opened CArith

  type byte = x: int | 0 <= x < 256
  type uint16 = x: int | 0 <= x < 0x1_0000
  type int16 = x: int | -0x8000 <= x < 0x8000

  const FRAME_MAGIC: uint16 := 0xB66B
  const FRAME_TYPE_BUNDLE: byte := 0x02
  const ENVELOPE_SIZE: int := 5
  const HEADER_SIZE: int := 16
  const IMU_SAMPLE_SIZE: int := 16
  const TLV_HEADER_SIZE: int := 10
  const TLV_PAYLOAD_MAX: int := 32
  const TLV_COUNT: int := 6
  const IMU_SAMPLES_MAX: int := 8
  const FRAME_MAX: int :=
    ENVELOPE_SIZE + HEADER_SIZE + IMU_SAMPLE_SIZE * IMU_SAMPLES_MAX + (TLV_HEADER_SIZE + TLV_PAYLOAD_MAX) * TLV_COUNT

  /** One drained IMU sample with the driver's configuration indices. */
  datatype Imu = Imu(ax: int16, ay: int16, az: int16, gx: int16, gy: int16, gz: int16,
                     ts: uint32, odrIdx: byte, xlIdx: byte, gyIdx: byte)

  /** sensor_class_state_s. */
  datatype SensorState = SensorState(port: byte, mode: byte, dataType: byte, numValues: byte, payloadLen: byte,
                                     flags: byte, age: byte, seqNo: uint16, payload: seq<byte>)

  type Snapshot = s: seq<SensorState> | |s| == TLV_COUNT && forall i :: 0 <= i < |s| ==> |s[i].payload| == TLV_PAYLOAD_MAX
    witness seq(TLV_COUNT, _ => SensorState(0, 0, 0, 0, 0, 0, 0, 0, seq(TLV_PAYLOAD_MAX, _ => 0)))

  /** The header fields that do not follow from the layout. */
  datatype Header = Header(seqNo: uint16, tick: uint32, odrHz: uint16, xlG: byte, gyDps: uint16, flags: byte)

  // ----- writing

  function U16(v: int): (b: seq<byte>)
    ensures |b| == 2
  {
    [v % 256, (v / 256) % 256]
  }

  function U32(v: int): (b: seq<byte>)
    ensures |b| == 4
  {
    [v % 256, (v / 256) % 256, (v / 65536) % 256, (v / 16777216) % 256]
  }

  function EncodeImu(s: Imu, delta: int): (b: seq<byte>)
    ensures |b| == IMU_SAMPLE_SIZE
  {
    U16(s.ax) + (U16(s.ay) + (U16(s.az) + (U16(s.gx) + (U16(s.gy) + (U16(s.gz) + U32(delta))))))
  }

  function EncodeImus(ss: seq<Imu>, tick: uint32): (b: seq<byte>)
    ensures |b| == IMU_SAMPLE_SIZE * |ss|
  {
    if ss == [] then []
    else EncodeImus(ss[..|ss| - 1], tick) + EncodeImu(ss[|ss| - 1], (ss[|ss| - 1].ts - tick) % UINT32_MOD)
  }

  predicate IsFresh(flags: byte) {
    (flags / 2) % 2 == 1
  }

  /** Payload bytes a TLV carries: none unless fresh, and never more than 32. */
  function CarriedLen(t: SensorState): (n: byte)
    ensures n <= TLV_PAYLOAD_MAX
  {
    var n := if IsFresh(t.flags) then t.payloadLen else 0;
    if n > TLV_PAYLOAD_MAX then TLV_PAYLOAD_MAX else n
  }

  function EncodeTlv(cls: byte, t: SensorState): (b: seq<byte>)
    requires |t.payload| == TLV_PAYLOAD_MAX
    ensures TLV_HEADER_SIZE <= |b| <= TLV_HEADER_SIZE + TLV_PAYLOAD_MAX
  {
    [cls, t.port, t.mode, t.dataType, t.numValues, CarriedLen(t), t.flags, t.age] + U16(t.seqNo) + t.payload[..CarriedLen(t)]
  }

  /** The first n TLVs of a snapshot. */
  function EncodeTlvs(snap: Snapshot, n: nat): (b: seq<byte>)
    requires n <= TLV_COUNT
    ensures TLV_HEADER_SIZE * n <= |b| <= (TLV_HEADER_SIZE + TLV_PAYLOAD_MAX) * n
  {
    if n == 0 then [] else EncodeTlvs(snap, n - 1) + EncodeTlv(n - 1, snap[n - 1])
  }

  function EncodeHeader(h: Header, count: byte): (b: seq<byte>)
    ensures |b| == HEADER_SIZE
  {
    U16(h.seqNo) + (U32(h.tick) + (U16(IMU_SAMPLE_SIZE * count) + ([count, TLV_COUNT] +
    (U16(h.odrHz) + ([h.xlG] + (U16(h.gyDps) + [h.flags]))))))
  }

  function EncodeBody(h: Header, ss: seq<Imu>, snap: Snapshot): (b: seq<byte>)
    requires |ss| <= IMU_SAMPLES_MAX
    ensures HEADER_SIZE + IMU_SAMPLE_SIZE * |ss| + TLV_HEADER_SIZE * TLV_COUNT <= |b| <= FRAME_MAX - ENVELOPE_SIZE
  {
    EncodeHeader(h, |ss|) + EncodeImus(ss, h.tick) + EncodeTlvs(snap, TLV_COUNT)
  }

  /** A whole frame; its length field is patched in last. */
  function EncodeFrame(h: Header, ss: seq<Imu>, snap: Snapshot): (b: seq<byte>)
    requires |ss| <= IMU_SAMPLES_MAX
    ensures 0 < |b| <= FRAME_MAX
  {
    var body := EncodeBody(h, ss, snap);
    U16(FRAME_MAGIC) + [FRAME_TYPE_BUNDLE] + U16(ENVELOPE_SIZE + |body|) + body
  }

  // ----- reading

  datatype Option<T> = None | Some(value: T)

  /** A decoded sample carries its absolute time stamp. */
  datatype Sample = Sample(ax: int, ay: int, az: int, gx: int, gy: int, gz: int, ts: int)

  datatype Tlv = Tlv(cls: byte, port: byte, mode: byte, dataType: byte, numValues: byte,
                     flags: byte, age: byte, seqNo: int, payload: seq<byte>)

  datatype Decoded = Decoded(header: Header, samples: seq<Sample>, tlvs: seq<Tlv>)

  function GetU16(b: seq<byte>): uint16
    requires |b| >= 2
  {
    (b[0] as int) + 256 * (b[1] as int)
  }

  function GetI16(b: seq<byte>): int
    requires |b| >= 2
  {
    var u := GetU16(b);
    if u >= 0x8000 then u - 0x1_0000 else u
  }

  function GetU32(b: seq<byte>): uint32
    requires |b| >= 4
  {
    (b[0] as int) + 256 * (b[1] as int) + 65536 * (b[2] as int) + 16777216 * (b[3] as int)
  }

  function DecodeImu(b: seq<byte>, tick: uint32): Sample
    requires |b| >= IMU_SAMPLE_SIZE
  {
    Sample(GetI16(b), GetI16(b[2..]), GetI16(b[4..]), GetI16(b[6..]), GetI16(b[8..]), GetI16(b[10..]),
           (tick + GetU32(b[12..])) % UINT32_MOD)
  }

  /** n samples from the front of b. */
  function DecodeImus(b: seq<byte>, n: nat, tick: uint32): Option<seq<Sample>> {
    if n == 0 then Some([])
    else if |b| < IMU_SAMPLE_SIZE then None
    else
      var rest := DecodeImus(b[IMU_SAMPLE_SIZE..], n - 1, tick);
      if rest.None? then None else Some([DecodeImu(b, tick)] + rest.value)
  }

  /** n TLVs that fill b exactly. */
  function DecodeTlvs(b: seq<byte>, n: nat): Option<seq<Tlv>> {
    if n == 0 then (if b == [] then Some([]) else None)
    else if |b| < TLV_HEADER_SIZE || |b| < TLV_HEADER_SIZE + b[5] then None
    else
      var end := TLV_HEADER_SIZE + b[5];
      var rest := DecodeTlvs(b[end..], n - 1);
      if rest.None? then None
      else Some([Tlv(b[0], b[1], b[2], b[3], b[4], b[6], b[7], GetU16(b[8..]), b[TLV_HEADER_SIZE..end])] + rest.value)
  }

  /** A receiver: checks magic, type, length and section sizes, then reads samples and TLVs. */
  function Decode(f: seq<byte>): Option<Decoded> {
    if |f| < ENVELOPE_SIZE + HEADER_SIZE || GetU16(f) != FRAME_MAGIC || f[2] != FRAME_TYPE_BUNDLE ||
       GetU16(f[3..]) != |f| then None
    else
      var b := f[ENVELOPE_SIZE..];
      var h := Header(GetU16(b), GetU32(b[2..]), GetU16(b[10..]), b[12], GetU16(b[13..]), b[15]);
      var section, count, tlvCount := GetU16(b[6..]), b[8], b[9];
      if section != IMU_SAMPLE_SIZE * count || |b| < HEADER_SIZE + section then None
      else
        var samples := DecodeImus(b[HEADER_SIZE..HEADER_SIZE + section], count, h.tick);
        var tlvs := DecodeTlvs(b[HEADER_SIZE + section..], tlvCount);
        if samples.None? || tlvs.None? then None else Some(Decoded(h, samples.value, tlvs.value))
  }

  // ----- round trips

  lemma U16RoundTrip(v: uint16, rest: seq<byte>)
    ensures GetU16(U16(v) + rest) == v
  {
  }

  lemma I16RoundTrip(v: int16, rest: seq<byte>)
    ensures GetI16(U16(v) + rest) == v
  {
    assert v / 256 % 256 == if v < 0 then v / 256 + 256 else v / 256;
  }

  lemma U32RoundTrip(v: uint32, rest: seq<byte>)
    ensures GetU32(U32(v) + rest) == v
  {
    var q1, q2 := v / 256, v / 65536;
    assert q2 == q1 / 256 && v / 16777216 == q2 / 256;
  }

  /** What a receiver should see of one sample. */
  function Seen(s: Imu): Sample {
    Sample(s.ax, s.ay, s.az, s.gx, s.gy, s.gz, s.ts)
  }

  function SeenAll(ss: seq<Imu>): seq<Sample> {
    if ss == [] then [] else SeenAll(ss[..|ss| - 1]) + [Seen(ss[|ss| - 1])]
  }

  /** What a receiver should see of one sensor class: all fields, and the payload when fresh. */
  function SeenTlv(cls: byte, t: SensorState): Tlv
    requires |t.payload| == TLV_PAYLOAD_MAX
  {
    Tlv(cls, t.port, t.mode, t.dataType, t.numValues, t.flags, t.age, t.seqNo, t.payload[..CarriedLen(t)])
  }

  function SeenTlvs(snap: Snapshot, n: nat): seq<Tlv>
    requires n <= TLV_COUNT
  {
    if n == 0 then [] else SeenTlvs(snap, n - 1) + [SeenTlv(n - 1, snap[n - 1])]
  }

  lemma ImuRoundTrip(s: Imu, tick: uint32, rest: seq<byte>)
    ensures DecodeImu(EncodeImu(s, (s.ts - tick) % UINT32_MOD) + rest, tick) == Seen(s)
  {
    var delta := (s.ts - tick) % UINT32_MOD;
    var b := EncodeImu(s, delta) + rest;
    ImuFields(s, delta, rest);
    I16RoundTrip(s.ax, b[2..]);
    I16RoundTrip(s.ay, b[4..]);
    I16RoundTrip(s.az, b[6..]);
    I16RoundTrip(s.gx, b[8..]);
    I16RoundTrip(s.gy, b[10..]);
    I16RoundTrip(s.gz, b[12..]);
    U32RoundTrip(delta, rest);
    assert (tick + delta) % UINT32_MOD == s.ts;
  }

  /** Reading past the first of two concatenated fields, i bytes into b. */
  lemma Peel(b: seq<byte>, i: nat, x: seq<byte>, y: seq<byte>, rest: seq<byte>)
    requires i <= |b| && b[i..] == (x + y) + rest
    ensures i + |x| <= |b| && b[i..] == x + b[i + |x|..] && b[i + |x|..] == y + rest
  {
    assert b[i..] == x + (y + rest);
    assert b[i..][|x|..] == b[i + |x|..];
  }

  /** Where the fields of an encoded sample start. */
  lemma ImuFields(s: Imu, delta: int, rest: seq<byte>)
    ensures var b := EncodeImu(s, delta) + rest;
            b == U16(s.ax) + b[2..] && b[2..] == U16(s.ay) + b[4..] && b[4..] == U16(s.az) + b[6..] &&
            b[6..] == U16(s.gx) + b[8..] && b[8..] == U16(s.gy) + b[10..] && b[10..] == U16(s.gz) + b[12..] &&
            b[12..] == U32(delta) + rest
  {
    hide U16, U32;
    var b := EncodeImu(s, delta) + rest;
    var t6 := U32(delta);
    var t5 := U16(s.gz) + t6;
    var t4 := U16(s.gy) + t5;
    var t3 := U16(s.gx) + t4;
    var t2 := U16(s.az) + t3;
    var t1 := U16(s.ay) + t2;
    assert b[0..] == b;
    Peel(b, 0, U16(s.ax), t1, rest);
    Peel(b, 2, U16(s.ay), t2, rest);
    Peel(b, 4, U16(s.az), t3, rest);
    Peel(b, 6, U16(s.gx), t4, rest);
    Peel(b, 8, U16(s.gy), t5, rest);
    Peel(b, 10, U16(s.gz), t6, rest);
  }

  lemma {:induction false} ImusRoundTrip(ss: seq<Imu>, tick: uint32, rest: seq<byte>, n: nat, tail: seq<Sample>)
    requires DecodeImus(rest, n, tick) == Some(tail)
    ensures DecodeImus(EncodeImus(ss, tick) + rest, |ss| + n, tick) == Some(SeenAll(ss) + tail)
    decreases |ss|
  {
    hide EncodeImu, DecodeImu, Seen;
    if ss == [] {
      assert EncodeImus(ss, tick) + rest == rest;
      assert SeenAll(ss) + tail == tail;
    } else {
      var before, s := ss[..|ss| - 1], ss[|ss| - 1];
      var e := EncodeImu(s, (s.ts - tick) % UINT32_MOD);
      ImuRoundTrip(s, tick, rest);
      assert (e + rest)[IMU_SAMPLE_SIZE..] == rest;
      ImusRoundTrip(before, tick, e + rest, n + 1, [Seen(s)] + tail);
      assert EncodeImus(ss, tick) + rest == EncodeImus(before, tick) + (e + rest);
      assert SeenAll(ss) + tail == SeenAll(before) + ([Seen(s)] + tail);
    }
  }

  lemma TlvRoundTrip(cls: byte, t: SensorState, rest: seq<byte>)
    requires |t.payload| == TLV_PAYLOAD_MAX
    ensures var b := EncodeTlv(cls, t) + rest;
            var end := TLV_HEADER_SIZE + CarriedLen(t);
            |EncodeTlv(cls, t)| == end && b[5] == CarriedLen(t) && b[end..] == rest &&
            Tlv(b[0], b[1], b[2], b[3], b[4], b[6], b[7], GetU16(b[8..]), b[TLV_HEADER_SIZE..end]) == SeenTlv(cls, t)
  {
    var b := EncodeTlv(cls, t) + rest;
    assert b[8..] == U16(t.seqNo) + b[10..];
    U16RoundTrip(t.seqNo, b[10..]);
  }

  lemma TlvStep(cls: byte, t: SensorState, rest: seq<byte>, m: nat, tail: seq<Tlv>)
    requires |t.payload| == TLV_PAYLOAD_MAX && DecodeTlvs(rest, m) == Some(tail)
    ensures DecodeTlvs(EncodeTlv(cls, t) + rest, m + 1) == Some([SeenTlv(cls, t)] + tail)
  {
    TlvRoundTrip(cls, t, rest);
    hide EncodeTlv, SeenTlv, CarriedLen, GetU16;
  }

  lemma {:induction false} TlvsRoundTrip(snap: Snapshot, n: nat, rest: seq<byte>, m: nat, tail: seq<Tlv>)
    requires n <= TLV_COUNT && DecodeTlvs(rest, m) == Some(tail)
    ensures DecodeTlvs(EncodeTlvs(snap, n) + rest, n + m) == Some(SeenTlvs(snap, n) + tail)
  {
    hide EncodeTlv, SeenTlv, DecodeTlvs;
    if n == 0 {
      assert EncodeTlvs(snap, n) + rest == rest;
      assert SeenTlvs(snap, n) + tail == tail;
    } else {
      var t := snap[n - 1];
      var e := EncodeTlv(n - 1, t);
      TlvStep(n - 1, t, rest, m, tail);
      assert EncodeTlvs(snap, n) == EncodeTlvs(snap, n - 1) + e;
      assert SeenTlvs(snap, n) == SeenTlvs(snap, n - 1) + [SeenTlv(n - 1, t)];
      TlvsRoundTrip(snap, n - 1, e + rest, m + 1, [SeenTlv(n - 1, t)] + tail);
      hide *;
      Regroup(EncodeTlvs(snap, n - 1), e, rest);
      Regroup(SeenTlvs(snap, n - 1), [SeenTlv(n - 1, t)], tail);
    }
  }

  lemma Regroup<T>(x: seq<T>, y: seq<T>, z: seq<T>)
    ensures (x + y) + z == x + (y + z)
  {
  }

  lemma HeaderRoundTrip(h: Header, count: byte, rest: seq<byte>)
    ensures var b := EncodeHeader(h, count) + rest;
            Header(GetU16(b), GetU32(b[2..]), GetU16(b[10..]), b[12], GetU16(b[13..]), b[15]) == h &&
            GetU16(b[6..]) == IMU_SAMPLE_SIZE * count && b[8] == count && b[9] == TLV_COUNT &&
            b[HEADER_SIZE..] == rest
  {
    var b := EncodeHeader(h, count) + rest;
    HeaderFields(h, count, rest);
    U16RoundTrip(h.seqNo, b[2..]);
    U32RoundTrip(h.tick, b[6..]);
    U16RoundTrip(IMU_SAMPLE_SIZE * count, b[8..]);
    U16RoundTrip(h.odrHz, b[12..]);
    U16RoundTrip(h.gyDps, b[15..]);
  }

  lemma HeaderFields(h: Header, count: byte, rest: seq<byte>)
    ensures var b := EncodeHeader(h, count) + rest;
            b == U16(h.seqNo) + b[2..] && b[2..] == U32(h.tick) + b[6..] &&
            b[6..] == U16(IMU_SAMPLE_SIZE * count) + b[8..] && b[8] == count && b[9] == TLV_COUNT &&
            b[10..] == U16(h.odrHz) + b[12..] && b[12] == h.xlG && b[13..] == U16(h.gyDps) + b[15..] &&
            b[15] == h.flags && b[HEADER_SIZE..] == rest
  {
    hide U16, U32;
    var b := EncodeHeader(h, count) + rest;
    var t5 := [h.xlG] + (U16(h.gyDps) + [h.flags]);
    var t4 := U16(h.odrHz) + t5;
    var t3 := [count, TLV_COUNT] + t4;
    var t2 := U16(IMU_SAMPLE_SIZE * count) + t3;
    var t1 := U32(h.tick) + t2;
    assert b[0..] == b;
    Peel(b, 0, U16(h.seqNo), t1, rest);
    Peel(b, 2, U32(h.tick), t2, rest);
    Peel(b, 6, U16(IMU_SAMPLE_SIZE * count), t3, rest);
    Peel(b, 8, [count, TLV_COUNT], t4, rest);
    Peel(b, 10, U16(h.odrHz), t5, rest);
    Peel(b, 12, [h.xlG], U16(h.gyDps) + [h.flags], rest);
    Peel(b, 13, U16(h.gyDps), [h.flags], rest);
    HeaderBytes(b, [count, TLV_COUNT], h.xlG, h.flags, rest);
  }

  lemma HeaderBytes(b: seq<byte>, counts: seq<byte>, xlG: byte, flags: byte, rest: seq<byte>)
    requires |b| >= HEADER_SIZE && |counts| == 2
    requires b[8..] == counts + b[10..] && b[12..] == [xlG] + b[13..] && b[15..] == [flags] + rest
    ensures b[8] == counts[0] && b[9] == counts[1] && b[12] == xlG && b[15] == flags && b[HEADER_SIZE..] == rest
  {
    assert b[8..][0] == b[8] && b[8..][1] == b[9] && b[12..][0] == b[12] && b[15..][0] == b[15];
    assert b[15..][1..] == b[HEADER_SIZE..];
  }

  /**
   The frame round trip: from every encoded frame the receiver recovers the
   header, every sample with its absolute time stamp, and every TLV; the length
   field is the frame's size, at most 401 bytes.
   */
  lemma FrameRoundTrip(h: Header, ss: seq<Imu>, snap: Snapshot)
    requires |ss| <= IMU_SAMPLES_MAX
    ensures Decode(EncodeFrame(h, ss, snap)) == Some(Decoded(h, SeenAll(ss), SeenTlvs(snap, TLV_COUNT)))
    ensures GetU16(EncodeFrame(h, ss, snap)[3..]) == |EncodeFrame(h, ss, snap)| <= 401
  {
    var f, body := EncodeFrame(h, ss, snap), EncodeBody(h, ss, snap);
    EnvelopeFields(f, body);
    BodyHeader(h, ss, snap);
    BodySections(h, ss, snap);
    hide EncodeBody, GetU16, GetU32, DecodeImus, DecodeTlvs;
  }

  lemma EnvelopeFields(f: seq<byte>, body: seq<byte>)
    requires f == U16(FRAME_MAGIC) + [FRAME_TYPE_BUNDLE] + U16(ENVELOPE_SIZE + |body|) + body
    requires |body| <= FRAME_MAX - ENVELOPE_SIZE
    ensures |f| == ENVELOPE_SIZE + |body| && GetU16(f) == FRAME_MAGIC && f[2] == FRAME_TYPE_BUNDLE
    ensures GetU16(f[3..]) == |f| && f[ENVELOPE_SIZE..] == body
  {
    assert f == U16(FRAME_MAGIC) + f[2..];
    U16RoundTrip(FRAME_MAGIC, f[2..]);
    assert f[3..] == U16(ENVELOPE_SIZE + |body|) + body;
    U16RoundTrip(ENVELOPE_SIZE + |body|, body);
  }

  lemma BodyHeader(h: Header, ss: seq<Imu>, snap: Snapshot)
    requires |ss| <= IMU_SAMPLES_MAX
    ensures var b := EncodeBody(h, ss, snap);
            Header(GetU16(b), GetU32(b[2..]), GetU16(b[10..]), b[12], GetU16(b[13..]), b[15]) == h &&
            GetU16(b[6..]) == IMU_SAMPLE_SIZE * |ss| && b[8] == |ss| && b[9] == TLV_COUNT
  {
    var imus, tlvs := EncodeImus(ss, h.tick), EncodeTlvs(snap, TLV_COUNT);
    HeaderRoundTrip(h, |ss|, imus + tlvs);
    hide EncodeHeader, EncodeImus, EncodeTlvs, GetU16, GetU32;
    assert EncodeBody(h, ss, snap) == EncodeHeader(h, |ss|) + (imus + tlvs);
  }

  lemma BodySections(h: Header, ss: seq<Imu>, snap: Snapshot)
    requires |ss| <= IMU_SAMPLES_MAX
    ensures var b := EncodeBody(h, ss, snap);
            var section := IMU_SAMPLE_SIZE * |ss|;
            DecodeImus(b[HEADER_SIZE..HEADER_SIZE + section], |ss|, h.tick) == Some(SeenAll(ss)) &&
            DecodeTlvs(b[HEADER_SIZE + section..], TLV_COUNT) == Some(SeenTlvs(snap, TLV_COUNT))
  {
    var imus, tlvs := EncodeImus(ss, h.tick), EncodeTlvs(snap, TLV_COUNT);
    ImusDecode(ss, h.tick);
    TlvsDecode(snap, TLV_COUNT);
    hide EncodeHeader, EncodeImus, EncodeTlvs, DecodeImus, DecodeTlvs;
    assert EncodeBody(h, ss, snap) == EncodeHeader(h, |ss|) + (imus + tlvs);
    Sections(EncodeHeader(h, |ss|), imus, tlvs);
  }

  lemma ImusDecode(ss: seq<Imu>, tick: uint32)
    ensures DecodeImus(EncodeImus(ss, tick), |ss|, tick) == Some(SeenAll(ss))
  {
    assert DecodeImus([], 0, tick) == Some([]);
    hide *;
    ImusRoundTrip(ss, tick, [], 0, []);
    NothingMore(EncodeImus(ss, tick));
    NothingMore(SeenAll(ss));
  }

  lemma TlvsDecode(snap: Snapshot, n: nat)
    requires n <= TLV_COUNT
    ensures DecodeTlvs(EncodeTlvs(snap, n), n) == Some(SeenTlvs(snap, n))
  {
    assert n <= TLV_COUNT && DecodeTlvs([], 0) == Some([]);
    hide *;
    TlvsRoundTrip(snap, n, [], 0, []);
    NothingMore(EncodeTlvs(snap, n));
    NothingMore(SeenTlvs(snap, n));
  }

  lemma NothingMore<T>(x: seq<T>)
    ensures x + [] == x
  {
  }

  lemma Sections(head: seq<byte>, imus: seq<byte>, tlvs: seq<byte>)
    ensures var b := head + (imus + tlvs);
            b[|head|..|head| + |imus|] == imus && b[|head| + |imus|..] == tlvs
  {
  }

  // ----- what a receiver may rely on, field by field

  /** Bit 1 of a sensor class's flags marks a fresh payload. */
  lemma FreshIsBit1(flags: byte)
    ensures IsFresh(flags) <==> flags as bv8 & 0x02 != 0
  {
    var q := flags / 4;
    FreshBits(flags % 4, q);
  }

  lemma FreshBits(r: byte, q: byte)
    requires r < 4 && q < 64
    ensures IsFresh(4 * q + r) <==> (4 * q + r) as bv8 & 0x02 != 0
  {
  }

  lemma {:induction false} SeenAt(ss: seq<Imu>, k: nat)
    requires k < |ss|
    ensures |SeenAll(ss)| == |ss| && SeenAll(ss)[k] == Seen(ss[k])
    decreases |ss|
  {
    if k < |ss| - 1 { SeenAt(ss[..|ss| - 1], k); } else if |ss| > 1 { SeenAt(ss[..|ss| - 1], 0); }
  }

  lemma {:induction false} SeenTlvAt(snap: Snapshot, n: nat, k: nat)
    requires k < n <= TLV_COUNT
    ensures |SeenTlvs(snap, n)| == n && SeenTlvs(snap, n)[k] == SeenTlv(k, snap[k])
  {
    hide SeenTlv;
    if k < n - 1 { SeenTlvAt(snap, n - 1, k); } else if n > 1 { SeenTlvAt(snap, n - 1, 0); }
  }

  /**
   The k-th TLV of a decoded frame carries class k's fields, and its payload
   exactly when the fresh bit is set: the first bytes of it, 32 at the most.
   */
  lemma TlvPayloadExactly(h: Header, ss: seq<Imu>, snap: Snapshot, k: nat)
    requires |ss| <= IMU_SAMPLES_MAX && k < TLV_COUNT
    ensures var f := Decode(EncodeFrame(h, ss, snap));
            f.Some? && |f.value.tlvs| == TLV_COUNT &&
            var t, c := f.value.tlvs[k], snap[k];
            t.cls == k && t.port == c.port && t.mode == c.mode && t.flags == c.flags && t.seqNo == c.seqNo &&
            t.payload <= c.payload &&
            |t.payload| == if c.flags as bv8 & 0x02 == 0 then 0 else if c.payloadLen <= 32 then c.payloadLen else 32
  {
    FrameRoundTrip(h, ss, snap);
    SeenTlvAt(snap, TLV_COUNT, k);
    FreshIsBit1(snap[k].flags);
    hide Decode, EncodeFrame, SeenAll, SeenTlvs, IsFresh;
  }
}
