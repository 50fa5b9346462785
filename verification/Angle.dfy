/**
 Unit conversion between wheel travel in mm and motor millidegrees
 (apps/drivebase/drivebase_angle.h); pi is 355/113 and each direction rounds twice.
 */
module Angles {
  import opened CArith

  const PI_NUM: int := 355
  const PI_DEN: int := 113
  const UM_PER_MM_TURN: int := 360_000_000

  /** Signed division to the nearest integer, halves away from zero. */
  function DivRound(num: int, den: int): int
    requires den > 0
  {
    if num >= 0 then TruncDiv(num + den / 2, den) else TruncDiv(num - den / 2, den)
  }

  function MdegToMm(mdeg: int, dUm: uint32): int32 {
    ToInt32(DivRound(DivRound(mdeg * PI_NUM, PI_DEN) * dUm, UM_PER_MM_TURN))
  }

  function MmToMdeg(mm: int32, dUm: uint32): int {
    if dUm == 0 then 0 else DivRound(DivRound(mm * UM_PER_MM_TURN, dUm) * PI_DEN, PI_NUM)
  }

  function DegToMdeg(deg: int32): int64 {
    deg * 1000
  }

  function MdegToDeg(mdeg: int64): int32 {
    ToInt32(if mdeg >= 0 then TruncDiv(mdeg + 500, 1000) else TruncDiv(mdeg - 500, 1000))
  }

  // ----- rounding

  /** The quotient is a nearest integer: the product misses the numerator by at most half the divisor. */
  lemma DivRoundNearest(num: int, den: int)
    requires den > 0
    ensures 2 * Abs(num - DivRound(num, den) * den) <= den
  {
    var m := Abs(num) + den / 2;
    var q := m / den;
    FloorDiv(m, den);
    assert DivRound(num, den) == if num >= 0 then q else -q;
    NegProduct(q, den);
  }

  /** An integer strictly within half a divisor of the quotient is the rounded quotient. */
  lemma DivRoundUnique(num: int, den: int, q: int)
    requires den > 0 && 2 * Abs(num - q * den) < den
    ensures DivRound(num, den) == q
  {
    var r := DivRound(num, den);
    DivRoundNearest(num, den);
    if r > q {
      assert (q + 1) * den == q * den + den;
      MulMono(q + 1, r, den);
    } else if r < q {
      assert (q - 1) * den == q * den - den;
      MulMono(r, q - 1, den);
    }
  }

  // ----- the round trip

  /** Scaling by 113/355 and back moves a value by at most 2. */
  lemma PiRoundTrip(p: int)
    ensures Abs(DivRound(DivRound(p * PI_DEN, PI_NUM) * PI_NUM, PI_DEN) - p) <= 2
  {
    var m := DivRound(p * PI_DEN, PI_NUM);
    DivRoundNearest(p * PI_DEN, PI_NUM);
    DivRoundNearest(m * PI_NUM, PI_DEN);
  }

  /**
   Converting mm to millidegrees and back is exact for every int32 distance and
   every wheel up to 72 m, the supported 10 um to 70 m among them.
   */
  lemma MmRoundTrip(mm: int32, dUm: uint32)
    requires 0 < dUm <= 72_000_000
    ensures MdegToMm(MmToMdeg(mm, dUm), dUm) == mm
  {
    var p := DivRound(mm * UM_PER_MM_TURN, dUm);
    var q := DivRound(MmToMdeg(mm, dUm) * PI_NUM, PI_DEN);
    DivRoundNearest(mm * UM_PER_MM_TURN, dUm);
    if dUm == 72_000_000 { DivRoundUnique(mm * UM_PER_MM_TURN, dUm, 5 * mm); }
    PiRoundTrip(p);
    hide DivRound, MdegToMm;
    ScaledGap(p, q, dUm);
    MmBack(mm, q, dUm, MmToMdeg(mm, dUm));
  }

  lemma MmBack(mm: int32, q: int, dUm: uint32, mdeg: int)
    requires q == DivRound(mdeg * PI_NUM, PI_DEN)
    requires 2 * Abs(q * dUm - mm * UM_PER_MM_TURN) < UM_PER_MM_TURN
    ensures MdegToMm(mdeg, dUm) == mm
  {
    DivRoundUnique(q * dUm, UM_PER_MM_TURN, mm);
    CastExact(mm);
    hide DivRound, ToInt32;
  }

  lemma ScaledGap(p: int, q: int, dUm: uint32)
    requires Abs(q - p) <= 2
    ensures Abs(q * dUm - p * dUm) <= 2 * dUm
  {
    var e := q - p;
    assert q * dUm == p * dUm + e * dUm;
    MulMono(-2, e, dUm);
    MulMono(e, 2, dUm);
    NegProduct(2, dUm);
  }

  /** The bound is tight: with a wheel one micrometre larger this distance does not come back. */
  lemma MmRoundTripFailsOnHugeWheels()
    ensures MdegToMm(MmToMdeg(151_200_002, 72_000_001), 72_000_001) == 151_200_003
  {
    assert DivRound(151_200_002 * UM_PER_MM_TURN, 72_000_001) == 756_000_000;
    assert DivRound(756_000_000 * PI_DEN, PI_NUM) == 240_642_254;
    assert DivRound(240_642_254 * PI_NUM, PI_DEN) == 756_000_002;
  }

  lemma {:induction false} DegRoundTrip(deg: int32)
    ensures MdegToDeg(DegToMdeg(deg)) == deg
  {
    DivRoundUnique(deg * 1000, 1000, deg);
  }

  /** Milli-degrees become the nearest whole degree. */
  lemma MdegToDegNearest(mdeg: int64)
    requires InInt32(DivRound(mdeg, 1000))
    ensures 2 * Abs(mdeg - 1000 * MdegToDeg(mdeg)) <= 1000
  {
    DivRoundNearest(mdeg, 1000);
    CastExact(DivRound(mdeg, 1000));
    hide ToInt32;
    assert MdegToDeg(mdeg) == DivRound(mdeg, 1000);
  }

  // ----- accuracy

  /**
   The angle is the distance over the wheel's circumference, 360 000 per turn with
   pi = 355/113, to within less than one milli-degree: sign and scale included.
   */
  lemma MmToMdegAccurate(mm: int32, dUm: uint32)
    requires dUm > 0
    ensures 2 * Abs(355 * (dUm * MmToMdeg(mm, dUm)) - 113 * (360_000_000 * mm)) <= 468 * dUm
  {
    var n := mm * UM_PER_MM_TURN;
    var p := DivRound(n, dUm);
    var m := DivRound(p * PI_DEN, PI_NUM);
    DivRoundNearest(n, dUm);
    DivRoundNearest(p * PI_DEN, PI_NUM);
    hide DivRound;
    TwoRoundings(n, p, m, dUm, PI_DEN, PI_NUM);
  }

  /** Two roundings in a row: first by d, then by b after scaling with a. */
  lemma TwoRoundings(n: int, p: int, m: int, d: nat, a: nat, b: nat)
    requires 2 * Abs(n - p * d) <= d && 2 * Abs(p * a - m * b) <= b
    ensures 2 * Abs(b * (d * m) - a * n) <= (a + b) * d
  {
    var e, f := n - p * d, p * a - m * b;
    Spread(a, e, p * d);
    Spread(d, f, m * b);
    assert a * (p * d) == d * (p * a) && d * (m * b) == b * (d * m);
    ScaledError(e, d, a);
    ScaledError(f, b, d);
    Combine(a * n, b * (d * m), a * e, d * f, a * d, b * d, (a + b) * d);
  }

  lemma Spread(k: int, x: int, y: int)
    ensures k * (x + y) == k * x + k * y
  {
  }

  lemma Combine(u: int, v: int, x: int, y: int, s: int, t: int, all: int)
    requires u - v == x + y && 2 * Abs(x) <= s && 2 * Abs(y) <= t && all == s + t
    ensures 2 * Abs(v - u) <= all
  {
  }

  lemma ScaledError(e: int, d: nat, a: nat)
    requires 2 * Abs(e) <= d
    ensures 2 * Abs(a * e) <= a * d && a * d == d * a
  {
    MulMono(2 * e, d, a);
    MulMono(-2 * e, d, a);
    assert 2 * e * a == 2 * (a * e) && -2 * e * a == -2 * (a * e);
  }

  /** And back: the distance is the angle times the circumference, to the nearest millimetre up to pi's rounding. */
  lemma MdegToMmAccurate(mdeg: int, dUm: uint32)
    requires InInt32(DivRound(DivRound(mdeg * PI_NUM, PI_DEN) * dUm, UM_PER_MM_TURN))
    ensures 2 * Abs(360_000_000 * (113 * MdegToMm(mdeg, dUm)) - dUm * (355 * mdeg)) <= 113 * (360_000_000 + dUm)
  {
    var q := DivRound(mdeg * PI_NUM, PI_DEN);
    var mm := DivRound(q * dUm, UM_PER_MM_TURN);
    CastExact(mm);
    hide ToInt32;
    DivRoundNearest(mdeg * PI_NUM, PI_DEN);
    DivRoundNearest(q * dUm, UM_PER_MM_TURN);
    assert MdegToMm(mdeg, dUm) == mm;
    hide DivRound, MdegToMm;
    TwoRoundings(mdeg * PI_NUM, q, mm, PI_DEN, dUm, UM_PER_MM_TURN);
  }

  lemma CastExact(x: int)
    requires InInt32(x)
    ensures ToInt32(x) == x
  {
  }

  ghost predicate InInt32(x: int) {
    INT32_MIN <= x <= INT32_MAX
  }

  // ----- int64 intermediates

  ghost predicate MmFits(mm: int32, dUm: uint32)
    requires dUm > 0
  {
    var scaled := mm * UM_PER_MM_TURN;
    var pi := DivRound(scaled, dUm);
    var mdeg := MmToMdeg(mm, dUm);
    InInt64(scaled, dUm) && InInt64(pi * PI_DEN, PI_NUM) &&
    InInt64(mdeg * PI_NUM, PI_DEN) && InInt64(DivRound(mdeg * PI_NUM, PI_DEN) * dUm, UM_PER_MM_TURN)
  }

  /** The numerator, moved by the half divisor that rounding adds, stays in int64. */
  ghost predicate InInt64(num: int, den: int) {
    -INT64_MAX - 1 <= Abs(num) + den / 2 <= INT64_MAX
  }

  /** With a wheel of 10 um to 70 m, no product or rounding step of the round trip leaves int64. */
  lemma MmNeverOverflows(mm: int32, dUm: uint32)
    requires 10 <= dUm <= 70_000_000
    ensures MmFits(mm, dUm)
  {
    var scaled := mm * UM_PER_MM_TURN;
    var p := DivRound(scaled, dUm);
    var m := DivRound(p * PI_DEN, PI_NUM);
    var q := DivRound(m * PI_NUM, PI_DEN);
    DivRoundNearest(scaled, dUm);
    DivRoundNearest(p * PI_DEN, PI_NUM);
    DivRoundNearest(m * PI_NUM, PI_DEN);
    PiRoundTrip(p);
    hide DivRound;
    ScaledGap(p, q, dUm);
    QuotientBound(scaled, p, dUm);
  }

  lemma QuotientBound(scaled: int, p: int, dUm: uint32)
    requires dUm >= 10 && 2 * Abs(scaled - p * dUm) <= dUm
    ensures 10 * Abs(p) <= Abs(scaled) + 5
  {
    var rest := dUm - 10;
    assert p * dUm == 10 * p + p * rest;
    if p > 0 { MulMono(1, p, rest); } else if p < 0 { MulMono(p, -1, rest); NegProduct(1, rest); }
  }

  /** Ten is the smallest such diameter: at 9 um the largest distance overflows. */
  lemma MmOverflowsBelowTen()
    ensures !MmFits(INT32_MAX, 9)
  {
    assert DivRound(INT32_MAX * UM_PER_MM_TURN, 9) == 85_899_345_880_000_000;
  }
}
