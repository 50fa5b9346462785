/**
 What the curve command's duration matching achieves.
 */
module Curves {
  import opened CArith
  import opened Profiles
  import opened DriveBase
  import S = Stretching
  import Search = StretchSearch
  import Origin = StretchOrigin

  /** The plan that ends first; equal durations count as the distance axis'. */
  function Shorter(d: Profile, h: Profile): Profile {
    if h.totalDt < d.totalDt then h else d
  }

  function Longest(d: Profile, h: Profile): nat {
    if h.totalDt < d.totalDt then d.totalDt else h.totalDt
  }

  /**
   The two plans of a curve end together exactly when they already did, or when
   the longer one lasts at least one and a half times as long and the shorter
   plan's stretch is accepted.  At most one plan changes, and both keep their endpoints.
   */
  lemma CurveEqualised(d: Profile, h: Profile)
    requires S.Stretched(d) && S.Stretched(h)
    ensures var (d2, h2) := Equalised(d, h);
            var short, long := Shorter(d, h), Longest(d, h);
            (d2.totalDt == h2.totalDt <==>
               d.totalDt == h.totalDt || (2 * long >= 3 * short.totalDt && Stretch(short, long).0 == Ok)) &&
            (d2.totalDt != h2.totalDt ==> (d2, h2) == (d, h)) && (d2 == d || h2 == h) &&
            d2.x0 == d.x0 && d2.x1 == d.x1 && h2.x0 == h.x0 && h2.x1 == h.x1
  {
    S.StretchKeepsTheMove(Shorter(d, h), Longest(d, h));
    hide Stretch;
  }

  /**
   A curve is planned at the current clock.  Once that has passed the longer
   duration, its plans are made to end together only if the shorter one moves at
   most 100 milli-degrees; every other curve keeps two unequal plans.
   */
  lemma LateCurveEqualised(d: Profile, h: Profile)
    requires S.Stretched(d) && S.Stretched(h) && Longest(d, h) <= Shorter(d, h).t0
    ensures var (d2, h2) := Equalised(d, h);
            var short, long := Shorter(d, h), Longest(d, h);
            d2.totalDt == h2.totalDt <==>
              d.totalDt == h.totalDt ||
              (0 < short.totalDt && 2 * long >= 3 * short.totalDt && Abs(short.x1 - short.x0) <= 100)
  {
    var short, long := Shorter(d, h), Longest(d, h);
    CurveEqualised(d, h);
    if Stretchable(short, long) { S.StretchGateAfterTarget(short, long); }
    hide Equalised, RampsFit, GatePasses, StretchCandidate;
  }

  /**
   Before that, what a caller can check: for a shorter plan of at least 200
   milli-degrees inside the speed limit and a longer duration of up to two
   minutes, different plans are made to end together only if distance times
   origin squared is at most 400 times the duration squared; then the stretched
   plan ends within 101 milli-degrees of its endpoint.
   */
  lemma EarlyCurveEqualised(d: Profile, h: Profile)
    requires S.Stretched(d) && S.Stretched(h) && d.totalDt != h.totalDt
    requires Search.Ordinary(Shorter(d, h)) && Longest(d, h) <= Search.MAX_TARGET
    ensures var (d2, h2) := Equalised(d, h);
            var short, long := Shorter(d, h), Longest(d, h);
            d2.totalDt == h2.totalDt ==>
              short.t0 < long && (Abs(short.x1 - short.x0) - 102) * (short.t0 * short.t0) <= 400 * (long * long) &&
              var q := Stretch(short, long).1;
              -101 <= q.direction * (Sample(q, short.t0 + long - 1).x - short.x1) <= 96
  {
    CurveEqualised(d, h);
    hide Equalised, Stretch, Sample, Search.Ordinary;
    if Stretch(Shorter(d, h), Longest(d, h)).0 == Ok {
      Origin.AcceptedIsEarly(Shorter(d, h), Longest(d, h));
      Search.AcceptedEndsNear(Shorter(d, h), Longest(d, h));
    }
  }

  const CURVE_V: int := 500_000
  const CURVE_A: int := 1_000_000

  /** From this time after boot on - 82 ms - the curve below keeps its unequal plans. */
  const FIRST_82_MS: nat := 82_000

  /**
   A curve of one wheel turn and a quarter turn of twist at 500 deg/s, commanded
   at any time later than 82 ms after boot: the heading ends after half the time
   of the distance.
   */
  lemma CurveWitness(now: nat) returns (d: Profile, h: Profile, v: int32, a: int32)
    requires now >= FIRST_82_MS
    ensures d == Plan(now, 0, 360_000, v, a, a) && h == Plan(now, 0, 90_000, v, a, a)
    ensures v == CURVE_V && a == CURVE_A
    ensures d.totalDt == 1_220_000 && h.totalDt == 600_000 && Equalised(d, h) == (d, h)
  {
    v, a := CURVE_V, CURVE_A;
    d, h := Plan(now, 0, 360_000, v, a, a), Plan(now, 0, 90_000, v, a, a);
    hide Plan;
    CurvePlans(now, v, a);
    StaysUnequal(now, d, h);
  }

  lemma CurvePlans(now: nat, v: int32, a: int32)
    requires v == CURVE_V && a == CURVE_A
    ensures Unequal(now, Plan(now, 0, 360_000, v, a, a), Plan(now, 0, 90_000, v, a, a))
  {
    hide Plan, S.Stretched, Search.Ordinary;
    DistancePlan(now, v, a);
    HeadingPlan(now, v, a);
    S.PlannedIsStretched(now, 0, 360_000, v, a, a);
    S.PlannedIsStretched(now, 0, 90_000, v, a, a);
    Search.PlannedIsOrdinary(now, 0, 90_000, v, a, a);
  }

  /** What the argument needs of the two plans. */
  ghost predicate Unequal(now: nat, d: Profile, h: Profile) {
    S.Stretched(d) && S.Stretched(h) && Search.Ordinary(h) &&
    d.totalDt == 1_220_000 && h.totalDt == 600_000 && h.t0 == now && h.x0 == 0 && h.x1 == 90_000
  }

  lemma StaysUnequal(now: nat, d: Profile, h: Profile)
    requires now >= FIRST_82_MS && Unequal(now, d, h)
    ensures Equalised(d, h) == (d, h)
  {
    hide Equalised, S.Stretched, Search.Ordinary, Stretch, Sample;
    CurveEqualised(d, h);
    EarlyCurveEqualised(d, h);
    TooLate(now);
  }

  lemma TooLate(now: nat)
    requires now >= FIRST_82_MS
    ensures (90_000 - 102) * (now * now) > 400 * (1_220_000 * 1_220_000)
  {
    SquareMono(FIRST_82_MS, now);
  }

  lemma DistancePlan(t0: nat, v: int32, a: int32)
    requires v == CURVE_V && a == CURVE_A
    ensures var p := Plan(t0, 0, 360_000, v, a, a);
            p.totalDt == 1_220_000 && p.t0 == t0 && p.x0 == 0 && p.x1 == 360_000
  {
    assert RampDistance(v, a) == 125_000 && DtToReach(v, a) == 500_000;
  }

  lemma HeadingPlan(t0: nat, v: int32, a: int32)
    requires v == CURVE_V && a == CURVE_A
    ensures var p := Plan(t0, 0, 90_000, v, a, a);
            p.totalDt == 600_000 && p.t0 == t0 && p.x0 == 0 && p.x1 == 90_000
  {
    assert RampDistance(v, a) == 125_000;
    assert TriangleFactor(a, a) == 1_000_000;
    FloorSqrtUnique(90_000_000_000, 300_000);
    assert DtToReach(300_000, a) == 300_000;
  }
}
