/**
 How good the peak is that the stretch search settles on: for every move of at
 least 200 milli-degrees inside the speed limit, and every target of up to two
 minutes, an accepted stretch ends within 101 milli-degrees of its endpoint.
 */
module StretchSearch {
  import opened CArith
  import opened Profiles
  import opened Envelope
  import opened Stretching
  import opened StretchBounds
  import E = EndGap
  import O = Overflow

  // ----- the duration of a peak, without its floors

  /** Peak times the duration of one ramp, less the distance it covers. */
  function RampLoad(u: nat, a: nat): int {
    u * DtToReach(u, a) - US_PER_S * DxFromA(a, DtToReach(u, a))
  }

  /** One ramp's load is its kinematic distance up to rounding. */
  lemma RampWork(u: nat, a: nat)
    requires a > 0
    ensures US_PER_S * (u * u) - 2 * (a * u) <= 2 * (a * RampLoad(u, a)) <= US_PER_S * (u * u) + 2 * (a * u) + 2 * (US_PER_S * a)
  {
    var t := DtToReach(u, a);
    RampTime(u, a);
    AccelCoversAtMost(u, a);
    var r := DxFromA(a, t);
    TimesPeak(u, t * a, a);
    SquaredTime(u, a, t, r);
    LoadProduct(u, a, t, r);
    assert r * (2 * a) == 2 * (r * a);
    assert RampLoad(u, a) == u * t - US_PER_S * r;
    hide *;
    RampSum(u * u, a * u, a, r * a, u * (t * a), a * RampLoad(u, a));
  }

  lemma RampSum(square: int, au: int, a: int, q: int, p: int, load: int)
    requires load == p - 1_000_000 * q && p <= 1_000_000 * square <= p + au && 2 * q <= square
    requires 1_000_000 * square - 2 * au < 2 * (1_000_000 * q) + 2 * (1_000_000 * a)
    ensures 1_000_000 * square - 2 * au <= 2 * load <= 1_000_000 * square + 2 * au + 2 * (1_000_000 * a)
  {
  }

  lemma LoadProduct(u: nat, a: nat, t: nat, r: nat)
    ensures a * (u * t - US_PER_S * r) == u * (t * a) - US_PER_S * (r * a)
  {
    assert a * (u * t) == u * (t * a);
    assert a * (US_PER_S * r) == US_PER_S * (r * a);
  }

  lemma TimesPeak(u: nat, n: nat, a: nat)
    requires n <= u * US_PER_S < n + a
    ensures u * n <= US_PER_S * (u * u) <= u * n + a * u
  {
    var m := u * US_PER_S;
    MulMono(n, m, u);
    MulMono(m, n + a, u);
    assert m * u == US_PER_S * (u * u) && (n + a) * u == n * u + a * u;
  }

  lemma SquaredTime(u: nat, a: nat, t: nat, r: nat)
    requires a > 0 && t * a <= u * US_PER_S < t * a + a
    requires a * t * t < (r + 1) * (2 * US2_PER_S2)
    ensures US_PER_S * (u * u) - 2 * (a * u) < 2 * (US_PER_S * (r * a)) + 2 * (US_PER_S * a)
  {
    var n, m := t * a, u * US_PER_S;
    E.AlmostSquare(m, n, a);
    ScaleStrict(a * t * t, (r + 1) * (2 * US2_PER_S2), a);
    assert a * t * t * a == n * n;
    assert m * m == US2_PER_S2 * (u * u) && m * a == US_PER_S * (a * u);
    assert (r + 1) * (2 * US2_PER_S2) * a == 2 * US2_PER_S2 * (r * a) + 2 * US2_PER_S2 * a;
  }

  /** Kinematic distance of one ramp, times 10^6. */
  ghost function Ramp6(u: nat, a: nat): real
    requires a > 0
  {
    1_000_000.0 * (u * u) as real / (2 * a) as real
  }

  lemma RampWorkReal(u: nat, a: nat)
    requires a > 0
    ensures Ramp6(u, a) - u as real <= RampLoad(u, a) as real <= Ramp6(u, a) + u as real + 1_000_000.0
  {
    RampWork(u, a);
    hide RampLoad;
    BoundsReal(u * u, a, u, RampLoad(u, a));
  }

  lemma BoundsReal(uu: nat, a: nat, u: nat, w: int)
    requires a > 0 && US_PER_S * uu - 2 * (a * u) <= 2 * (a * w) <= US_PER_S * uu + 2 * (a * u) + 2 * (US_PER_S * a)
    ensures var k := 1_000_000.0 * uu as real / (2 * a) as real;
            k - u as real <= w as real <= k + u as real + 1_000_000.0
  {
    CastProduct(a, u);
    CastProduct(a, w);
    DivideReal(1_000_000.0 * uu as real, a as real, u as real, w as real);
    assert (2 * a) as real == 2.0 * a as real;
  }

  lemma DivideReal(n: real, a: real, u: real, w: real)
    requires a > 0.0 && n - 2.0 * (a * u) <= 2.0 * (a * w) <= n + 2.0 * (a * u) + 2.0 * (1_000_000.0 * a)
    ensures n / (2.0 * a) - u <= w <= n / (2.0 * a) + u + 1_000_000.0
  {
    var z, k := 2.0 * a, n / (2.0 * a);
    assert k * z == n;
    assert (k - u) * z == n - 2.0 * (a * u) && w * z == 2.0 * (a * w);
    assert (k + u + 1_000_000.0) * z == n + 2.0 * (a * u) + 2.0 * (1_000_000.0 * a);
    CancelReal(k - u, w, z);
    CancelReal(w, k + u + 1_000_000.0, z);
  }

  /** The distance of both ramps at peak u, times 10^6, is Curvature times u^2. */
  ghost function Curvature(a: nat, d: nat): real
    requires a > 0 && d > 0
  {
    1_000_000.0 / (2 * a) as real + 1_000_000.0 / (2 * d) as real
  }

  lemma RampsQuadratic(u: nat, a: nat, d: nat)
    requires a > 0 && d > 0
    ensures Ramp6(u, a) + Ramp6(u, d) == Curvature(a, d) * (u as real * u as real) && Curvature(a, d) > 0.0
  {
    CastProduct(u, u);
    var uu, x, y := u as real * u as real, 1_000_000.0 / (2 * a) as real, 1_000_000.0 / (2 * d) as real;
    ScaledQuotient(uu, (2 * a) as real);
    ScaledQuotient(uu, (2 * d) as real);
    assert x * uu + y * uu == (x + y) * uu;
  }

  lemma ScaledQuotient(n: real, z: real)
    requires z > 0.0
    ensures 1_000_000.0 * n / z == 1_000_000.0 / z * n && 1_000_000.0 / z > 0.0
  {
    var k := 1_000_000.0 / z;
    assert k * z == 1_000_000.0;
    assert (k * n) * z == 1_000_000.0 * n;
  }

  /** Peak times the duration the search assigns to it. */
  function Work(u: nat, a: nat, d: nat, dist: nat): nat
    requires u > 0
  {
    u * TotalDt(u, a, d, dist)
  }

  /** Floored distance of both ramps. */
  function RampsDx(u: nat, a: nat, d: nat): nat {
    DxFromA(a, DtToReach(u, a)) + DxFromA(d, DtToReach(u, d))
  }

  /** The work is distance plus ramps, up to the floors. */
  lemma WorkBounds(u: nat, a: nat, d: nat, dist: nat)
    requires u > 0 && a > 0 && d > 0
    ensures WorkAtLeast(Work(u, a, d, dist), u, dist, Curvature(a, d))
    ensures RampsDx(u, a, d) <= dist ==> WorkAtMost(Work(u, a, d, dist), u, dist, Curvature(a, d))
  {
    RampWorkReal(u, a);
    RampWorkReal(u, d);
    RampsQuadratic(u, a, d);
    TimeWork(u, a, d, dist);
    hide Work, RampLoad, Ramp6, RampsDx, Curvature;
  }

  ghost predicate WorkAtLeast(w: nat, u: nat, dist: nat, c: real) {
    1_000_000.0 * dist as real + c * (u as real * u as real) - 3.0 * u as real <= w as real
  }

  ghost predicate WorkAtMost(w: nat, u: nat, dist: nat, c: real) {
    w as real <= 1_000_000.0 * dist as real + c * (u as real * u as real) + 2.0 * u as real + 2_000_000.0
  }

  lemma TimeWork(u: nat, a: nat, d: nat, dist: nat)
    requires u > 0 && a > 0 && d > 0
    ensures var w := RampLoad(u, a) + RampLoad(u, d);
            US_PER_S * dist + w - u <= Work(u, a, d, dist) &&
            (RampsDx(u, a, d) <= dist ==> Work(u, a, d, dist) <= US_PER_S * dist + w)
  {
    var ta, td := DtToReach(u, a), DtToReach(u, d);
    var r := DxFromA(a, ta) + DxFromA(d, td);
    var c := if r < dist then (dist - r) * US_PER_S / u else 0;
    if r < dist { FloorDiv((dist - r) * US_PER_S, u); }
    var n := TotalDt(u, a, d, dist);
    assert n == ta + td + c;
    hide TotalDt, DxFromA, DtToReach;
    SplitTimes(u, ta, td, c);
  }

  lemma SplitTimes(u: nat, x: nat, y: nat, z: nat)
    ensures u * (x + y + z) == u * x + u * y + z * u
  {
  }

  // ----- comparing two peaks

  /** The planned peak leaves room for its ramps. */
  ghost predicate PeakFits(v: nat, a: nat, d: nat, dist: nat)
    requires a > 0 && d > 0
  {
    RampDistance(v, a) + RampDistance(v, d) <= dist && RoomFor(v, dist, Curvature(a, d))
  }

  /** Both kinematic ramps at peak u fit the distance, up to one. */
  ghost predicate RoomFor(u: nat, dist: nat, c: real) {
    c > 0.0 && c * (u as real * u as real) <= 1_000_000.0 * (dist + 1) as real
  }

  /**
   Up to the floors a lower peak takes longer: the duration of u exceeds that of
   a lower v by little, in units of v.
   */
  lemma LowerTakesLonger(v: nat, u: nat, nv: nat, nu: nat, dist: nat, c: real)
    requires 0 < v <= u && RoomFor(u, dist, c)
    requires WorkAtLeast(v * nv, v, dist, c) && WorkAtMost(u * nu, u, dist, c)
    ensures v * (nu - nv) <= 3_000_000 + 5 * v
  {
    CastProduct(v, nv);
    CastProduct(u, nu);
    LowerTakesLongerReal(v as real, u as real, nv as real, nu as real, 1_000_000.0 * dist as real, c);
    hide RoomFor, WorkAtLeast, WorkAtMost;
    CountBelow(v, nu - nv);
  }

  lemma CountBelow(v: nat, g: int)
    requires v as real * g as real <= 3_000_000.0 + 5.0 * v as real
    ensures v * g <= 3_000_000 + 5 * v
  {
    CastProduct(v, g);
  }

  lemma LowerTakesLongerReal(x: real, y: real, m: real, n: real, e: real, c: real)
    requires 0.0 < x <= y && c > 0.0 && c * (y * y) <= e + 1_000_000.0
    requires e + c * (x * x) - 3.0 * x <= x * m && y * n <= e + c * (y * y) + 2.0 * y + 2_000_000.0
    ensures x * (n - m) <= 3_000_000.0 + 5.0 * x
  {
    hide Times;
    var f, h := c * (y * y), c * (x * x);
    CurveGap(x, y, e, c, f, h);
    ScaleUpper(x, y, y * n, e, f);
    ScaleLower(y, x, x * m, e, h);
    Uncross(x, y, m, n);
  }

  /** A product kept as one term. */
  ghost function Times(x: real, y: real): real {
    x * y
  }

  lemma ScaleUpper(x: real, y: real, w: real, e: real, f: real)
    requires x > 0.0 && w <= e + f + 2.0 * y + 2_000_000.0
    ensures Times(x, w) <= Times(x, e) + Times(x, f) + 2.0 * Times(x, y) + 2_000_000.0 * x
  {
    ProductMono(w, e + f + 2.0 * y + 2_000_000.0, x);
  }

  lemma ScaleLower(y: real, x: real, w: real, e: real, h: real)
    requires y > 0.0 && e + h - 3.0 * x <= w
    ensures Times(y, w) >= Times(y, e) + Times(y, h) - 3.0 * Times(x, y)
  {
    ProductMono(e + h - 3.0 * x, w, y);
  }

  /** The two ramp terms differ by no more than the peak leaves room for. */
  lemma CurveGap(x: real, y: real, e: real, c: real, f: real, h: real)
    requires 0.0 < x <= y && c > 0.0 && f == c * (y * y) <= e + 1_000_000.0 && h == c * (x * x)
    ensures Times(x, f) - Times(y, h) <= Times(y, e) - Times(x, e) + 1_000_000.0 * y - 1_000_000.0 * x
  {
    var q := c * (y * x);
    ProductMono(x, y, y);
    ProductMono(y * x, y * y, c);
    ProductMono(q, e + 1_000_000.0, y - x);
    CrossTerms(x, y, c);
  }

  lemma CrossTerms(x: real, y: real, c: real)
    ensures x * (c * (y * y)) - y * (c * (x * x)) == c * (y * x) * (y - x)
  {
    assert x * (c * (y * y)) == c * (y * x) * y;
    assert y * (c * (x * x)) == c * (y * x) * x;
  }

  lemma Uncross(x: real, y: real, m: real, n: real)
    requires 0.0 < x <= y && Times(x, y * n) - Times(y, x * m) <= 1_000_000.0 * y + 1_000_000.0 * x + 5.0 * Times(x, y)
    ensures x * (n - m) <= 3_000_000.0 + 5.0 * x
  {
    assert x * (n - m) * y == x * (y * n) - y * (x * m);
    CancelReal(x * (n - m), 3_000_000.0 + 5.0 * x, y);
  }

  /** A peak that takes no less time than a lower one is at most a fifth above it. */
  lemma CloseAbove(h: nat, v: nat, nh: nat, nv: nat, dist: nat, c: real)
    requires 0 < h < v <= O.MAX_SPEED && dist >= MIN_DISTANCE && nh <= nv
    requires c >= MIN_CURVATURE && RoomFor(v, dist, c)
    requires WorkAtLeast(h * nh, h, dist, c) && WorkAtMost(v * nv, v, dist, c)
    ensures 5 * v <= 6 * h
  {
    hide WorkAtLeast, WorkAtMost;
    if 5 * v > 6 * h {
      FarAbove(h, v, nh, nv, dist, c);
      FarSpeed(v as real, c, 1_000_000.0 * dist as real);
    }
  }

  lemma FarAbove(h: nat, v: nat, nh: nat, nv: nat, dist: nat, c: real)
    requires 0 < h && 6 * h < 5 * v && dist >= MIN_DISTANCE && nh <= nv && RoomFor(v, dist, c)
    requires WorkAtLeast(h * nh, h, dist, c) && WorkAtMost(v * nv, v, dist, c)
    ensures 1_000_000.0 * dist as real <= 65_000_000.0 + 150.0 * v as real
  {
    CastProduct(h, nh);
    CastProduct(v, nv);
    CloseAboveReal(h as real, v as real, nh as real, nv as real, 1_000_000.0 * dist as real, c);
  }

  const MIN_DISTANCE: nat := 200

  /** What int32 accelerations leave at least: 10^6 / (2^31 - 1), rounded down. */
  const MIN_CURVATURE: real := 0.000465

  lemma CloseAboveReal(x: real, y: real, m: real, n: real, e: real, c: real)
    requires 0.0 < x && 6.0 * x < 5.0 * y && m <= n && c > 0.0 && c * (y * y) <= e + 1_000_000.0 && e >= 5_000_000.0
    requires e + c * (x * x) - 3.0 * x <= x * m && y * n <= e + c * (y * y) + 2.0 * y + 2_000_000.0
    ensures e <= 65_000_000.0 + 150.0 * y
  {
    hide Times;
    var f, h := c * (y * y), c * (x * x);
    CrossGap(x, y, c, f, h);
    ScaleUpper(x, y, y * n, e, f);
    ScaleLower(y, x, x * m, e, h);
    Crossed(x, y, m, n);
    RoomAbove(x, y, e, f);
  }

  lemma CrossGap(x: real, y: real, c: real, f: real, h: real)
    requires f == c * (y * y) && h == c * (x * x) && y > 0.0
    ensures Times(x, f) - Times(y, h) == Times(Times(x / y, f), y - x)
  {
    CrossTerms(x, y, c);
    assert x / y * y == x;
    assert x / y * f == c * (y * x);
  }

  lemma Crossed(x: real, y: real, m: real, n: real)
    requires 0.0 < x && 0.0 < y && m <= n
    ensures Times(y, x * m) <= Times(x, y * n)
  {
    ProductMono(m, n, x * y);
    assert y * (x * m) == m * (x * y) && x * (y * n) == n * (x * y);
  }

  lemma RoomAbove(x: real, y: real, e: real, f: real)
    requires 0.0 < x && 6.0 * x < 5.0 * y && 0.0 <= f <= e + 1_000_000.0 && e >= 5_000_000.0
    requires Times(y, e) - Times(x, e) <= Times(Times(x / y, f), y - x) + 5.0 * Times(x, y) + 2_000_000.0 * x
    ensures e <= 65_000_000.0 + 150.0 * y
  {
    hide Times;
    var k, room := Times(x / y, f), e / 6.0 - 5_000_000.0 / 6.0;
    ShareOf(x, y, f);
    Spread(x, y, e, k);
    LeastSpread(x, y, room, e - k);
    MostCross(x, y);
    CancelTimes(room / 6.0, 25.0 / 6.0 * y + 10_000_000.0 / 6.0, y);
  }

  lemma CancelTimes(x: real, y: real, z: real)
    requires z > 0.0 && Times(x, z) <= Times(y, z)
    ensures x <= y
  {
    CancelReal(x, y, z);
  }

  lemma ShareOf(x: real, y: real, f: real)
    requires 0.0 < x && 6.0 * x < 5.0 * y && 0.0 <= f
    ensures Times(x / y, f) <= 5.0 / 6.0 * f
  {
    assert x / y * y == x;
    CancelReal(x / y, 5.0 / 6.0, y);
    ProductMono(x / y, 5.0 / 6.0, f);
  }

  lemma Spread(x: real, y: real, e: real, k: real)
    ensures Times(y, e) - Times(x, e) - Times(k, y - x) == Times(e - k, y - x)
  {
  }

  lemma LeastSpread(x: real, y: real, room: real, left: real)
    requires 6.0 * x < 5.0 * y && 0.0 < x && 0.0 <= room <= left
    ensures Times(room / 6.0, y) <= Times(left, y - x)
  {
    ProductMono(room, left, y - x);
    ProductMono(y / 6.0, y - x, room);
    assert y / 6.0 * room == room / 6.0 * y;
  }

  lemma MostCross(x: real, y: real)
    requires 0.0 < x && 6.0 * x < 5.0 * y
    ensures 5.0 * Times(x, y) + 2_000_000.0 * x <= Times(25.0 / 6.0 * y + 10_000_000.0 / 6.0, y)
  {
    ProductMono(x, 5.0 / 6.0 * y, y);
    assert 5.0 / 6.0 * y * y * 5.0 == 25.0 / 6.0 * y * y;
  }

  /** At such speeds the planned peak would need more room than there is. */
  lemma FarSpeed(y: real, c: real, e: real)
    requires e >= 200_000_000.0 && e <= 65_000_000.0 + 150.0 * y && c >= MIN_CURVATURE
    ensures c * (y * y) > e + 1_000_000.0
  {
    ProductMono(900_000.0, y, y);
    ProductMono(MIN_CURVATURE, c, y * y);
  }

  /** Where the search ends between two adjacent peaks, their errors share what the target allows. */
  lemma ErrorSum(l: nat, nl: nat, nh: nat, target: nat, err: int, dist: nat, c: real)
    requires l > 0 && c > 0.0 && err <= nl - target && err <= target - nh
    requires WorkAtMost(l * nl, l, dist, c) && WorkAtLeast((l + 1) * nh, l + 1, dist, c)
    ensures (2 * l + 1) * err <= target + 2_000_000 + 5 * (l + 1)
  {
    var h := l + 1;
    hide WorkAtMost, WorkAtLeast;
    ShareError(l, nl, nh, target, err);
    WorkGap(l, l * nl, h * nh, dist, c);
  }

  lemma ShareError(l: nat, nl: nat, nh: nat, target: nat, err: int)
    requires err <= nl - target && err <= target - nh
    ensures (2 * l + 1) * err <= target + l * nl - (l + 1) * nh
  {
    MulMono(err, nl - target, l);
    MulMono(err, target - nh, l + 1);
    assert (2 * l + 1) * err == err * l + err * (l + 1);
    assert (nl - target) * l == l * nl - target * l && (target - nh) * (l + 1) == target * l + target - (l + 1) * nh;
  }

  lemma WorkGap(l: nat, wl: nat, wh: nat, dist: nat, c: real)
    requires c > 0.0 && WorkAtMost(wl, l, dist, c) && WorkAtLeast(wh, l + 1, dist, c)
    ensures wl - wh <= 2_000_000 + 5 * (l + 1)
  {
    var x := l as real;
    assert (l + 1) as real == x + 1.0;
    assert x * x <= (x + 1.0) * (x + 1.0);
    ProductMono(x * x, (x + 1.0) * (x + 1.0), c);
  }

  // ----- where the search ends

  /** The bisection closes in on two adjacent peaks around the target, and its candidate beats those it has measured. */
  lemma {:induction false} BisectEnds(lo: nat, hi: nat, b: Best, a: nat, d: nat, dist: nat, target: nat) returns (l: nat)
    requires 1 <= lo < hi && 1 <= b.v
    ensures lo <= l < hi && Bisect(lo, hi, b, a, d, dist, target).err <= b.err
    ensures l == lo || (TotalDt(l, a, d, dist) > target &&
                        Bisect(lo, hi, b, a, d, dist, target).err <= TotalDt(l, a, d, dist) - target)
    ensures l + 1 == hi || (TotalDt(l + 1, a, d, dist) <= target &&
                            Bisect(lo, hi, b, a, d, dist, target).err <= target - TotalDt(l + 1, a, d, dist))
    decreases hi - lo
  {
    hide TotalDt;
    if lo + 1 < hi {
      var mid := (lo + hi) / 2;
      var b' := Improve(b, mid, StretchErr(mid, a, d, dist, target));
      if TotalDt(mid, a, d, dist) > target {
        l := BisectEnds(mid, hi, b', a, d, dist, target);
      } else {
        l := BisectEnds(lo, mid, b', a, d, dist, target);
      }
    } else {
      l := lo;
    }
  }

  /** What is known of the candidate v before and after the probe, when its duration does not exceed the target. */
  lemma ChosenError(vPeak: nat, a: nat, d: nat, dist: nat, target: nat, b: Best, r: Best)
    requires 1 <= b.v <= vPeak && target < UINT64_MAX && Recorded(b, a, d, dist, target)
    requires r == Probe(ProbeFirst(b.v), ProbeLast(b.v, vPeak), b, a, d, dist, target)
    requires TotalDt(r.v, a, d, dist) <= target
    ensures r.err == target - TotalDt(r.v, a, d, dist) && r.err <= b.err
    ensures ProbeLast(b.v, vPeak) == vPeak ==> r.err <= StretchErr(vPeak, a, d, dist, target)
    ensures r.v <= ProbeLast(b.v, vPeak)
  {
    hide TotalDt, Probe;
    ProbeBeats(ProbeFirst(b.v), ProbeLast(b.v, vPeak), b, a, d, dist, target, r.v);
    ProbeBeats(ProbeFirst(b.v), ProbeLast(b.v, vPeak), b, a, d, dist, target, vPeak);
  }

  /** Everything the comparisons need of one candidate. */
  lemma PeakFacts(u: nat, vPeak: nat, a: nat, d: nat, dist: nat)
    requires 0 < u <= vPeak && a > 0 && d > 0 && PeakFits(vPeak, a, d, dist)
    ensures WorkAtLeast(u * TotalDt(u, a, d, dist), u, dist, Curvature(a, d))
    ensures WorkAtMost(u * TotalDt(u, a, d, dist), u, dist, Curvature(a, d))
    ensures RoomFor(u, dist, Curvature(a, d))
    ensures RampsDx(u, a, d) <= dist
  {
    hide TotalDt, Curvature, DxFromA, DtToReach, WorkAtLeast, WorkAtMost, RampDistance, RoomFor;
    LessRoom(u, vPeak, dist, Curvature(a, d));
    AccelBetween(u, a);
    AccelBetween(u, d);
    RampDistanceMono(u, vPeak, a);
    RampDistanceMono(u, vPeak, d);
    WorkBounds(u, a, d, dist);
  }

  lemma LessRoom(u: nat, v: nat, dist: nat, c: real)
    requires u <= v && RoomFor(v, dist, c)
    ensures RoomFor(u, dist, c)
  {
    SquareMono(u, v);
    CastProduct(u, u);
    CastProduct(v, v);
    ProductMono((u * u) as real, (v * v) as real, c);
  }

  lemma RampDistanceMono(u: nat, v: nat, a: nat)
    requires u <= v && a > 0
    ensures RampDistance(u, a) <= RampDistance(v, a)
  {
    SquareMono(u, v);
    FloorDiv(u * u, 2 * a);
    DivAtLeast(u * u / (2 * a), v * v, 2 * a);
  }

  const MAX_TARGET: nat := 120_000_000
  const MAX_ERROR_WORK: nat := 93_500_000

  /** A shared error bounds the work of a peak at most a fifth above the upper one. */
  lemma SharedErrorWork(v: nat, l: nat, err: nat, target: nat)
    requires l >= 2 && 5 * v <= 6 * (l + 1) && l < O.MAX_SPEED && target <= MAX_TARGET
    requires (2 * l + 1) * err <= target + 2_000_000 + 5 * (l + 1)
    ensures v * err <= MAX_ERROR_WORK
  {
    MulMono(25 * v, 18 * (2 * l + 1), err);
    assert 25 * v * err == 25 * (v * err) && 18 * (2 * l + 1) * err == 18 * ((2 * l + 1) * err);
  }

  /**
   The search's error: peak times the time by which the chosen peak would be done
   too early is at most 93.5 milli-degrees, for every target of up to two minutes.
   */
  lemma SearchError(vPeak: nat, a: nat, d: nat, dist: nat, target: nat)
    requires 0 < vPeak <= O.MAX_SPEED && a > 0 && d > 0 && PeakFits(vPeak, a, d, dist)
    requires dist >= MIN_DISTANCE && target <= MAX_TARGET && Curvature(a, d) >= MIN_CURVATURE
    ensures var v := Searched(vPeak, a, d, dist, target);
            v * (target - TotalDt(v, a, d, dist)) <= MAX_ERROR_WORK
  {
    var b := Bisect(1, vPeak, Best(1, UINT64_MAX), a, d, dist, target);
    var r := Probe(ProbeFirst(b.v), ProbeLast(b.v, vPeak), b, a, d, dist, target);
    var v := Searched(vPeak, a, d, dist, target);
    assert v == r.v;
    hide Bisect, Probe, Searched, TotalDt, Curvature, PeakFits;
    var n := TotalDt(v, a, d, dist);
    if n > target {
      MulMono(target - n, 0, v);
    } else {
      BisectErr(1, vPeak, Best(1, UINT64_MAX), a, d, dist, target);
      ChosenError(vPeak, a, d, dist, target, b, r);
      if vPeak == 1 {
        LongEnough(1, vPeak, a, d, dist);
      } else {
        var l := BisectEnds(1, vPeak, Best(1, UINT64_MAX), a, d, dist, target);
        EndedError(vPeak, a, d, dist, target, b, r, l);
      }
    }
  }

  function Searched(vPeak: nat, a: nat, d: nat, dist: nat, target: nat): (v: nat)
    requires vPeak >= 1
    ensures 1 <= v <= vPeak
  {
    var b := Bisect(1, vPeak, Best(1, UINT64_MAX), a, d, dist, target);
    Probe(ProbeFirst(b.v), ProbeLast(b.v, vPeak), b, a, d, dist, target).v
  }

  /** A peak below 3 mdeg/s needs at least as long as the distance says. */
  lemma LongEnough(u: nat, vPeak: nat, a: nat, d: nat, dist: nat)
    requires 0 < u <= vPeak && a > 0 && d > 0 && PeakFits(vPeak, a, d, dist)
    ensures u * TotalDt(u, a, d, dist) >= US_PER_S * dist - 3 * u
  {
    PeakFacts(u, vPeak, a, d, dist);
    hide TotalDt, Curvature, PeakFits, WorkAtMost;
    var x := u as real;
    ProductMono(0.0, x * x, Curvature(a, d));
  }

  lemma EndedError(vPeak: nat, a: nat, d: nat, dist: nat, target: nat, b: Best, r: Best, l: nat)
    requires 2 <= vPeak <= O.MAX_SPEED && a > 0 && d > 0 && PeakFits(vPeak, a, d, dist)
    requires dist >= MIN_DISTANCE && target <= MAX_TARGET && Curvature(a, d) >= MIN_CURVATURE
    requires 1 <= b.v <= vPeak && 1 <= l < vPeak && 1 <= r.v <= ProbeLast(b.v, vPeak)
    requires r.err == target - TotalDt(r.v, a, d, dist) && r.err <= b.err
    requires l == 1 || (TotalDt(l, a, d, dist) > target && b.err <= TotalDt(l, a, d, dist) - target)
    requires l + 1 == vPeak || (TotalDt(l + 1, a, d, dist) <= target && b.err <= target - TotalDt(l + 1, a, d, dist))
    requires ProbeLast(b.v, vPeak) == vPeak ==> r.err <= StretchErr(vPeak, a, d, dist, target)
    ensures r.v * r.err <= MAX_ERROR_WORK
  {
    hide TotalDt, Curvature, PeakFits, RoomFor, WorkAtLeast, WorkAtMost;
    var h := l + 1;
    if h == vPeak && ProbeLast(b.v, vPeak) < vPeak {
      TooEarly(r.v, l, vPeak, a, d, dist, target, r.err);
    } else if TotalDt(h, a, d, dist) > target {
      TooEarly(r.v, h, vPeak, a, d, dist, target, r.err);
    } else {
      Between(r.v, l, vPeak, a, d, dist, target, r.err);
    }
  }

  /** A chosen peak no further off than a higher one that is too slow is hardly too fast. */
  lemma TooEarly(v: nat, u: nat, vPeak: nat, a: nat, d: nat, dist: nat, target: nat, err: nat)
    requires 0 < v <= u <= vPeak <= O.MAX_SPEED && a > 0 && d > 0 && PeakFits(vPeak, a, d, dist)
    requires err == target - TotalDt(v, a, d, dist) && err <= TotalDt(u, a, d, dist) - target
    ensures v * err <= MAX_ERROR_WORK
  {
    hide TotalDt, PeakFits;
    LowerPeak(v, u, vPeak, a, d, dist);
    EarlyWork(v, err, TotalDt(u, a, d, dist) - TotalDt(v, a, d, dist));
  }

  lemma LowerPeak(v: nat, u: nat, vPeak: nat, a: nat, d: nat, dist: nat)
    requires 0 < v <= u <= vPeak && a > 0 && d > 0 && PeakFits(vPeak, a, d, dist)
    ensures v * (TotalDt(u, a, d, dist) - TotalDt(v, a, d, dist)) <= 3_000_000 + 5 * v
  {
    hide TotalDt, Curvature, PeakFits, RoomFor, WorkAtLeast, WorkAtMost;
    PeakFacts(v, vPeak, a, d, dist);
    PeakFacts(u, vPeak, a, d, dist);
    LowerTakesLonger(v, u, TotalDt(v, a, d, dist), TotalDt(u, a, d, dist), dist, Curvature(a, d));
  }

  lemma EarlyWork(v: nat, err: nat, gap: int)
    requires err <= gap && v * gap <= 3_000_000 + 5 * v && v <= O.MAX_SPEED
    ensures v * err <= MAX_ERROR_WORK
  {
    MulMono(err, gap, v);
  }

  /** A chosen peak no further off than the two adjacent ones around the target. */
  lemma Between(v: nat, l: nat, vPeak: nat, a: nat, d: nat, dist: nat, target: nat, err: nat)
    requires 0 < v <= vPeak && 1 <= l < vPeak <= O.MAX_SPEED && a > 0 && d > 0 && PeakFits(vPeak, a, d, dist)
    requires dist >= MIN_DISTANCE && target <= MAX_TARGET && Curvature(a, d) >= MIN_CURVATURE
    requires err == target - TotalDt(v, a, d, dist) <= target - TotalDt(l + 1, a, d, dist)
    requires l == 1 || err <= TotalDt(l, a, d, dist) - target
    ensures v * err <= MAX_ERROR_WORK
  {
    hide TotalDt, Curvature, PeakFits, RoomFor, WorkAtLeast, WorkAtMost;
    var h := l + 1;
    PeakFacts(v, vPeak, a, d, dist);
    PeakFacts(h, vPeak, a, d, dist);
    PeakFacts(l, vPeak, a, d, dist);
    var nv, nh, nl := TotalDt(v, a, d, dist), TotalDt(h, a, d, dist), TotalDt(l, a, d, dist);
    if v > h { CloseAbove(h, v, nh, nv, dist, Curvature(a, d)); }
    if l == 1 {
      LongEnough(h, vPeak, a, d, dist);
      SecondPeak(v, nh, err, dist, target);
    } else {
      ErrorSum(l, nl, nh, target, err, dist, Curvature(a, d));
      SharedErrorWork(v, l, err, target);
    }
  }

  lemma SecondPeak(v: nat, nh: nat, err: nat, dist: nat, target: nat)
    requires v <= 2 && err <= target - nh && 2 * nh >= US_PER_S * dist - 6 && dist >= MIN_DISTANCE && target <= MAX_TARGET
    ensures v * err <= MAX_ERROR_WORK
  {
    MulMono(v, 2, err);
  }

  // ----- what the error costs

  /** A peak that would be done too early by some time ends too far by at most peak times that time, plus rounding. */
  lemma EndOffsetFromError(v: nat, a: nat, d: nat, dist: nat, total: nat)
    requires v > 0 && a > 0 && 0 < d <= INT32_MAX && RampsDx(v, a, d) <= dist
    requires DtToReach(v, a) + DtToReach(v, d) < total
    ensures (EndOffset(v, a, d, total) - dist - 2 - v / US_PER_S) * US_PER_S <= v * (total - TotalDt(v, a, d, dist))
  {
    var ta, td := DtToReach(v, a), DtToReach(v, d);
    var cruise, r := total - ta - td, RampsDx(v, a, d);
    var c := if r < dist then (dist - r) * US_PER_S / v else 0;
    if r < dist { FloorDiv((dist - r) * US_PER_S, v); }
    assert TotalDt(v, a, d, dist) == ta + td + c;
    DecelNearRamp(v, d);
    DxFromVMono(v, cruise - 1, cruise);
    assert EndOffset(v, a, d, total) <= r + DxFromV(v, cruise) + 2 + v / US_PER_S;
    hide TotalDt, EndOffset, DxFromA, DtToReach, RampsDx;
    assert v * cruise == v * c + v * (total - (ta + td + c));
    assert c * v == v * c;
  }

  lemma DecelNearRamp(v: nat, d: nat)
    requires v > 0 && 0 < d <= INT32_MAX
    ensures DtToReach(v, d) >= 1 ==> DecelDx(v, d, DtToReach(v, d) - 1) <= DxFromA(d, DtToReach(v, d)) + 2 + v / US_PER_S
  {
    AccelBetween(v, d);
    if DtToReach(v, d) >= 1 { DecelAtMost(v, d, DtToReach(v, d) - 1); }
    hide DxFromA, DxFromV, DecelDx;
  }

  // ----- planned moves

  /** A planned peak leaves room for its ramps, and int32 accelerations curve them enough. */
  lemma PlannedFits(dist: nat, v: nat, a: nat, d: nat)
    requires dist > 0 && 0 < v <= INT32_MAX && 0 < a <= INT32_MAX && 0 < d <= INT32_MAX
    ensures PeakFits(PlannedPeak(dist, v, a, d), a, d, dist) && Curvature(a, d) >= MIN_CURVATURE
  {
    var u := PlannedPeak(dist, v, a, d);
    CurvatureAtLeast(a, d);
    if IsTriangle(dist, v, a, d) {
      TrianglePeakInRange(dist, v, a, d);
      TriangleRoom(dist, u, a, d);
    } else {
      CruiseRoom(dist, u, a, d);
    }
  }

  lemma CurvatureAtLeast(a: nat, d: nat)
    requires 0 < a <= INT32_MAX && 0 < d <= INT32_MAX
    ensures Curvature(a, d) >= MIN_CURVATURE
  {
    ShareAtLeast(a);
    ShareAtLeast(d);
  }

  lemma ShareAtLeast(a: nat)
    requires 0 < a <= INT32_MAX
    ensures 1_000_000.0 / (2 * a) as real >= 0.0002325
  {
    var z, k := (2 * a) as real, 1_000_000.0 / (2 * a) as real;
    assert k * z == 1_000_000.0;
    assert 0.0002325 * z <= 1_000_000.0;
    CancelReal(0.0002325, k, z);
  }

  /** The kinematic ramp against its floor. */
  lemma RampRoom(u: nat, a: nat)
    requires a > 0
    ensures RampDistance(u, a) as real <= Ramp6(u, a) / 1_000_000.0 < RampDistance(u, a) as real + 1.0
  {
    var uu, z := u * u, 2 * a;
    FloorDiv(uu, z);
    FloorReal(uu, z);
  }

  lemma FloorReal(n: nat, z: nat)
    requires z > 0
    ensures (n / z) as real <= n as real / z as real < (n / z) as real + 1.0
    ensures 1_000_000.0 * n as real / z as real == 1_000_000.0 * (n as real / z as real)
  {
    FloorDiv(n, z);
    var q, k := n / z, n as real / z as real;
    CastProduct(q, z);
    assert k * z as real == n as real;
    CancelReal(q as real, k, z as real);
    if k >= q as real + 1.0 { ProductMono(q as real + 1.0, k, z as real); }
    assert 1_000_000.0 * k * z as real == 1_000_000.0 * n as real;
  }

  lemma CruiseRoom(dist: nat, u: nat, a: nat, d: nat)
    requires a > 0 && d > 0 && !IsTriangle(dist, u, a, d)
    ensures PeakFits(u, a, d, dist)
  {
    RampRoom(u, a);
    RampRoom(u, d);
    RampsQuadratic(u, a, d);
    hide Ramp6, Curvature, RampDistance;
  }

  lemma TriangleRoom(dist: nat, u: nat, a: nat, d: nat)
    requires a > 0 && d > 0 && u == FloorSqrt(dist * TriangleFactor(a, d))
    ensures PeakFits(u, a, d, dist)
  {
    hide Ramp6, Curvature, RampDistance, TriangleFactor, FloorSqrt;
    TriangleRamps(dist, u, a, d);
    RampRoom(u, a);
    RampRoom(u, d);
    RampsQuadratic(u, a, d);
  }

  lemma TriangleRamps(dist: nat, u: nat, a: nat, d: nat)
    requires a > 0 && d > 0 && u == FloorSqrt(dist * TriangleFactor(a, d))
    ensures Ramp6(u, a) + Ramp6(u, d) <= 1_000_000.0 * dist as real
  {
    var k := TriangleFactor(a, d);
    FloorDiv(2 * a * d, a + d);
    assert u * u <= dist * k;
    hide TriangleFactor, FloorSqrt, Ramp6;
    TriangleSquare(dist, k, u * u, a + d, 2 * a * d);
    TriangleRoomReal(dist, u, a, d);
  }

  lemma TriangleSquare(dist: nat, k: nat, uu: nat, m: nat, n: nat)
    requires uu <= dist * k && k * m <= n
    ensures uu * m <= dist * n
  {
    MulMono(k * m, n, dist);
    MulMono(uu, dist * k, m);
    assert dist * k * m == k * m * dist;
  }

  lemma TriangleRoomReal(dist: nat, u: nat, a: nat, d: nat)
    requires a > 0 && d > 0 && u * u * (a + d) <= dist * (2 * a * d)
    ensures Ramp6(u, a) + Ramp6(u, d) <= 1_000_000.0 * dist as real
  {
    var uu, x, y, e := (u * u) as real, a as real, d as real, dist as real;
    CastProduct(u * u, a + d);
    CastProduct(dist, 2 * a * d);
    CastProduct(a, d);
    assert (2 * a * d) as real == 2.0 * (x * y) by { assert 2 * a * d == 2 * (a * d); }
    TwoRamps(uu, x, y, e);
  }

  lemma TwoRamps(uu: real, x: real, y: real, e: real)
    requires x > 0.0 && y > 0.0 && uu * (x + y) <= e * (2.0 * (x * y))
    ensures 1_000_000.0 * uu / (2.0 * x) + 1_000_000.0 * uu / (2.0 * y) <= 1_000_000.0 * e
  {
    var p, q := 1_000_000.0 * uu / (2.0 * x), 1_000_000.0 * uu / (2.0 * y);
    assert p * (2.0 * x) == 1_000_000.0 * uu && q * (2.0 * y) == 1_000_000.0 * uu;
    var z := 2.0 * (x * y);
    assert p * z == 1_000_000.0 * uu * y && q * z == 1_000_000.0 * uu * x;
    assert (p + q) * z <= 1_000_000.0 * e * z;
    assert z > 0.0;
    CancelReal(p + q, 1_000_000.0 * e, z);
  }

  /**
   The documented residual bound, for everything a caller asks within two
   minutes: inside the documented speed limit, a planned move of at least 200
   milli-degrees whose stretch is accepted - whatever the time origin - ends at
   most 96 milli-degrees past its endpoint and at most 101 short of it.
   */
  lemma StretchEndsNear(t0: nat, x0: int, x1: int, v: int32, accel: int32, decel: int32, target: nat)
    requires Abs(x1 - x0) >= MIN_DISTANCE && 0 < v <= O.MAX_SPEED && target <= MAX_TARGET
    requires Stretch(Plan(t0, x0, x1, v, accel, decel), target).0 == Ok
    ensures var q := Stretch(Plan(t0, x0, x1, v, accel, decel), target).1;
            -101 <= q.direction * (Sample(q, t0 + target - 1).x - x1) <= 96
  {
    PlannedIsOrdinary(t0, x0, x1, v, accel, decel);
    PlanIsShaped(t0, x0, x1, v, accel, decel);
    hide Plan, Ordinary, Stretch, Shaped;
    AcceptedEndsNear(Plan(t0, x0, x1, v, accel, decel), target);
  }

  lemma PlannedPeakFits(t0: nat, x0: int, x1: int, v: int32, accel: int32, decel: int32)
    requires x0 != x1 && v > 0
    ensures var p := Plan(t0, x0, x1, v, accel, decel);
            p.accel > 0 && 0 < p.decel <= INT32_MAX &&
            PeakFits(p.vPeak, p.accel, p.decel, Abs(x1 - x0)) && Curvature(p.accel, p.decel) >= MIN_CURVATURE
  {
    PlannedFits(Abs(x1 - x0), v, EffectiveAccel(accel), EffectiveDecel(accel, decel));
    hide PlannedPeak, PeakFits, Curvature;
  }

  lemma AcceptedEndsNear(p: Profile, target: nat)
    requires Ordinary(p) && Stretch(p, target).0 == Ok && target <= MAX_TARGET
    ensures var q := Stretch(p, target).1;
            -101 <= q.direction * (Sample(q, p.t0 + target - 1).x - p.x1) <= 96
  {
    hide *;
    OrdinaryPeak(p);
    AcceptedFacts(p, target);
    var q, dist := Stretch(p, target).1, Abs(p.x1 - p.x0);
    EndOffsetReached(q);
    SignedResidual(q);
    SearchedEnd(p.vPeak, p.accel, p.decel, dist, target);
  }

  /** What a planned move inside the speed limit and of at least 200 milli-degrees brings along. */
  ghost predicate Ordinary(p: Profile) {
    Stretched(p) && p.decel <= INT32_MAX && p.vPeak <= O.MAX_SPEED && Abs(p.x1 - p.x0) >= MIN_DISTANCE &&
    PeakFits(p.vPeak, p.accel, p.decel, Abs(p.x1 - p.x0)) && Curvature(p.accel, p.decel) >= MIN_CURVATURE
  }

  lemma OrdinaryPeak(p: Profile)
    requires Ordinary(p)
    ensures 0 < p.vPeak <= O.MAX_SPEED && p.accel > 0 && 0 < p.decel <= INT32_MAX
    ensures PeakFits(p.vPeak, p.accel, p.decel, Abs(p.x1 - p.x0)) && Curvature(p.accel, p.decel) >= MIN_CURVATURE
    ensures Stretched(p) && Abs(p.x1 - p.x0) >= MIN_DISTANCE
  {
    hide PeakFits, Curvature;
  }

  lemma PlannedIsOrdinary(t0: nat, x0: int, x1: int, v: int32, accel: int32, decel: int32)
    requires Abs(x1 - x0) >= MIN_DISTANCE && 0 < v <= O.MAX_SPEED
    ensures Ordinary(Plan(t0, x0, x1, v, accel, decel))
  {
    PlannedIsStretched(t0, x0, x1, v, accel, decel);
    PlanIsShaped(t0, x0, x1, v, accel, decel);
    PlannedPeakFits(t0, x0, x1, v, accel, decel);
    hide Plan, PlannedPeak, PeakFits, Curvature;
  }

  /** What the end of an accepted stretch depends on. */
  lemma AcceptedFacts(p: Profile, target: nat)
    requires Stretched(p) && Stretch(p, target).0 == Ok && Abs(p.x1 - p.x0) >= MIN_DISTANCE
    ensures var q := Stretch(p, target).1;
            p.t0 < target && Stretched(q) && Shaped(q) && q.cruiseDt > 0 && q.totalDt == target && q.t0 == p.t0 &&
            q.x0 == p.x0 && q.x1 == p.x1 && q.accel == p.accel && q.decel == p.decel && p.vPeak > 0 && p.accel > 0 && p.decel > 0 &&
            q.vPeak == Searched(p.vPeak, p.accel, p.decel, Abs(p.x1 - p.x0), target) <= p.vPeak &&
            Offset(q, target - 1) >= Abs(p.x1 - p.x0) - 101
  {
    StretchKeepsTheMove(p, target);
    if target <= p.t0 { StretchGateAfterTarget(p, target); }
    StretchUndershoot(p, target);
    assert Stretch(p, target).1.vPeak == Searched(p.vPeak, p.accel, p.decel, Abs(p.x1 - p.x0), target);
    hide Stretch, Searched, Offset;
  }

  /** The distance the chosen peak covers in the target time exceeds the commanded one by at most 96. */
  lemma SearchedEnd(vPeak: nat, a: nat, d: nat, dist: nat, target: nat)
    requires 0 < vPeak <= O.MAX_SPEED && a > 0 && 0 < d <= INT32_MAX && PeakFits(vPeak, a, d, dist)
    requires dist >= MIN_DISTANCE && target <= MAX_TARGET && Curvature(a, d) >= MIN_CURVATURE
    requires var v := Searched(vPeak, a, d, dist, target); DtToReach(v, a) + DtToReach(v, d) < target
    ensures EndOffset(Searched(vPeak, a, d, dist, target), a, d, target) <= dist + 96
  {
    hide Searched, PeakFits, Curvature, EndOffset, DtToReach, TotalDt, RampsDx;
    var v := Searched(vPeak, a, d, dist, target);
    PeakFacts(v, vPeak, a, d, dist);
    SearchError(vPeak, a, d, dist, target);
    EndOffsetFromError(v, a, d, dist, target);
  }

  lemma SignedResidual(q: Profile)
    requires Stretched(q) && q.totalDt >= 1
    ensures q.direction * (Sample(q, q.t0 + q.totalDt - 1).x - q.x1) == Offset(q, q.totalDt - 1) - Abs(q.x1 - q.x0)
  {
    var x := Sample(q, q.t0 + q.totalDt - 1).x;
    assert Abs(q.x1 - q.x0) == q.direction * (q.x1 - q.x0);
    hide Sample;
    assert q.direction * (x - q.x1) == q.direction * (x - q.x0) - q.direction * (q.x1 - q.x0);
  }
}
