/**
 C integer arithmetic as the daemon uses it: fixed-width ranges, truncating
 division, and the two facts about floor division every profile proof needs.
 */
module CArith {

  const INT32_MAX: int := 0x7fff_ffff
  const INT32_MIN: int := -0x8000_0000
  const INT64_MAX: int := 0x7fff_ffff_ffff_ffff
  const UINT32_MOD: int := 0x1_0000_0000
  const UINT64_MAX: int := 0xffff_ffff_ffff_ffff
  const UINT64_MOD: int := 0x1_0000_0000_0000_0000

  type int32 = x: int | INT32_MIN <= x <= INT32_MAX
  type int64 = x: int | -INT64_MAX - 1 <= x <= INT64_MAX
  type uint32 = x: int | 0 <= x < UINT32_MOD
  type uint64 = x: int | 0 <= x <= UINT64_MAX

  function Abs(x: int): nat {
    if x < 0 then -x else x
  }

  function Sign(x: int): (s: int)
    ensures -1 <= s <= 1
  {
    if x > 0 then 1 else if x < 0 then -1 else 0
  }

  function Clamp(x: int, lo: int, hi: int): int {
    if x < lo then lo else if x > hi then hi else x
  }

  /** C's integer division: the quotient truncates toward zero. */
  function TruncDiv(n: int, d: int): int
    requires d != 0
  {
    var m := Abs(n) / Abs(d);
    if (n < 0) == (d < 0) then m else -m
  }

  /** The remainder of truncating division is smaller than the divisor and carries the dividend's sign. */
  lemma TruncDivRemainder(n: int, d: int)
    requires d > 0
    ensures Abs(n - TruncDiv(n, d) * d) < d
    ensures 0 <= n ==> 0 <= TruncDiv(n, d) * d <= n
    ensures n < 0 ==> n <= TruncDiv(n, d) * d <= 0
  {
    var m := Abs(n) / d;
    FloorDiv(Abs(n), d);
    MulMono(0, m, d);
    NegProduct(m, d);
  }

  lemma NegProduct(m: int, d: int)
    ensures (-m) * d == -(m * d)
  {
  }

  lemma TruncMono(m: int, n: int, d: int)
    requires d > 0 && m <= n
    ensures TruncDiv(m, d) <= TruncDiv(n, d)
  {
    if m >= 0 {
      FloorDiv(m, d);
      DivAtLeast(m / d, n, d);
    } else if n < 0 {
      FloorDiv(-n, d);
      DivAtLeast(-n / d, -m, d);
    } else {
      FloorDiv(-m, d);
      FloorDiv(n, d);
    }
  }

  /** Truncation moves a quotient by less than one. */
  lemma TruncNear(n: int, d: int)
    requires d > 0
    ensures -1.0 < TruncDiv(n, d) as real - n as real / d as real < 1.0
  {
    TruncDivRemainder(n, d);
    NearQuotient(n, TruncDiv(n, d), d);
  }

  lemma NearQuotient(n: int, q: int, d: int)
    requires d > 0 && Abs(n - q * d) < d
    ensures -1.0 < q as real - n as real / d as real < 1.0
  {
    CastProduct(q, d);
    var p := q * d;
    assert (n - p) as real == n as real - p as real;
    NearReal(q as real, n as real, d as real);
  }

  lemma NearReal(q: real, n: real, z: real)
    requires z > 0.0 && -z < n - q * z < z
    ensures -1.0 < q - n / z < 1.0
  {
    var x := n / z;
    assert x * z == n;
    assert (q - x) * z == q * z - n && (x - q) * z == n - q * z;
    if q - x >= 1.0 { ProductMono(1.0, q - x, z); }
    if x - q >= 1.0 { ProductMono(1.0, x - q, z); }
  }

  /** The value a uint64 subtraction leaves behind when it goes below zero. */
  function Sub64(x: int, y: int): int {
    (x - y) % UINT64_MOD
  }

  /** The narrowing cast to int32 on a two's complement target. */
  function ToInt32(x: int): int32 {
    var r := x % UINT32_MOD;
    if r > INT32_MAX then r - UINT32_MOD else r
  }

  lemma FloorDiv(n: int, d: int)
    requires d > 0
    ensures (n / d) * d <= n < (n / d) * d + d
    ensures 0 <= n ==> 0 <= n / d
  {
    if 0 <= n { DivAtLeast(0, n, d); }
  }

  lemma MulMono(x: int, y: int, k: int)
    requires x <= y && 0 <= k
    ensures x * k <= y * k
  {
  }

  lemma SquareMono(x: int, y: int)
    requires 0 <= x <= y
    ensures x * x <= y * y
  {
    MulMono(x, y, x);
    MulMono(x, y, y);
  }

  /** q is a lower bound of the floor quotient as soon as q * d <= n. */
  lemma DivAtLeast(q: int, n: int, d: int)
    requires d > 0 && q * d <= n
    ensures q <= n / d
  {
    var m := n / d;
    assert q * d < (m + 1) * d;
    CancelStrict(q, m + 1, d);
  }

  /** k > 0 cancels on both sides of an inequality. */
  lemma Cancel(x: int, y: int, k: int)
    requires k > 0 && x * k <= y * k
    ensures x <= y
  {
    assert (x - y) * k <= 0;
  }

  lemma CancelStrict(x: int, y: int, k: int)
    requires k > 0 && x * k < y * k
    ensures x < y
  {
    assert (x - y) * k < 0;
  }

  // ----- the same for reals

  lemma CancelReal(x: real, y: real, z: real)
    requires z > 0.0 && x * z <= y * z
    ensures x <= y
  {
    assert (x - y) * z <= 0.0;
  }

  lemma CastProduct(x: int, y: int)
    ensures (x * y) as real == x as real * y as real
  {
  }

  lemma ProductMono(x: real, y: real, k: real)
    requires x <= y && k >= 0.0
    ensures x * k <= y * k
  {
    assert (y - x) * k >= 0.0;
  }
}
