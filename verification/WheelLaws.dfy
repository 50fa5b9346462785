/**
 What one wheel's compose stage means: the friction sign as hysteresis, the sag
 correction as a ratio, and the terminal floor as a push towards the target.
 */
module WheelLaws {
  import opened CArith
  import opened DriveBase

  // ----- friction sign

  /** The held sign after a sequence of reference speeds, from none. */
  function SignAfter(enter: nat, exit: nat, vs: seq<int>): int {
    if vs == [] then 0 else FfSign(vs[|vs| - 1], SignAfter(enter, exit, vs[..|vs| - 1]), enter, exit)
  }

  /** Speed j reached the entry threshold, and since then the speed has stayed in the held zone. */
  ghost predicate HeldSince(enter: nat, exit: nat, vs: seq<int>, j: int) {
    0 <= j < |vs| && Abs(vs[j]) >= enter && forall k :: j < k < |vs| ==> exit <= Abs(vs[k]) < enter
  }

  /**
   Hysteresis, exactly: the sign is that of the last speed that reached the entry
   threshold as long as no later one fell below the exit threshold, else none.
   */
  lemma {:induction false} SignExactly(enter: nat, exit: nat, vs: seq<int>)
    requires 0 < exit <= enter
    ensures SignAfter(enter, exit, vs) != 0 <==> exists j :: HeldSince(enter, exit, vs, j)
    ensures forall j :: HeldSince(enter, exit, vs, j) ==> SignAfter(enter, exit, vs) == Sign(vs[j])
    decreases |vs|
  {
    if vs != [] {
      var before, v, n := vs[..|vs| - 1], vs[|vs| - 1], |vs| - 1;
      SignExactly(enter, exit, before);
      if Abs(v) >= enter {
        assert HeldSince(enter, exit, vs, n);
        forall j | HeldSince(enter, exit, vs, j) ensures j == n {}
      } else if Abs(v) < exit {
        forall j ensures !HeldSince(enter, exit, vs, j) {
          if 0 <= j < n { assert Abs(vs[n]) < exit; }
        }
      } else {
        forall j ensures HeldSince(enter, exit, vs, j) <==> HeldSince(enter, exit, before, j) {
          if HeldSince(enter, exit, before, j) {
            forall k | j < k < |vs| ensures exit <= Abs(vs[k]) < enter { if k < n { assert vs[k] == before[k]; } }
          }
          if HeldSince(enter, exit, vs, j) {
            forall k | j < k < |before| ensures exit <= Abs(before[k]) < enter { assert vs[k] == before[k]; }
          }
        }
      }
    }
  }

  // ----- sag correction

  /**
   The corrected duty is the duty times nominal over measured voltage, the
   measurement limited from below, to within one and limited to full duty.
   */
  lemma CorrectedNear(c: WheelSettings, duty: int, vbat: int)
    requires c.minMv >= 1
    ensures var gauge := if vbat < c.minMv then c.minMv else vbat;
            var ideal := (duty * c.nominalMv) as real / gauge as real;
            var out := Corrected(c, duty, vbat);
            -10000 <= out <= 10000 && (out < 10000 ==> ideal < out as real + 1.0) && (out > -10000 ==> ideal > out as real - 1.0)
  {
    var gauge := if vbat < c.minMv then c.minMv else vbat;
    TruncNear(duty * c.nominalMv, gauge);
    hide TruncDiv;
  }

  // ----- the terminal floor

  /** Whenever the floor changes a command, it pushes towards the target with exactly the floor, from more than 3 degrees away. */
  lemma FloorPushesHome(floor: nat, w: Wheel, pre: int, err: int, trajDone: bool)
    ensures var (n, duty) := Breakaway(floor, w, pre, err, trajDone);
            duty != pre ==>
              trajDone && !w.consumed && Abs(err) > 3000 && duty == (if err > 0 then floor else 0 - floor) &&
              Abs(pre) < floor && (pre == 0 || (pre > 0 <==> err > 0))
  {
  }

  /** The side the breakaway characterisation speaks of. */
  lemma SideOfError(err: int)
    ensures ErrSide(err) == if err > 3000 then 1 else if err < -3000 then -1 else 0
  {
  }
}
