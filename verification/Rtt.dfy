/** The round-trip-time estimator in whole nanoseconds, with Go's truncating division. */
module Rtt {
  /** Go's integer quotient: rounds toward zero. */
  function Quot(a: int, d: int): int
    requires d > 0
  {
    if a >= 0 then a / d else -((-a) / d)
  }

  function Abs(x: int): nat {
    if x < 0 then -x else x
  }

  function Max(a: int, b: int): int {
    if a < b then b else a
  }

  datatype Estimate = Unset | Estimate(avg: int, dev: int)

  function Update(e: Estimate, sample: int): Estimate {
    match e
    case Unset => Estimate(sample, Quot(sample, 2))
    case Estimate(avg, dev) => Estimate(avg + Quot(sample - avg, 8), dev + Quot(Abs(sample - avg) - dev, 4))
  }

  function UpdateAll(e: Estimate, samples: seq<int>): Estimate {
    if samples == [] then e else Update(UpdateAll(e, samples[..|samples| - 1]), samples[|samples| - 1])
  }

  /** Rules 2.2 and 2.3 of RFC 6298 over the rationals, scaled by 8 and 4, and how
      far the truncated update stays from them: less than one nanosecond, toward
      the old value. */
  lemma UpdateFollowsRfc6298(e: Estimate, sample: int)
    ensures e.Unset? && sample >= 0 ==>
      var f := Update(e, sample); f.avg == sample && 2 * f.dev <= sample < 2 * f.dev + 2
    ensures e.Estimate? ==>
      var f := Update(e, sample);
      var exactAvg8, exactDev4 := 7 * e.avg + sample, 3 * e.dev + Abs(sample - e.avg);
      && Abs(exactAvg8 - 8 * f.avg) < 8 && (exactAvg8 - 8 * f.avg) * (sample - e.avg) >= 0
      && Abs(exactDev4 - 4 * f.dev) < 4 && (exactDev4 - 4 * f.dev) * (Abs(sample - e.avg) - e.dev) >= 0
  {
    if e.Estimate? {
      QuotRemainder(sample - e.avg, 8);
      QuotRemainder(Abs(sample - e.avg) - e.dev, 4);
    }
  }

  lemma QuotRemainder(a: int, d: int)
    requires d > 0
    ensures var r := a - d * Quot(a, d); Abs(r) < d && r * a >= 0
  {
    var r := a - d * Quot(a, d);
    if a >= 0 {
      assert r == a % d;
    } else {
      assert -r == (-a) % d;
    }
    assert (r >= 0 && a >= 0) || (r <= 0 && a <= 0);
    SameSign(r, a);
  }

  lemma SameSign(r: int, a: int)
    requires (r >= 0 && a >= 0) || (r <= 0 && a <= 0)
    ensures r * a >= 0
  {
  }

  // ----- Range -----

  predicate InRange(samples: seq<int>, lo: int, hi: int) {
    forall i | 0 <= i < |samples| :: lo <= samples[i] <= hi
  }

  /** Over any non-empty run of samples in [lo, hi] the average stays in [lo, hi] and
      the deviation in [0, max(first / 2, hi - lo)]. */
  lemma {:induction false} StaysInRange(samples: seq<int>, lo: int, hi: int)
    requires samples != [] && 0 <= lo && InRange(samples, lo, hi)
    ensures var e := UpdateAll(Unset, samples);
            e.Estimate? && lo <= e.avg <= hi && 0 <= e.dev <= Max(samples[0] / 2, hi - lo)
  {
    var n := |samples| - 1;
    if n > 0 {
      StaysInRange(samples[..n], lo, hi);
    } else {
      assert samples[..0] == [];
      assert UpdateAll(Unset, samples[..0]) == Unset;
    }
  }

  // ----- Convergence on a constant round-trip time -----

  function Repeat(e: Estimate, r: int, n: nat): Estimate {
    if n == 0 then e else Update(Repeat(e, r, n - 1), r)
  }

  function Halvings(x: nat): nat {
    if x == 0 then 0 else 1 + Halvings(x / 2)
  }

  /** How far the average is from r beyond the 7 that truncation leaves. */
  function AvgExcess(e: Estimate, r: int): nat
    requires e.Estimate?
  {
    Max(Abs(e.avg - r) - 7, 0)
  }

  function DevExcess(e: Estimate): nat
    requires e.Estimate?
  {
    Max(e.dev - 10, 0)
  }

  lemma StepShrinks(e: Estimate, r: int)
    requires e.Estimate? && e.dev >= 0
    ensures var f := Update(e, r);
            && f.Estimate? && 0 <= f.dev <= Max(e.dev, Abs(e.avg - r)) && Abs(f.avg - r) <= Abs(e.avg - r)
            && 8 * AvgExcess(f, r) <= 7 * AvgExcess(e, r)
            && (AvgExcess(e, r) == 0 ==> 4 * DevExcess(f) <= 3 * DevExcess(e))
  {
  }

  lemma {:induction false} RepeatSplit(e: Estimate, r: int, m: nat, n: nat)
    ensures Repeat(e, r, m + n) == Repeat(Repeat(e, r, m), r, n)
  {
    hide Update;
    if n > 0 {
      RepeatSplit(e, r, m, n - 1);
    }
  }

  lemma {:induction false} RepeatBounds(e: Estimate, r: int, n: nat)
    requires e.Estimate? && e.dev >= 0
    ensures var f := Repeat(e, r, n);
            && f.Estimate? && 0 <= f.dev <= Max(e.dev, Abs(e.avg - r)) && Abs(f.avg - r) <= Abs(e.avg - r)
            && (AvgExcess(e, r) == 0 ==> AvgExcess(f, r) == 0 && DevExcess(f) <= DevExcess(e))
  {
    hide Update;
    if n > 0 {
      RepeatBounds(e, r, n - 1);
      StepShrinks(Repeat(e, r, n - 1), r);
    }
  }

  /** Six samples halve the excess of the average. */
  lemma AverageHalves(e: Estimate, r: int)
    requires e.Estimate? && e.dev >= 0
    ensures var f := Repeat(e, r, 6); f.Estimate? && f.dev >= 0 && AvgExcess(f, r) <= AvgExcess(e, r) / 2
  {
    hide Update, AvgExcess, DevExcess, Max;
    var e1 := Update(e, r);
    var e2 := Update(e1, r);
    var e3 := Update(e2, r);
    var e4 := Update(e3, r);
    var e5 := Update(e4, r);
    var e6 := Update(e5, r);
    StepShrinks(e, r);
    StepShrinks(e1, r);
    StepShrinks(e2, r);
    StepShrinks(e3, r);
    StepShrinks(e4, r);
    StepShrinks(e5, r);
    assert Repeat(e, r, 1) == e1;
    assert Repeat(e, r, 2) == e2;
    assert Repeat(e, r, 3) == e3;
    assert Repeat(e, r, 4) == e4;
    assert Repeat(e, r, 5) == e5;
    assert Repeat(e, r, 6) == e6;
  }

  /** Once the average has settled, three samples halve the excess of the deviation. */
  lemma DeviationHalves(e: Estimate, r: int)
    requires e.Estimate? && e.dev >= 0 && AvgExcess(e, r) == 0
    ensures var f := Repeat(e, r, 3);
            f.Estimate? && f.dev >= 0 && AvgExcess(f, r) == 0 && DevExcess(f) <= DevExcess(e) / 2
  {
    hide Update, AvgExcess, DevExcess, Max;
    var e1 := Update(e, r);
    var e2 := Update(e1, r);
    StepShrinks(e, r);
    StepShrinks(e1, r);
    StepShrinks(e2, r);
    assert Repeat(e, r, 1) == e1;
    assert Repeat(e, r, 2) == e2;
  }

  lemma {:induction false} AverageSettles(e: Estimate, r: int, n: nat)
    requires e.Estimate? && e.dev >= 0 && n >= 6 * Halvings(AvgExcess(e, r))
    ensures var f := Repeat(e, r, n); f.Estimate? && f.dev >= 0 && AvgExcess(f, r) == 0
    decreases n
  {
    hide Repeat, AvgExcess;
    RepeatBounds(e, r, n);
    if AvgExcess(e, r) > 0 {
      var f := Repeat(e, r, 6);
      AverageHalves(e, r);
      HalvingsMonotone(AvgExcess(f, r), AvgExcess(e, r) / 2);
      RepeatSplit(e, r, 6, n - 6);
      AverageSettles(f, r, n - 6);
    }
  }

  lemma {:induction false} HalvingsMonotone(x: nat, y: nat)
    requires x <= y
    ensures Halvings(x) <= Halvings(y)
  {
    if x > 0 {
      HalvingsMonotone(x / 2, y / 2);
    }
  }

  lemma {:induction false} DeviationSettles(e: Estimate, r: int, n: nat)
    requires e.Estimate? && e.dev >= 0 && AvgExcess(e, r) == 0 && n >= 3 * Halvings(DevExcess(e))
    ensures var f := Repeat(e, r, n); f.Estimate? && f.dev >= 0 && AvgExcess(f, r) == 0 && DevExcess(f) == 0
    decreases n
  {
    hide Repeat;
    RepeatBounds(e, r, n);
    if DevExcess(e) > 0 {
      var f := Repeat(e, r, 3);
      DeviationHalves(e, r);
      HalvingsMonotone(DevExcess(f), DevExcess(e) / 2);
      RepeatSplit(e, r, 3, n - 3);
      DeviationSettles(f, r, n - 3);
    }
  }

  /** Logarithmic in the distance of the starting estimate. */
  function SettlingTime(e: Estimate, r: int): nat
    requires e.Estimate? && e.dev >= 0
  {
    6 * Halvings(Abs(e.avg - r)) + 3 * Halvings(Max(e.dev, Abs(e.avg - r)))
  }

  /** After that many samples of a constant round-trip time r, and for ever after, the
      average is within 7 of r, the deviation is at most 10, and avg + 4 dev lies in
      [r - 7, r + 47]. */
  lemma Converges(e: Estimate, r: int, n: nat)
    requires e.Estimate? && e.dev >= 0 && n >= SettlingTime(e, r)
    ensures var f := Repeat(e, r, n);
            f.Estimate? && Abs(f.avg - r) <= 7 && 0 <= f.dev <= 10 && r - 7 <= f.avg + 4 * f.dev <= r + 47
  {
    hide Repeat, Halvings;
    var m := 6 * Halvings(Abs(e.avg - r));
    HalvingsMonotone(AvgExcess(e, r), Abs(e.avg - r));
    AverageSettles(e, r, m);
    RepeatBounds(e, r, m);
    var mid := Repeat(e, r, m);
    HalvingsMonotone(DevExcess(mid), Max(e.dev, Abs(e.avg - r)));
    RepeatSplit(e, r, m, n - m);
    DeviationSettles(mid, r, n - m);
  }

  /** The average stops moving exactly within 7 of the samples. */
  lemma FixedPointIff(e: Estimate, r: int)
    requires e.Estimate?
    ensures Update(e, r).avg == e.avg <==> Abs(e.avg - r) <= 7
  {
  }
}
