/** The moving average the throughput learner keeps, in int64 arithmetic with truncating
    division. */
module Ewma {
  import opened ChunkPlanner

  /** Go's division by a positive constant, truncating toward zero. */
  function Truncated(a: int, b: int): int
    requires b > 0
  {
    if a >= 0 then a / b else -((-a) / b)
  }

  function Alpha(pct: int): int {
    if pct < 1 then 1 else if pct > 100 then 100 else pct
  }

  function Average(previous: int, current: int, alphaPct: int): int {
    if current <= 0 then previous
    else if previous <= 0 then current
    else
      var a := Alpha(alphaPct);
      Truncated(Wrap(Wrap(previous * Wrap(100 - a)) + Wrap(current * a)), 100)
  }

  /** The weighted sum fits in int64. */
  predicate Fits(previous: int, current: int, alphaPct: int) {
    previous * (100 - Alpha(alphaPct)) + current * Alpha(alphaPct) <= MAX64
  }

  /** Wrapping as it goes or only at the end is the same. */
  lemma WrapOfSum(p: int, q: int)
    ensures Wrap(Wrap(p) + Wrap(q)) == Wrap(p + q)
  {
    var i, j := (p - MIN64) / TWO64, (q - MIN64) / TWO64;
    assert Wrap(p) == p - i * TWO64 && Wrap(q) == q - j * TWO64;
    WrapShift(p + q, i + j);
  }

  lemma WrapShift(x: int, k: int)
    ensures Wrap(x - k * TWO64) == Wrap(x)
  {
  }

  lemma WrapBeyond(x: int)
    ensures MIN64 <= x <= MAX64 ==> Wrap(x) == x
    ensures x > MAX64 ==> Wrap(x) <= x - TWO64
  {
  }

  /** A wrapped sum gives a different average. */
  lemma TruncatedSums(x: int)
    requires x >= 0
    ensures Truncated(Wrap(x), 100) == x / 100 <==> x <= MAX64
  {
    WrapBeyond(x);
    if x > MAX64 && Wrap(x) < 0 {
      assert Truncated(Wrap(x), 100) <= 0;
    }
  }

  /** The result is the weighted mean, rounded down, exactly if the weighted sum fits. */
  lemma AverageIsExact(previous: int, current: int, alphaPct: int)
    requires previous > 0 && current > 0
    ensures var a := Alpha(alphaPct);
            Average(previous, current, alphaPct) == (previous * (100 - a) + current * a) / 100
            <==> Fits(previous, current, alphaPct)
  {
    var a := Alpha(alphaPct);
    WrapBeyond(100 - a);
    var p, q := previous * (100 - a), current * a;
    assert p >= 0 && q >= 0;
    WrapOfSum(p, q);
    TruncatedSums(p + q);
  }

  lemma Weighted(lo: int, hi: int, x: int, y: int, a: int)
    requires lo <= x <= hi && lo <= y <= hi && 0 <= a <= 100
    ensures lo * 100 <= x * (100 - a) + y * a <= hi * 100
  {
    assert x * (100 - a) + y * a - lo * 100 == (x - lo) * (100 - a) + (y - lo) * a;
    assert hi * 100 - (x * (100 - a) + y * a) == (hi - x) * (100 - a) + (hi - y) * a;
    assert (x - lo) * (100 - a) >= 0 && (y - lo) * a >= 0 && (hi - x) * (100 - a) >= 0 && (hi - y) * a >= 0;
  }

  /** Samples between lo and hi keep the average between lo and hi. */
  lemma StaysInRange(previous: int, current: int, alphaPct: int, lo: int, hi: int)
    requires 0 < lo && lo <= previous <= hi && lo <= current <= hi && hi * 100 <= MAX64
    ensures lo <= Average(previous, current, alphaPct) <= hi
  {
    var a := Alpha(alphaPct);
    Weighted(lo, hi, previous, current, a);
    AverageIsExact(previous, current, alphaPct);
  }

  /** The learner over a sequence of samples, starting without a value. */
  function Learned(value: int, samples: seq<int>, alphaPct: int): int
    decreases |samples|
  {
    if samples == [] then value else Learned(Average(value, samples[0], alphaPct), samples[1..], alphaPct)
  }

  function Positive(samples: seq<int>): seq<int> {
    if samples == [] then []
    else if samples[0] > 0 then [samples[0]] + Positive(samples[1..])
    else Positive(samples[1..])
  }

  /** Samples that are not positive are ignored, and the first positive one starts the average. */
  lemma {:induction false} OnlyPositiveSamplesCount(value: int, samples: seq<int>, alphaPct: int)
    ensures Learned(value, samples, alphaPct) == Learned(value, Positive(samples), alphaPct)
    ensures Positive(samples) != [] && value <= 0 ==>
              Learned(value, samples, alphaPct) == Learned(Positive(samples)[0], Positive(samples)[1..], alphaPct)
    decreases |samples|
  {
    if samples != [] {
      OnlyPositiveSamplesCount(Average(value, samples[0], alphaPct), samples[1..], alphaPct);
    }
  }

  /** Whatever positive samples arrive, in whatever order, the learned value stays between
      the smallest and the largest of them. */
  lemma {:induction false} LearnedStaysInRange(value: int, samples: seq<int>, alphaPct: int, lo: int, hi: int)
    requires 0 < lo <= hi && hi * 100 <= MAX64 && (value == 0 || lo <= value <= hi)
    requires forall i | 0 <= i < |samples| :: lo <= samples[i] <= hi
    ensures value != 0 || samples != [] ==> lo <= Learned(value, samples, alphaPct) <= hi
    decreases |samples|
  {
    if samples != [] {
      if value != 0 {
        StaysInRange(value, samples[0], alphaPct, lo, hi);
      }
      assert forall i | 0 <= i < |samples[1..]| :: samples[1..][i] == samples[i + 1];
      LearnedStaysInRange(Average(value, samples[0], alphaPct), samples[1..], alphaPct, lo, hi);
    }
  }

  /** One step towards a constant input c, exactly: the distance is cut by alpha percent,
      rounding the value down. */
  lemma StepToward(v: int, c: int, alphaPct: int)
    requires v > 0 && c > 0 && v * 100 <= MAX64 && c * 100 <= MAX64
    ensures var a := Alpha(alphaPct);
            Average(v, c, alphaPct) == v + (a * (c - v)) / 100
  {
    var a := Alpha(alphaPct);
    Weighted(0, if v < c then c else v, v, c, a);
    AverageIsExact(v, c, alphaPct);
    Regroup(v, c, a);
    DivideShifted(v, a * (c - v));
  }

  lemma Regroup(v: int, c: int, a: int)
    ensures v * (100 - a) + c * a == v * 100 + a * (c - v)
  {
  }

  lemma DivideShifted(v: int, d: int)
    ensures (v * 100 + d) / 100 == v + d / 100
  {
  }

  function Steady(v: int, c: int, alphaPct: int, n: nat): int
    decreases n
  {
    if n == 0 then v else Steady(Average(v, c, alphaPct), c, alphaPct, n - 1)
  }

  lemma ScaledBound(a: int, d: int)
    requires 1 <= a <= 100
    ensures d < 0 ==> -100 * -d <= a * d < 0
    ensures d >= 0 ==> 0 <= a * d <= 100 * d
  {
    var e := if d < 0 then -d else d;
    MulMonotone(1, a, e);
    MulMonotone(a, 100, e);
    assert d < 0 ==> a * d == -(a * e);
  }

  /** From above each step strictly descends and does not pass c; from below it strictly
      climbs, without passing c, until alpha * (c - v) < 100, and then stays. */
  lemma OneStep(v: int, c: int, alphaPct: int)
    requires v > 0 && c > 0 && v * 100 <= MAX64 && c * 100 <= MAX64
    ensures v > c ==> c <= Average(v, c, alphaPct) < v
    ensures v <= c ==> v <= Average(v, c, alphaPct) <= c
    ensures v <= c ==> (Average(v, c, alphaPct) == v <==> Alpha(alphaPct) * (c - v) < 100)
  {
    StepToward(v, c, alphaPct);
    ScaledBound(Alpha(alphaPct), c - v);
  }

  /** From above a constant input is reached exactly, within v - c steps. */
  lemma {:induction false} ReachedFromAbove(v: int, c: int, alphaPct: int, n: nat)
    requires c > 0 && v >= c && v * 100 <= MAX64 && n >= v - c
    ensures Steady(v, c, alphaPct, n) == c
    decreases n
  {
    OneStep(v, c, alphaPct);
    if n > 0 {
      ReachedFromAbove(Average(v, c, alphaPct), c, alphaPct, n - 1);
    }
  }

  /** From below the value settles, within c - v steps, at the first point of its climb
      where alpha * (c - value) < 100, and not earlier: the learner may stay short of the
      true rate by just under 100 / alpha. */
  lemma {:induction false} SettlesFromBelow(v: int, c: int, alphaPct: int, n: nat)
    requires 0 < v <= c && c * 100 <= MAX64 && n >= c - v
    ensures var s := Steady(v, c, alphaPct, n);
            v <= s <= c && Alpha(alphaPct) * (c - s) < 100 && Average(s, c, alphaPct) == s
    decreases n
  {
    OneStep(v, c, alphaPct);
    if Average(v, c, alphaPct) == v {
      Settled(v, c, alphaPct, n);
    } else if n > 0 {
      SettlesFromBelow(Average(v, c, alphaPct), c, alphaPct, n - 1);
    }
  }

  lemma {:induction false} Settled(v: int, c: int, alphaPct: int, n: nat)
    requires Average(v, c, alphaPct) == v
    ensures Steady(v, c, alphaPct, n) == v
    decreases n
  {
    if n > 0 {
      Settled(v, c, alphaPct, n - 1);
    }
  }

  /** From below, a rate that is weighted with less than 100 percent is never reached in a
      step: rounding down takes the rest. */
  lemma StaysShort(v: int, c: int, alphaPct: int)
    requires 0 < v < c && c * 100 <= MAX64 && Alpha(alphaPct) < 100
    ensures v <= Average(v, c, alphaPct) < c
  {
    var a, d := Alpha(alphaPct), c - v;
    StepToward(v, c, alphaPct);
    ScaledBound(a, d);
    PartOf(a, d);
  }

  lemma PartOf(a: int, d: int)
    requires 0 < a < 100 && d > 0
    ensures a * d / 100 < d
  {
    MulMonotone(a, 99, d);
    assert a * d < 100 * d;
  }

  lemma {:induction false} NeverReached(v: int, c: int, alphaPct: int, n: nat)
    requires 0 < v < c && c * 100 <= MAX64 && Alpha(alphaPct) < 100
    ensures Steady(v, c, alphaPct, n) < c
    decreases n
  {
    if n > 0 {
      StaysShort(v, c, alphaPct);
      NeverReached(Average(v, c, alphaPct), c, alphaPct, n - 1);
    }
  }

  lemma ReachedAtOnce(v: int, c: int, alphaPct: int)
    requires v > 0 && c > 0 && v * 100 <= MAX64 && c * 100 <= MAX64 && Alpha(alphaPct) == 100
    ensures Steady(v, c, alphaPct, 1) == c
  {
    StepToward(v, c, alphaPct);
    assert Steady(c, c, alphaPct, 0) == c;
  }

  /** A constant rate is reached exactly from above, or if only the newest sample counts;
      from below the learner stays short of it for ever. */
  lemma ReachedIff(v: int, c: int, alphaPct: int)
    requires v > 0 && c > 0 && v * 100 <= MAX64 && c * 100 <= MAX64
    ensures (exists n: nat :: Steady(v, c, alphaPct, n) == c) <==> v >= c || Alpha(alphaPct) == 100
  {
    if v >= c {
      var n: nat := v - c;
      ReachedFromAbove(v, c, alphaPct, n);
    } else if Alpha(alphaPct) == 100 {
      ReachedAtOnce(v, c, alphaPct);
    } else {
      forall n: nat ensures Steady(v, c, alphaPct, n) != c {
        NeverReached(v, c, alphaPct, n);
      }
    }
  }

  /** At 25 percent a learner at 97 never moves towards a rate of 100. */
  lemma ShortOfHundred(n: nat)
    ensures Steady(97, 100, 25, n) == 97
  {
    StepToward(97, 100, 25);
    Settled(97, 100, 25, n);
  }

  /** The range is not kept when the products overflow: two large equal samples average to
      a negative rate. */
  lemma LargeRatesOverflow()
    ensures var v := 0x200_0000_0000_0000; Int64(v) && Average(v, v, 25) < 0
  {
    var v := 0x200_0000_0000_0000;
    WrapMeaning(75);
    WrapOfSum(v * 75, v * 25);
    WrapMeaning(v * 100);
    assert Wrap(Wrap(v * 75) + Wrap(v * 25)) == v * 100 - TWO64;
  }

  /** What the percentage means: the weight of the new sample, with values below 1 and above
      100 read as 1 and 100. Below the limit of int64 the average of positive samples is the
      weighted mean, rounded down. */
  lemma PercentMeaning(previous: int, current: int, pct: int, weight: int)
    requires previous > 0 && current > 0
    requires (pct < 1 ==> weight == 1) && (1 <= pct <= 100 ==> weight == pct) && (pct > 100 ==> weight == 100)
    requires previous * (100 - weight) + current * weight <= 9223372036854775807
    ensures Average(previous, current, pct) == (previous * (100 - weight) + current * weight) / 100
  {
    AverageIsExact(previous, current, pct);
  }
}
