/** The threshold search of the auto-tuner, over the reals. */
module Autotuner {
  import opened Utf8
  import opened Wilson

  datatype Sample = Sample(score: real, positive: bool)

  datatype Recommendation = Recommendation(
    current: real, proposed: real, labeled: nat,
    fpBefore: nat, fnBefore: nat, fpAfter: nat, fnAfter: nat,
    fpRateBefore: real, fpRateAfter: real, fpInterval: (real, real),
    fnRateAfter: real, fnInterval: (real, real))

  const FN_CEILING := 0.005

  // ---- counts and rates ----

  predicate Fired(s: Sample, t: real) {
    s.score >= t
  }

  /** How many samples of a label fire, or do not fire, at a threshold. */
  function Count(samples: seq<Sample>, t: real, positive: bool, fired: bool): nat {
    if samples == [] then 0
    else
      var s := samples[|samples| - 1];
      Count(samples[..|samples| - 1], t, positive, fired)
        + if s.positive == positive && Fired(s, t) == fired then 1 else 0
  }

  function Ratio(part: nat, rest: nat): real {
    if part + rest > 0 then part as real / (part + rest) as real else 0.0
  }

  function Fp(samples: seq<Sample>, t: real): nat { Count(samples, t, false, true) }
  function Tn(samples: seq<Sample>, t: real): nat { Count(samples, t, false, false) }
  function Fn(samples: seq<Sample>, t: real): nat { Count(samples, t, true, false) }
  function Tp(samples: seq<Sample>, t: real): nat { Count(samples, t, true, true) }
  function FpRate(samples: seq<Sample>, t: real): real { Ratio(Fp(samples, t), Tn(samples, t)) }
  function FnRate(samples: seq<Sample>, t: real): real { Ratio(Fn(samples, t), Tp(samples, t)) }

  /** The indices of the samples of a label that score at least t, or less. */
  ghost function Places(samples: seq<Sample>, t: real, positive: bool, fired: bool): set<nat> {
    set i: nat | i < |samples| && samples[i].positive == positive && (samples[i].score >= t) == fired
  }

  /** The counts are numbers of samples. */
  lemma {:induction false} CountsSamples(samples: seq<Sample>, t: real, positive: bool, fired: bool)
    ensures Count(samples, t, positive, fired) == |Places(samples, t, positive, fired)|
  {
    if samples != [] {
      var n := |samples| - 1;
      var front, s := samples[..n], samples[n];
      CountsSamples(front, t, positive, fired);
      var places := Places(front, t, positive, fired);
      assert n !in places;
      assert Places(samples, t, positive, fired) ==
        if s.positive == positive && (s.score >= t) == fired then places + {n} else places;
    }
  }

  /** The rates are the share of the negatives that fire and of the positives that do not. */
  lemma RatesAreShares(samples: seq<Sample>, t: real)
    ensures Fp(samples, t) + Tn(samples, t) > 0 ==>
      FpRate(samples, t) * (Fp(samples, t) + Tn(samples, t)) as real == Fp(samples, t) as real
    ensures Fn(samples, t) + Tp(samples, t) > 0 ==>
      FnRate(samples, t) * (Fn(samples, t) + Tp(samples, t)) as real == Fn(samples, t) as real
    ensures Fp(samples, t) + Tn(samples, t) == 0 ==> FpRate(samples, t) == 0.0
    ensures Fn(samples, t) + Tp(samples, t) == 0 ==> FnRate(samples, t) == 0.0
  {
  }

  method Rates(samples: seq<Sample>, t: real) returns (tp: nat, fn: nat, fp: nat, tn: nat)
    ensures tp == Tp(samples, t) && fn == Fn(samples, t) && fp == Fp(samples, t) && tn == Tn(samples, t)
  {
    tp, fn, fp, tn := 0, 0, 0, 0;
    for i := 0 to |samples|
      invariant tp == Tp(samples[..i], t) && fn == Fn(samples[..i], t)
      invariant fp == Fp(samples[..i], t) && tn == Tn(samples[..i], t)
    {
      assert samples[..i + 1][..i] == samples[..i];
      if samples[i].positive {
        if samples[i].score >= t { tp := tp + 1; } else { fn := fn + 1; }
      } else {
        if samples[i].score >= t { fp := fp + 1; } else { tn := tn + 1; }
      }
    }
    assert samples[..|samples|] == samples;
  }

  // ---- the grid ----

  function Lo(current: real): real { Max(0.05, current - 0.20) }
  function Hi(current: real): real { Min(0.99, current + 0.15) }

  function Step(current: real): real {
    if Hi(current) > Lo(current) then (Hi(current) - Lo(current)) / 40.0 else 0.01
  }

  function Point(current: real, i: nat): real {
    Lo(current) + i as real * Step(current)
  }

  /** The points visited: 41, one when the range is a point, none when it is empty. */
  function Points(current: real): nat {
    if Hi(current) > Lo(current) then 41 else if Hi(current) == Lo(current) then 1 else 0
  }

  lemma PointsInRange(current: real, i: nat)
    requires i <= 41
    ensures Point(current, i) <= Hi(current) <==> i < Points(current)
    ensures Point(current, i + 1) == Point(current, i) + Step(current)
  {
    var step := Step(current);
    assert step > 0.0;
    NextMultiple(i, step);
    FirstMultiples(i, step);
    MultiplesOrder(i, step);
    var x, lo, hi := i as real * step, Lo(current), Hi(current);
    assert Point(current, i) == lo + x;
    if hi > lo {
      var range := 40.0 * step;
      assert range == hi - lo;
      assert lo + x <= hi <==> x <= range;
    }
  }

  /** The grid runs in 40 equal steps from 0.20 below the threshold to 0.15 above it, within 0.05 and 0.99. */
  lemma GridEnds(current: real)
    requires 0.05 <= current <= 0.99
    ensures Points(current) == 41
    ensures Point(current, 0) == if current >= 0.25 then current - 0.20 else 0.05
    ensures Point(current, 40) == if current <= 0.84 then current + 0.15 else 0.99
  {
    var range := Hi(current) - Lo(current);
    assert 40.0 * (range / 40.0) == range;
  }

  lemma NextMultiple(i: nat, step: real)
    ensures (i + 1) as real * step == i as real * step + step
  {
    assert (i + 1) as real == i as real + 1.0;
  }

  lemma FirstMultiples(i: nat, step: real)
    requires step > 0.0
    ensures i == 0 ==> i as real * step == 0.0
    ensures i > 0 ==> i as real * step > 0.0
  {
    if i > 0 {
      NextMultiple(i - 1, step);
      ProductNonNegative((i - 1) as real, step);
    }
  }

  lemma MultiplesOrder(i: nat, step: real)
    requires i <= 41 && step > 0.0
    ensures i as real * step <= 40.0 * step <==> i <= 40
  {
    var rest := (40 - i) as real;
    assert i as real == 40.0 - rest;
    assert (40.0 - rest) * step == 40.0 * step - rest * step;
    if i <= 40 {
      ProductNonNegative(rest, step);
    } else {
      assert rest == -1.0;
    }
  }

  /** round(t, 3), halves up. */
  function Round3(t: real): real {
    (t * 1000.0 + 0.5).Floor as real / 1000.0
  }

  /** To the nearest thousandth. */
  lemma RoundingIsSmall(t: real)
    ensures -0.0005 <= Round3(t) - t <= 0.0005
    ensures exists n: int :: Round3(t) == Thousandths(n)
  {
    assert Round3(t) == Thousandths((t * 1000.0 + 0.5).Floor);
  }

  function Thousandths(n: int): real {
    n as real / 1000.0
  }

  // ---- what the search looks for ----

  /** Enough samples, and enough of each label. */
  predicate Enough(samples: seq<Sample>, current: real) {
    && |samples| >= 20
    && Tp(samples, current) + Fn(samples, current) >= 10
    && Fp(samples, current) + Tn(samples, current) >= 10
  }

  /** A better false-positive rate, by the upper end of its interval too, within the ceiling on false
      negatives. */
  predicate Passes(samples: seq<Sample>, current: real, t: real, sqrt: real -> real) {
    && FpRate(samples, t) < FpRate(samples, current)
    && FnRate(samples, t) <= FN_CEILING
    && Interval(Fp(samples, t), Fp(samples, t) + Tn(samples, t), sqrt).1 < FpRate(samples, current)
  }

  /** Of the first n grid points, i is the first with the least false-positive rate among those that pass. */
  ghost predicate BestOf(samples: seq<Sample>, current: real, n: nat, i: nat, sqrt: real -> real) {
    && i < n && Passes(samples, current, Point(current, i), sqrt)
    && forall j {:trigger Point(current, j)} :: 0 <= j < n && Passes(samples, current, Point(current, j), sqrt) ==>
      && FpRate(samples, Point(current, i)) <= FpRate(samples, Point(current, j))
      && (j < i ==> FpRate(samples, Point(current, i)) < FpRate(samples, Point(current, j)))
  }

  ghost predicate NonePasses(samples: seq<Sample>, current: real, n: nat, sqrt: real -> real) {
    forall j {:trigger Point(current, j)} :: 0 <= j < n ==> !Passes(samples, current, Point(current, j), sqrt)
  }

  /** What the search knows after n points: nothing found, or the best so far. */
  ghost predicate FoundSoFar(samples: seq<Sample>, current: real, n: nat, found: bool, i: nat, sqrt: real -> real) {
    if found then BestOf(samples, current, n, i, sqrt) else NonePasses(samples, current, n, sqrt)
  }

  lemma PointRejected(samples: seq<Sample>, current: real, n: nat, found: bool, i: nat, sqrt: real -> real)
    requires FoundSoFar(samples, current, n, found, i, sqrt)
    requires !Passes(samples, current, Point(current, n), sqrt)
      || (found && FpRate(samples, Point(current, i)) <= FpRate(samples, Point(current, n)))
    ensures FoundSoFar(samples, current, n + 1, found, i, sqrt)
  {
  }

  lemma PointTaken(samples: seq<Sample>, current: real, n: nat, found: bool, i: nat, sqrt: real -> real)
    requires FoundSoFar(samples, current, n, found, i, sqrt)
    requires Passes(samples, current, Point(current, n), sqrt)
    requires found ==> FpRate(samples, Point(current, n)) < FpRate(samples, Point(current, i))
    ensures FoundSoFar(samples, current, n + 1, true, n, sqrt)
  {
  }

  function Recommended(samples: seq<Sample>, current: real, t: real, sqrt: real -> real): Recommendation {
    Recommendation(current, Round3(t), |samples|,
      Fp(samples, current), Fn(samples, current), Fp(samples, t), Fn(samples, t),
      FpRate(samples, current), FpRate(samples, t), Interval(Fp(samples, t), Fp(samples, t) + Tn(samples, t), sqrt),
      FnRate(samples, t), Interval(Fn(samples, t), Fn(samples, t) + Tp(samples, t), sqrt))
  }

  function Distance(x: real, y: real): real {
    if x >= y then x - y else y - x
  }

  /** No point passes, or the best one, i, is rounded to within 0.005 of the current threshold. */
  ghost predicate NothingToPropose(samples: seq<Sample>, current: real, i: nat, sqrt: real -> real) {
    || NonePasses(samples, current, Points(current), sqrt)
    || (BestOf(samples, current, Points(current), i, sqrt) && Distance(Round3(Point(current, i)), current) < 0.005)
  }

  /** One grid point: what would be recommended when it passes. */
  method Evaluate(samples: seq<Sample>, current: real, t: real, fp0: nat, fn0: nat, before: real, sqrt: real -> real)
    returns (r: Option<Recommendation>)
    requires fp0 == Fp(samples, current) && fn0 == Fn(samples, current) && before == FpRate(samples, current)
    ensures r == if Passes(samples, current, t, sqrt) then Some(Recommended(samples, current, t, sqrt)) else None
  {
    var tp, fn, fp, tn := Rates(samples, t);
    var fpRate, fnRate := Ratio(fp, tn), Ratio(fn, tp);
    var fpCi, fnCi := Interval(fp, fp + tn, sqrt), Interval(fn, fn + tp, sqrt);
    if fpRate < before && fnRate <= FN_CEILING && fpCi.1 < before {
      return Some(Recommendation(current, Round3(t), |samples|, fp0, fn0, fp, fn, before, fpRate, fpCi, fnRate, fnCi));
    }
    return None;
  }

  /** _search_threshold; i is the grid point behind a recommendation. */
  method SearchThreshold(samples: seq<Sample>, current: real, sqrt: real -> real)
    returns (r: Option<Recommendation>, ghost i: nat)
    ensures r.Some? ==> Enough(samples, current) && BestOf(samples, current, Points(current), i, sqrt)
    ensures r.Some? ==> r.value == Recommended(samples, current, Point(current, i), sqrt)
    ensures r.Some? ==> r.value.proposed >= current + 0.005 && |samples| == r.value.labeled >= 20
    ensures r.Some? ==> r.value.fnRateAfter <= 0.005 && r.value.fpRateAfter < r.value.fpRateBefore
    ensures r.Some? ==> r.value.fpInterval.1 < r.value.fpRateBefore && r.value.current == current
    ensures r.Some? ==> r.value.fpBefore == Fp(samples, current) && r.value.fnBefore == Fn(samples, current)
    ensures r.Some? ==> var t := Point(current, i);
      r.value.fpAfter == Fp(samples, t) && r.value.fnAfter == Fn(samples, t) && r.value.proposed == Round3(t)
    ensures r.None? ==> !Enough(samples, current) || NothingToPropose(samples, current, i, sqrt)
    ensures Enough(samples, current) <==>
      (|samples| >= 20
        && Tp(samples, current) + Fn(samples, current) >= 10 && Fp(samples, current) + Tn(samples, current) >= 10)
    ensures r.None? && Enough(samples, current) && !NonePasses(samples, current, Points(current), sqrt) ==>
      -0.005 < Round3(Point(current, i)) - current < 0.005
  {
    i := 0;
    if |samples| < 20 {
      return None, i;
    }
    var tp0, fn0, fp0, tn0 := Rates(samples, current);
    if tp0 + fn0 < 10 || fp0 + tn0 < 10 {
      return None, i;
    }
    var before := Ratio(fp0, tn0);
    var hi, step := Hi(current), Step(current);
    var best: Option<Recommendation> := None;
    var t := Lo(current);
    ghost var n: nat := 0;
    PointsInRange(current, 0);
    while t <= hi
      invariant n <= 41 && t == Point(current, n) && (t <= hi <==> n < Points(current))
      invariant n <= Points(current)
      invariant FoundSoFar(samples, current, n, best.Some?, i, sqrt)
      invariant best.Some? ==> best.value == Recommended(samples, current, Point(current, i), sqrt)
      decreases 41 - n
    {
      var candidate := Evaluate(samples, current, t, fp0, fn0, before, sqrt);
      if candidate.Some? && (best.None? || candidate.value.fpRateAfter < best.value.fpRateAfter) {
        PointTaken(samples, current, n, best.Some?, i, sqrt);
        best := candidate;
        i := n;
      } else {
        PointRejected(samples, current, n, best.Some?, i, sqrt);
      }
      PointsInRange(current, n);
      PointsInRange(current, n + 1);
      t := t + step;
      n := n + 1;
    }
    if best.Some? && Distance(best.value.proposed, current) < 0.005 {
      return None, i;
    }
    if best.Some? {
      RecommendationRaises(samples, current, Point(current, i));
    }
    return best, i;
  }

  // ---- what a recommendation means ----

  /** How many samples of a label score in [t, u). */
  function Between(samples: seq<Sample>, t: real, u: real, positive: bool): nat {
    if samples == [] then 0
    else
      var s := samples[|samples| - 1];
      Between(samples[..|samples| - 1], t, u, positive) + if s.positive == positive && t <= s.score < u then 1 else 0
  }

  /** Raising the threshold from t to u moves exactly the samples between from fired to not fired. */
  lemma {:induction false} RaisingMoves(samples: seq<Sample>, t: real, u: real, positive: bool)
    requires t <= u
    ensures Count(samples, u, positive, false) == Count(samples, t, positive, false) + Between(samples, t, u, positive)
    ensures Count(samples, t, positive, true) == Count(samples, u, positive, true) + Between(samples, t, u, positive)
  {
    if samples != [] {
      RaisingMoves(samples[..|samples| - 1], t, u, positive);
    }
  }

  lemma RatioOrders(part: nat, rest: nat, part': nat, rest': nat)
    requires part + rest == part' + rest' && part <= part'
    ensures Ratio(part, rest) <= Ratio(part', rest')
    ensures part + rest > 0 && part < part' ==> Ratio(part, rest) < Ratio(part', rest')
  {
    if part + rest > 0 {
      QuotientsOfCounts(part, part', part + rest);
    }
  }

  lemma QuotientsOfCounts(a: nat, b: nat, n: nat)
    requires a <= b && n > 0
    ensures a as real / n as real <= b as real / n as real
    ensures a < b ==> a as real / n as real < b as real / n as real
  {
  }

  /** As the threshold rises the false-positive rate does not rise and the false-negative rate does not
      fall; the number of samples of a label stays. */
  lemma RatesAreMonotone(samples: seq<Sample>, t: real, u: real)
    requires t <= u
    ensures FpRate(samples, u) <= FpRate(samples, t) && FnRate(samples, t) <= FnRate(samples, u)
    ensures Fp(samples, u) <= Fp(samples, t) && Fn(samples, t) <= Fn(samples, u)
  {
    RaisingMoves(samples, t, u, false);
    RaisingMoves(samples, t, u, true);
    RatioOrders(Fp(samples, u), Tn(samples, u), Fp(samples, t), Tn(samples, t));
    RatioOrders(Fn(samples, t), Tp(samples, t), Fn(samples, u), Tp(samples, u));
  }

  /** A recommendation only ever raises the threshold, and so never lowers the false negatives. */
  lemma RecommendationRaises(samples: seq<Sample>, current: real, t: real)
    requires FpRate(samples, t) < FpRate(samples, current)
    ensures t > current && Fp(samples, t) < Fp(samples, current) && Fn(samples, t) >= Fn(samples, current)
    ensures Distance(Round3(t), current) >= 0.005 ==> Round3(t) > current
  {
    if t <= current {
      RatesAreMonotone(samples, t, current);
      assert false;
    }
    RatesAreMonotone(samples, current, t);
    RaisingMoves(samples, current, t, false);
    RoundingIsSmall(t);
  }

  /** The test on the interval implies the test on the rate: an upper end below a rate means that the
      estimate is. */
  lemma IntervalTestSuffices(fp: nat, tn: nat, before: real, sqrt: real -> real)
    requires IsSqrt(sqrt) && fp + tn > 0
    ensures Interval(fp, fp + tn, sqrt).1 < before ==> Ratio(fp, tn) < before
  {
    IntervalIsScore(fp, fp + tn, sqrt);
  }

  /** The threshold put forward is the rounded one, but the counts are those of the grid point: they are
      the same exactly when no sample of the label scores between the two. */
  lemma RoundedCounts(samples: seq<Sample>, t: real, positive: bool)
    ensures Count(samples, Round3(t), positive, false) == Count(samples, t, positive, false)
      <==> Between(samples, Min(t, Round3(t)), Max(t, Round3(t)), positive) == 0
    ensures Round3(t) >= t ==> Fn(samples, Round3(t)) == Fn(samples, t) + Between(samples, t, Round3(t), true)
  {
    RaisingMoves(samples, Min(t, Round3(t)), Max(t, Round3(t)), positive);
    RaisingMoves(samples, Min(t, Round3(t)), Max(t, Round3(t)), true);
  }

  // ---- a recommendation over the ceiling ----

  function Repeat(s: Sample, n: nat): seq<Sample> {
    if n == 0 then [] else Repeat(s, n - 1) + [s]
  }

  lemma {:induction false} CountRepeat(s: Sample, n: nat, t: real, positive: bool, fired: bool)
    ensures Count(Repeat(s, n), t, positive, fired) == if s.positive == positive && Fired(s, t) == fired then n else 0
    ensures |Repeat(s, n)| == n
  {
    if n > 0 {
      CountRepeat(s, n - 1, t, positive, fired);
      assert Repeat(s, n)[..n - 1] == Repeat(s, n - 1);
    }
  }

  lemma {:induction false} CountConcat(a: seq<Sample>, b: seq<Sample>, t: real, positive: bool, fired: bool)
    ensures Count(a + b, t, positive, fired) == Count(a, t, positive, fired) + Count(b, t, positive, fired)
  {
    if b == [] {
      assert a + b == a;
    } else {
      var u := b[..|b| - 1];
      assert (a + b)[..|a + b| - 1] == a + u;
      CountConcat(a, u, t, positive, fired);
    }
  }

  /** Ten negatives at 0.515, a positive at 0.5188 and nine far above. */
  function Example(): seq<Sample> {
    Repeat(Sample(0.515, false), 10) + (Repeat(Sample(0.5188, true), 1) + Repeat(Sample(0.9, true), 9))
  }

  lemma ExampleCounts(t: real)
    requires t <= 0.9
    ensures Fp(Example(), t) == (if 0.515 >= t then 10 else 0) && Tn(Example(), t) == (if 0.515 >= t then 0 else 10)
    ensures Fn(Example(), t) == (if 0.5188 >= t then 0 else 1) && Tp(Example(), t) == (if 0.5188 >= t then 10 else 9)
    ensures |Example()| == 20
  {
    ExampleCount(t, false, true);
    ExampleCount(t, false, false);
    ExampleCount(t, true, true);
    ExampleCount(t, true, false);
  }

  lemma ExampleCount(t: real, positive: bool, fired: bool)
    ensures |Example()| == 20
    ensures Count(Example(), t, positive, fired) ==
      (if !positive && (0.515 >= t) == fired then 10 else 0) + (if positive && (0.5188 >= t) == fired then 1 else 0)
      + (if positive && (0.9 >= t) == fired then 9 else 0)
  {
    var a, b, c := Repeat(Sample(0.515, false), 10), Repeat(Sample(0.5188, true), 1), Repeat(Sample(0.9, true), 9);
    CountRepeat(Sample(0.515, false), 10, t, positive, fired);
    CountRepeat(Sample(0.5188, true), 1, t, positive, fired);
    CountRepeat(Sample(0.9, true), 9, t, positive, fired);
    CountConcat(b, c, t, positive, fired);
    CountConcat(a, b + c, t, positive, fired);
  }

  lemma UpperEndBelowOne(n: nat, sqrt: real -> real)
    requires n > 0 && IsSqrt(sqrt)
    ensures Interval(0, n, sqrt).1 < 1.0
  {
    IntervalIsScore(0, n, sqrt);
    SolvesMeans(Interval(0, n, sqrt).1, Rate(0, n), Denom(n) - 1.0);
    NotOne(Interval(0, n, sqrt).1, Denom(n) - 1.0);
  }

  lemma NotOne(w: real, a: real)
    requires w <= 1.0
    ensures (w - 0.0) * (w - 0.0) == a * w * (1.0 - w) ==> w < 1.0
  {
  }

  /** From the threshold 0.5 these samples give grid point 25, which is 0.51875 with no false negative.
      Put forward is 0.519, at which one positive in ten is missed: above the ceiling of 0.005. */
  lemma RoundingCanBreakTheCeiling(sqrt: real -> real)
    requires IsSqrt(sqrt)
    ensures Enough(Example(), 0.5) && BestOf(Example(), 0.5, Points(0.5), 25, sqrt)
    ensures Round3(Point(0.5, 25)) == 0.519 && FnRate(Example(), Point(0.5, 25)) == 0.0
    ensures FnRate(Example(), 0.519) > FN_CEILING
  {
    ExamplePoints(25);
    ExampleBest(sqrt);
    ExampleIsEnough();
    ExampleMisses();
    assert (0.51875 * 1000.0 + 0.5).Floor == 519;
  }

  lemma ExampleIsEnough()
    ensures Enough(Example(), 0.5)
  {
    ExampleCounts(0.5);
  }

  lemma ExampleMisses()
    ensures FnRate(Example(), 0.519) > FN_CEILING
  {
    ExampleCounts(0.519);
  }

  lemma ExamplePoints(j: nat)
    ensures Points(0.5) == 41 && Point(0.5, j) == 0.3 + j as real * 0.00875
    ensures j < 25 ==> Point(0.5, j) <= 0.51
    ensures Point(0.5, 25) == 0.51875
  {
    assert Lo(0.5) == 0.3 && Hi(0.5) == 0.65 && Step(0.5) == 0.00875;
  }

  lemma ExampleBest(sqrt: real -> real)
    requires IsSqrt(sqrt)
    ensures BestOf(Example(), 0.5, 41, 25, sqrt) && FnRate(Example(), Point(0.5, 25)) == 0.0
  {
    ExamplePasses(sqrt);
    forall j {:trigger Point(0.5, j)} | 0 <= j < 25 ensures !Passes(Example(), 0.5, Point(0.5, j), sqrt) {
      EarlyPointFails(j, sqrt);
    }
    forall j {:trigger Point(0.5, j)} | 0 <= j < 41 ensures FpRate(Example(), Point(0.5, j)) >= 0.0 {
      RatioNonNegative(Fp(Example(), Point(0.5, j)), Tn(Example(), Point(0.5, j)));
    }
  }

  lemma RatioNonNegative(part: nat, rest: nat)
    ensures Ratio(part, rest) >= 0.0
  {
  }

  lemma ExamplePasses(sqrt: real -> real)
    requires IsSqrt(sqrt)
    ensures Passes(Example(), 0.5, Point(0.5, 25), sqrt)
    ensures FpRate(Example(), Point(0.5, 25)) == 0.0 && FnRate(Example(), Point(0.5, 25)) == 0.0
  {
    ExamplePoints(25);
    ExampleCounts(0.5);
    ExampleCounts(0.51875);
    UpperEndBelowOne(10, sqrt);
  }

  lemma EarlyPointFails(j: nat, sqrt: real -> real)
    requires j < 25
    ensures !Passes(Example(), 0.5, Point(0.5, j), sqrt)
  {
    ExamplePoints(j);
    ExampleCounts(Point(0.5, j));
    ExampleCounts(0.5);
  }
}
