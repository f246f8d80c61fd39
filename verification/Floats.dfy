/**
 The duration estimate in double precision, as the source computes it
 (crates/rpytest-daemon/src/scheduler.rs).

 A double is a 53-bit integer times a power of two; its exponent is not bounded here. An operation on
 doubles gives the exact result when that is a double, and a nearest double otherwise.
 */
module Floats {
  import opened Arithmetic
  import opened Estimates

  const TWO_43: nat := 0x800_0000_0000
  const TWO_53: nat := 0x20_0000_0000_0000

  /** `n` is a 53-bit integer `m` shifted by `s` places. */
  predicate HasBits(n: nat, m: nat, s: nat) {
    m < TWO_53 && n == m * Pow2(s)
  }

  ghost predicate IsFloat(x: Dyadic) {
    exists m: nat, s: nat :: HasBits(x.numerator, m, s)
  }

  lemma SmallIsFloat(x: Dyadic)
    requires x.numerator < TWO_53
    ensures IsFloat(x)
  {
    assert HasBits(x.numerator, x.numerator, 0);
  }

  function Gap(x: nat, y: nat): nat {
    if x <= y then y - x else x - y
  }

  /** `f` is at least as close to `n` / `d` as `g` is. */
  predicate AsClose(f: Dyadic, g: Dyadic, n: nat, d: nat) {
    Gap(f.numerator * d, n * Pow2(f.exponent)) * Pow2(g.exponent)
    <= Gap(g.numerator * d, n * Pow2(g.exponent)) * Pow2(f.exponent)
  }

  /** `f` is a double nearest to `n` / `d`. */
  ghost predicate IsNearest(f: Dyadic, n: nat, d: nat) {
    IsFloat(f) && forall g :: IsFloat(g) ==> AsClose(f, g, n, d)
  }

  function Truncated(f: Dyadic): nat {
    Pow2Positive(f.exponent);
    Quotient(f.numerator, Pow2(f.exponent))
  }

  // ----- Rounding a quotient does not carry it past an integer

  lemma Reorder(x: nat, y: nat, z: nat)
    ensures (x * y) * z == (x * z) * y
  {
  }

  lemma Difference(x: nat, y: nat, k: nat)
    requires x <= y
    ensures (y - x) * k == y * k - x * k
  {
  }

  /** An integer `a` not above n / d is closer to it than anything below `a`. */
  lemma NotBelow(f: nat, p: nat, a: nat, n: nat, d: nat)
    requires p > 0 && d > 0 && a * d <= n && f < a * p
    ensures Gap(f * d, n * p) > Gap(a * d, n) * p
  {
    StrictlyMonotone(f, a * p, d);
    Reorder(a, p, d);
    Monotone(a * d, n, p);
    Difference(a * d, n, p);
  }

  /** Nothing at or above the next integer is as close to n / d as a number `h` / 1024 just below it. */
  lemma NotAbove(f: nat, p: nat, a: nat, n: nat, d: nat, s: nat, h: nat)
    requires p > 0 && s > 0 && d <= 1023 * s && n + s <= (a + 1) * d && (a + 1) * p <= f
    requires h * d <= n * 1024 < h * d + d
    ensures Gap(f * d, n * p) * 1024 > Gap(h * d, n * 1024) * p
  {
    var far := Gap(f * d, n * p);
    Monotone((a + 1) * p, f, d);
    Reorder(a + 1, p, d);
    Monotone(n + s, (a + 1) * d, p);
    Distribute(n, s, p);
    assert far >= s * p;
    StrictlyMonotone(Gap(h * d, n * 1024), d, p);
    Monotone(d, 1023 * s, p);
    Regroup(1023, s, p);
    PositiveProduct(s, p);
  }

  /** n / d with a denominator of at most 1023 units is at least one unit short of the next integer. */
  lemma NextInteger(w: nat, t: nat, s: nat, a: nat)
    requires t > 0 && s > 0 && a == Quotient(w, t)
    ensures a * (t * s) <= w * s && w * s + s <= (a + 1) * (t * s)
  {
    Division(w, t);
    NextMultiple(a, t);
    Monotone(a * t, w, s);
    Monotone(w + 1, (a + 1) * t, s);
    NextMultiple(w, s);
    Regroup(a, t, s);
    Regroup(a + 1, t, s);
  }

  lemma NearestNotBelow(f: Dyadic, n: nat, d: nat, a: nat)
    requires d > 0 && a * d <= n && a < TWO_53 && IsNearest(f, n, d)
    ensures a * Pow2(f.exponent) <= f.numerator
  {
    var p, g := Pow2(f.exponent), Dyadic(a, 0);
    Pow2Positive(f.exponent);
    SmallIsFloat(g);
    assert AsClose(f, g, n, d);
    if f.numerator < a * p {
      NotBelow(f.numerator, p, a, n, d);
    }
  }

  lemma NearestNotAbove(f: Dyadic, n: nat, d: nat, s: nat, a: nat)
    requires 0 < d <= 1023 * s && a < TWO_43 && n + s <= (a + 1) * d && IsNearest(f, n, d)
    ensures f.numerator < (a + 1) * Pow2(f.exponent)
  {
    var p, h := Pow2(f.exponent), Quotient(n * 1024, d);
    var g := Dyadic(h, 10);
    Pow2Positive(f.exponent);
    Division(n * 1024, d);
    TenBits(n, d, a, h);
    SmallIsFloat(g);
    PowTen();
    assert AsClose(f, g, n, d);
    if f.numerator >= (a + 1) * p {
      NotAbove(f.numerator, p, a, n, d, s, h);
    }
  }

  /** The double nearest to a quotient below 2^43 with a denominator below 1024 truncates to its floor. */
  lemma NearestTruncates(f: Dyadic, w: nat, t: nat, s: nat)
    requires 0 < t < 1024 && s > 0 && Quotient(w, t) < TWO_43 && IsNearest(f, w * s, t * s)
    ensures Truncated(f) == Quotient(w, t)
  {
    var a := Quotient(w, t);
    Pow2Positive(f.exponent);
    PositiveProduct(t, s);
    NextInteger(w, t, s, a);
    Monotone(t, 1023, s);
    NearestNotBelow(f, w * s, t * s, a);
    NearestNotAbove(f, w * s, t * s, s, a);
    FloorIs(f.numerator, Pow2(f.exponent), a);
  }

  lemma PowTen()
    ensures Pow2(10) == 1024 && Pow2(9) == 512
  {
    assert Pow2(3) == 8;
    assert Pow2(6) == 64;
    assert Pow2(9) == 512;
  }

  lemma TenBits(n: nat, d: nat, a: nat, h: nat)
    requires d > 0 && n <= (a + 1) * d - 1 && a < TWO_43 && h * d <= n * 1024
    ensures h < TWO_53
  {
    if h >= TWO_53 {
      Monotone(TWO_53, h, d);
      Monotone(a + 1, TWO_43, d);
    }
  }

  lemma FloorIs(f: nat, p: nat, a: nat)
    requires p > 0 && a * p <= f < (a + 1) * p
    ensures Quotient(f, p) == a
  {
    NextMultiple(a, p);
    DivisionUnique(f, p, a, f - a * p);
  }

  // ----- The sums are exact

  /** At most ten durations, each below 2^43 ms. */
  predicate FitsFloats(ds: seq<nat>) {
    |ds| <= 10 && forall i :: 0 <= i < |ds| ==> ds[i] < TWO_43
  }

  lemma {:induction false} Pow2Grows(i: nat, j: nat)
    requires i <= j
    ensures Pow2(i) <= Pow2(j)
  {
    if i < j {
      Pow2Grows(i, j - 1);
    }
  }

  /** 2^n - 1. */
  function Ones(n: nat): nat {
    Pow2Positive(n);
    Pow2(n) - 1
  }

  lemma PartialSums(ds: seq<nat>, i: nat)
    requires FitsFloats(ds) && i <= |ds|
    ensures Weighted(ds[..i]) < TWO_53 && 0 < Pow2(i) <= 1024
    ensures i > 0 ==> Quotient(Weighted(ds[..i]), Ones(i)) < TWO_43 && 0 < Ones(i) < 1024
  {
    Pow2Positive(i);
    Pow2Grows(i, 10);
    PowTen();
    WeightedBounds(ds[..i], 0, TWO_43 - 1);
    Monotone(Ones(i), 1023, TWO_43 - 1);
    if i > 0 {
      QuotientBetween(Weighted(ds[..i]), Ones(i), 0, TWO_43 - 1);
    }
  }

  ghost predicate RoundsRight(round: Dyadic -> Dyadic) {
    forall x :: IsFloat(x) ==> round(x) == x
  }

  function Cross(x: Dyadic, y: Dyadic): nat {
    x.numerator * Pow2(y.exponent)
  }

  /** `f` is a double nearest to `x` / `y`. */
  ghost predicate IsQuotient(f: Dyadic, x: Dyadic, y: Dyadic) {
    IsNearest(f, Cross(x, y), Cross(y, x))
  }

  ghost predicate DividesRight(divide: (Dyadic, Dyadic) -> Dyadic) {
    forall x: Dyadic, y: Dyadic :: y.numerator > 0 ==> IsQuotient(divide(x, y), x, y)
  }

  /** How a machine rounds and divides doubles. */
  datatype Doubles = Doubles(round: Dyadic -> Dyadic, divide: (Dyadic, Dyadic) -> Dyadic) {
    ghost predicate Right() {
      RoundsRight(round) && DividesRight(divide)
    }
  }

  /** The exact sums over the first `i` durations. */
  predicate AreSums(ds: seq<nat>, i: nat, sum: Dyadic, total: Dyadic)
    requires i <= |ds|
  {
    if i == 0 then sum == ZERO && total == ZERO
    else sum == Dyadic(Weighted(ds[..i]), |ds| - 1) && total == Dyadic(Ones(i), |ds| - 1)
  }

  lemma AddShifted(w: nat, e: nat, d: nat, i: nat)
    requires i <= e
    ensures Dyadic(w, e).Plus(HalfPow(e - i).Times(d)) == Dyadic(w + d * Pow2(i), e)
    ensures Dyadic(w, e).Plus(HalfPow(e - i)) == Dyadic(w + Pow2(i), e)
  {
    assert d * 1 == d;
    assert 1 * Pow2(i) == Pow2(i);
  }

  lemma AddToZero(e: nat, d: nat)
    ensures ZERO.Plus(HalfPow(e).Times(d)) == Dyadic(d, e) && ZERO.Plus(HalfPow(e)) == Dyadic(1, e)
  {
    assert d * 1 == d && 0 * Pow2(e) == 0;
  }

  lemma StepAdds(ds: seq<nat>, i: nat, sum: Dyadic, total: Dyadic)
    requires i < |ds| && AreSums(ds, i, sum, total)
    ensures AreSums(ds, i + 1, sum.Plus(HalfPow(|ds| - 1 - i).Times(ds[i])), total.Plus(HalfPow(|ds| - 1 - i)))
  {
    WeightedNext(ds, i);
    if i == 0 {
      AddToZero(|ds| - 1, ds[0]);
      FirstSums(ds);
    } else {
      AddShifted(Weighted(ds[..i]), |ds| - 1, ds[i], i);
      AddShifted(Ones(i), |ds| - 1, ds[i], i);
    }
  }

  lemma FirstSums(ds: seq<nat>)
    requires ds != []
    ensures Weighted(ds[..1]) == ds[0] && Ones(1) == 1
  {
    AverageOfOne(ds[0]);
    assert ds[..1] == [ds[0]] && [ds[0]][..0] == [];
    assert Pow2(0) == 1;
  }

  /** Every intermediate result of a loop step is a double, so rounding does nothing. */
  lemma StepIsExact(ds: seq<nat>, i: nat, sum: Dyadic, total: Dyadic, round: Dyadic -> Dyadic)
    requires FitsFloats(ds) && i < |ds| && AreSums(ds, i, sum, total) && RoundsRight(round)
    ensures var weight := HalfPow(|ds| - 1 - i);
            AreSums(ds, i + 1, round(sum.Plus(round(weight.Times(ds[i])))), round(total.Plus(weight)))
  {
    var weight := HalfPow(|ds| - 1 - i);
    StepAdds(ds, i, sum, total);
    PartialSums(ds, i + 1);
    ProductIsSmall(weight, ds[i]);
    SmallIsFloat(weight.Times(ds[i]));
    SmallIsFloat(sum.Plus(weight.Times(ds[i])));
    SmallIsFloat(total.Plus(weight));
  }

  lemma ProductIsSmall(weight: Dyadic, d: nat)
    requires weight.numerator == 1 && d < TWO_43
    ensures weight.Times(d).numerator < TWO_53
  {
    assert d * 1 == d;
  }

  lemma TruncatesToAverage(f: Dyadic, ds: seq<nat>, p: nat)
    requires ds != [] && FitsFloats(ds) && p > 0 && IsNearest(f, Weighted(ds) * p, Ones(|ds|) * p)
    ensures Truncated(f) == Average(ds)
  {
    assert ds[..|ds|] == ds;
    PartialSums(ds, |ds|);
    NearestTruncates(f, Weighted(ds), Ones(|ds|), p);
  }

  /** The rounded quotient of the exact sums truncates to the average. */
  lemma QuotientIsAverage(ds: seq<nat>, sum: Dyadic, total: Dyadic, f: Dyadic)
    requires ds != [] && FitsFloats(ds) && AreSums(ds, |ds|, sum, total)
    requires total.numerator > 0 ==> IsQuotient(f, sum, total)
    ensures Truncated(f) == Average(ds)
  {
    assert ds[..|ds|] == ds;
    PartialSums(ds, |ds|);
    Pow2Positive(|ds| - 1);
    TruncatesToAverage(f, ds, Pow2(|ds| - 1));
  }

  /** The two sums of the source's loop after `i` durations, every product and sum rounded. */
  function SumsInFloats(doubles: Doubles, ds: seq<nat>, i: nat): (Dyadic, Dyadic)
    requires i <= |ds|
  {
    if i == 0 then (ZERO, ZERO)
    else
      var sums := SumsInFloats(doubles, ds, i - 1);
      var weight := HalfPow(|ds| - i);
      (doubles.round(sums.0.Plus(doubles.round(weight.Times(ds[i - 1])))), doubles.round(sums.1.Plus(weight)))
  }

  /** The rounded quotient of the two sums, truncated. */
  function AverageInFloats(doubles: Doubles, ds: seq<nat>): nat {
    var sums := SumsInFloats(doubles, ds, |ds|);
    Truncated(doubles.divide(sums.0, sums.1))
  }

  lemma {:induction false} SumsAreExact(doubles: Doubles, ds: seq<nat>, i: nat)
    requires FitsFloats(ds) && i <= |ds| && doubles.Right()
    ensures AreSums(ds, i, SumsInFloats(doubles, ds, i).0, SumsInFloats(doubles, ds, i).1)
  {
    if i > 0 {
      SumsAreExact(doubles, ds, i - 1);
      var sums := SumsInFloats(doubles, ds, i - 1);
      StepIsExact(ds, i - 1, sums.0, sums.1, doubles.round);
    }
  }

  /** For at most ten durations below 2^43 ms, which is 278 years, doubles give the exact average. */
  lemma FloatsAreExact(doubles: Doubles, ds: seq<nat>)
    requires ds != [] && FitsFloats(ds) && doubles.Right()
    ensures AverageInFloats(doubles, ds) == Average(ds)
  {
    SumsAreExact(doubles, ds, |ds|);
    var sums := SumsInFloats(doubles, ds, |ds|);
    QuotientIsAverage(ds, sums.0, sums.1, doubles.divide(sums.0, sums.1));
  }

  /** The source's loop in doubles. */
  method WeightedAverageInFloats(durations: seq<nat>, doubles: Doubles) returns (average: nat)
    requires durations != []
    ensures average == AverageInFloats(doubles, durations)
    ensures doubles.Right() && FitsFloats(durations) ==> average == Average(durations)
  {
    var len := |durations|;
    var weightedSum, totalWeight := ZERO, ZERO;
    for i := 0 to len
      invariant (weightedSum, totalWeight) == SumsInFloats(doubles, durations, i)
    {
      var weight := HalfPow(len - 1 - i);
      weightedSum := doubles.round(weightedSum.Plus(doubles.round(weight.Times(durations[i]))));
      totalWeight := doubles.round(totalWeight.Plus(weight));
    }
    average := Truncated(doubles.divide(weightedSum, totalWeight));
    if doubles.Right() && FitsFloats(durations) {
      FloatsAreExact(doubles, durations);
    }
  }

  // ----- Estimates

  /** The default without history, a single duration as it is, and else the average in doubles. */
  function EstimateInFloats(doubles: Doubles, history: Durations, default: nat, id: string): nat {
    if id !in history || history[id] == [] then default
    else if |history[id]| == 1 then history[id][0]
    else AverageInFloats(doubles, history[id])
  }

  function EstimatorInFloats(doubles: Doubles, history: Durations, default: nat): string -> nat {
    id => EstimateInFloats(doubles, history, default, id)
  }

  lemma EstimateIsExact(doubles: Doubles, history: Durations, default: nat, id: string)
    requires doubles.Right() && (id in history ==> FitsFloats(history[id]))
    ensures EstimateInFloats(doubles, history, default, id) == EstimateOf(history, default, id)
  {
    if id in history && history[id] != [] {
      if |history[id]| == 1 {
        AverageOfOne(history[id][0]);
        assert history[id] == [history[id][0]];
      } else {
        FloatsAreExact(doubles, history[id]);
      }
    }
  }
}
