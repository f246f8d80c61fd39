/**
 Duration estimates: the halving-weight average of the retained runs
 (crates/rpytest-daemon/src/scheduler.rs), in exact arithmetic.
 */
module Estimates {
  import opened Arithmetic

  type Durations = map<string, seq<nat>>

  // ----- Estimates

  function Pow2(n: nat): nat {
    if n == 0 then 1 else 2 * Pow2(n - 1)
  }

  /** Sum of the durations, the i-th counted 2^i times: each run weighs twice the one before it. */
  function Weighted(ds: seq<nat>): nat {
    if ds == [] then 0 else Weighted(ds[..|ds| - 1]) + ds[|ds| - 1] * Pow2(|ds| - 1)
  }

  lemma {:induction false} Pow2Positive(n: nat)
    ensures Pow2(n) >= 1
    ensures n > 0 ==> Pow2(n) - 1 >= 1
  {
    if n > 0 { Pow2Positive(n - 1); }
  }

  /** The halving-weight average of at least one run, rounded down. */
  function Average(ds: seq<nat>): nat
    requires ds != []
  {
    Pow2Positive(|ds|);
    Quotient(Weighted(ds), Pow2(|ds|) - 1)
  }

  /** The average of the retained durations of `id`, or the default without any. */
  function EstimateOf(history: Durations, default: nat, id: string): nat {
    if id in history && history[id] != [] then Average(history[id]) else default
  }

  lemma {:induction false} WeightedBounds(ds: seq<nat>, lo: nat, hi: nat)
    requires forall i :: 0 <= i < |ds| ==> lo <= ds[i] <= hi
    ensures lo * (Pow2(|ds|) - 1) <= Weighted(ds) <= hi * (Pow2(|ds|) - 1)
  {
    if ds != [] {
      var n := |ds| - 1;
      WeightedBounds(ds[..n], lo, hi);
      Pow2Positive(n);
      BoundsStep(lo, Pow2(n), ds[n]);
      BoundsStep(hi, Pow2(n), ds[n]);
    }
  }

  lemma BoundsStep(b: nat, q: nat, d: nat)
    requires q >= 1
    ensures b * (2 * q - 1) == b * (q - 1) + b * q
    ensures b <= d ==> b * q <= d * q
    ensures d <= b ==> d * q <= b * q
  {
  }

  /** An estimate lies between the shortest and the longest retained duration. */
  lemma EstimateBetween(history: Durations, default: nat, id: string, lo: nat, hi: nat)
    requires id in history && history[id] != []
    requires forall i :: 0 <= i < |history[id]| ==> lo <= history[id][i] <= hi
    ensures lo <= EstimateOf(history, default, id) <= hi
  {
    var ds := history[id];
    WeightedBounds(ds, lo, hi);
    Pow2Positive(|ds|);
    QuotientBetween(Weighted(ds), Pow2(|ds|) - 1, lo, hi);
  }

  /** An older run in front adds its duration once and doubles the weight of all later ones. */
  lemma {:induction false} OlderRun(d: nat, ds: seq<nat>)
    ensures Weighted([d] + ds) == d + 2 * Weighted(ds)
  {
    if ds == [] {
      assert [d] + ds == [d] && [d][..0] == [];
      assert Weighted([d]) == d * Pow2(0);
    } else {
      var n := |ds| - 1;
      OlderRun(d, ds[..n]);
      assert ([d] + ds)[..n + 1] == [d] + ds[..n];
      DoubledWeight(ds[n], Pow2(n));
    }
  }

  lemma DoubledWeight(d: nat, q: nat)
    ensures d * (2 * q) == 2 * (d * q)
  {
  }

  /** Of two runs the later counts twice: their average is floor((a + 2b) / 3). */
  lemma AverageOfTwo(a: nat, b: nat)
    ensures Average([a, b]) == (a + 2 * b) / 3
  {
    OlderRun(a, [b]);
    OlderRun(b, []);
    assert [a] + [b] == [a, b] && [b] + [] == [b];
    assert Pow2(2) == 2 * Pow2(1);
  }

  // ----- The source's loop, in exact arithmetic: its weights are powers of one half

  /** The number `numerator` / 2^`exponent`. */
  datatype Dyadic = Dyadic(numerator: nat, exponent: nat) {
    function Plus(other: Dyadic): Dyadic {
      if exponent >= other.exponent
      then Dyadic(numerator + other.numerator * Pow2(exponent - other.exponent), exponent)
      else Dyadic(numerator * Pow2(other.exponent - exponent) + other.numerator, other.exponent)
    }

    function Times(n: nat): Dyadic {
      Dyadic(n * numerator, exponent)
    }

    /** The quotient of two numbers, truncated. */
    function DividedBy(other: Dyadic): nat
      requires other.numerator > 0
    {
      Pow2Positive(exponent);
      PositiveProduct(other.numerator, Pow2(exponent));
      Quotient(numerator * Pow2(other.exponent), other.numerator * Pow2(exponent))
    }
  }

  const ZERO := Dyadic(0, 0)

  /** 0.5 to the power `n`. */
  function HalfPow(n: nat): Dyadic {
    Dyadic(1, n)
  }

  method WeightedAverage(durations: seq<nat>) returns (average: nat)
    requires durations != []
    ensures average == Average(durations)
  {
    var len := |durations|;
    var weightedSum, totalWeight := ZERO, ZERO;
    for i := 0 to len
      invariant i == 0 ==> weightedSum == ZERO && totalWeight == ZERO
      invariant i > 0 ==> weightedSum == Dyadic(Weighted(durations[..i]), len - 1)
      invariant Pow2(i) >= 1 && (i > 0 ==> totalWeight == Dyadic(Pow2(i) - 1, len - 1))
    {
      var weight := HalfPow(len - 1 - i);
      WeightedNext(durations, i);
      weightedSum := weightedSum.Plus(weight.Times(durations[i]));
      totalWeight := totalWeight.Plus(weight);
    }
    assert durations[..len] == durations;
    Pow2Positive(len);
    Pow2Positive(len - 1);
    CancelFactor(Weighted(durations), Pow2(len) - 1, Pow2(len - 1));
    average := weightedSum.DividedBy(totalWeight);
  }

  lemma WeightedNext(ds: seq<nat>, i: nat)
    requires i < |ds|
    ensures Weighted(ds[..i + 1]) == Weighted(ds[..i]) + ds[i] * Pow2(i)
  {
    assert ds[..i + 1][..i] == ds[..i];
  }

  /** The single-run shortcut agrees with the average. */
  lemma AverageOfOne(d: nat)
    ensures Average([d]) == d
  {
    assert [d][..0] == [];
    assert Weighted([d]) == d * Pow2(0);
    assert Pow2(1) == 2 * Pow2(0);
  }
}
