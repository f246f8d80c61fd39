/**
 Combining stacked parametrize decorators (crates/rpytest-daemon/src/collector.rs).

 The combinations come out in mixed-radix order: the index of a combination, written with one digit
 per decorator (last decorator fastest), names the value each decorator contributes.
 */
module Parametrize {
  import opened Models
  import opened Arithmetic

  datatype Variant = Variant(values: seq<string>, customId: Option<string>, marks: seq<string>)

  datatype ParamInfo = ParamInfo(names: seq<string>, variants: seq<Variant>)

  datatype Chosen = Chosen(names: seq<string>, variant: Variant)

  type Combination = seq<Chosen>

  /** Number of combinations. */
  function Size(infos: seq<ParamInfo>): nat {
    if infos == [] then 1 else |infos[0].variants| * Size(infos[1..])
  }

  /** One digit per decorator, each below the number of its values. */
  predicate AreDigits(infos: seq<ParamInfo>, ds: seq<nat>) {
    |ds| == |infos| && forall j :: 0 <= j < |ds| ==> ds[j] < |infos[j].variants|
  }

  function Pick(infos: seq<ParamInfo>, ds: seq<nat>): Combination
    requires AreDigits(infos, ds)
  {
    seq(|infos|, j requires 0 <= j < |infos| => Chosen(infos[j].names, infos[j].variants[ds[j]]))
  }

  lemma QuotientDigit(k: nat, n: nat, m: nat)
    requires k < n * m
    ensures m > 0 && Quotient(k, m) < n && Remainder(k, m) < m
  {
    assert m == 0 ==> n * m == 0;
    Division(k, m);
    if Quotient(k, m) >= n {
      Monotone(n, Quotient(k, m), m);
    }
  }

  /** The mixed-radix digits of `k`, most significant first. */
  function Digits(infos: seq<ParamInfo>, k: nat): (ds: seq<nat>)
    requires k < Size(infos)
    ensures AreDigits(infos, ds)
  {
    if infos == [] then []
    else
      var m := Size(infos[1..]);
      QuotientDigit(k, |infos[0].variants|, m);
      [Quotient(k, m)] + Digits(infos[1..], Remainder(k, m))
  }

  function Value(infos: seq<ParamInfo>, ds: seq<nat>): nat
    requires AreDigits(infos, ds)
  {
    if infos == [] then 0 else ds[0] * Size(infos[1..]) + Value(infos[1..], ds[1..])
  }

  lemma {:induction false} ValueInRange(infos: seq<ParamInfo>, ds: seq<nat>)
    requires AreDigits(infos, ds)
    ensures Value(infos, ds) < Size(infos)
  {
    if infos != [] {
      var m := Size(infos[1..]);
      ValueInRange(infos[1..], ds[1..]);
      Monotone(ds[0] + 1, |infos[0].variants|, m);
      NextMultiple(ds[0], m);
    }
  }

  lemma {:induction false} DigitsOfValue(infos: seq<ParamInfo>, ds: seq<nat>)
    requires AreDigits(infos, ds)
    ensures Value(infos, ds) < Size(infos) && Digits(infos, Value(infos, ds)) == ds
  {
    ValueInRange(infos, ds);
    if infos != [] {
      ValueInRange(infos[1..], ds[1..]);
      DigitsOfValue(infos[1..], ds[1..]);
      DivisionUnique(Value(infos, ds), Size(infos[1..]), ds[0], Value(infos[1..], ds[1..]));
      assert ds == [ds[0]] + ds[1..];
    }
  }

  lemma {:induction false} ValueOfDigits(infos: seq<ParamInfo>, k: nat)
    requires k < Size(infos)
    ensures Value(infos, Digits(infos, k)) == k
  {
    if infos != [] {
      var m := Size(infos[1..]);
      QuotientDigit(k, |infos[0].variants|, m);
      Division(k, m);
      ValueOfDigits(infos[1..], Remainder(k, m));
      assert Digits(infos, k)[1..] == Digits(infos[1..], Remainder(k, m));
    }
  }

  /** Closed form: digit j of k is k div (number of combinations of the later decorators), mod n_j. */
  lemma {:induction false} DigitClosedForm(infos: seq<ParamInfo>, k: nat, j: nat)
    requires k < Size(infos) && j < |infos|
    ensures Size(infos[j + 1..]) > 0 && |infos[j].variants| > 0
    ensures Digits(infos, k)[j] == Remainder(Quotient(k, Size(infos[j + 1..])), |infos[j].variants|)
  {
    DigitsNext(infos, k);
    if j == 0 {
      SmallRemainder(Quotient(k, Size(infos[1..])), |infos[0].variants|);
    } else {
      DigitClosedForm(infos[1..], Remainder(k, Size(infos[1..])), j - 1);
      assert infos[1..][j..] == infos[j + 1..];
      LaterDigit(infos, k, j);
    }
  }

  lemma DigitsNext(infos: seq<ParamInfo>, k: nat)
    requires infos != [] && k < Size(infos)
    ensures Size(infos[1..]) > 0 && Remainder(k, Size(infos[1..])) < Size(infos[1..])
    ensures Quotient(k, Size(infos[1..])) < |infos[0].variants|
    ensures Digits(infos, k) == [Quotient(k, Size(infos[1..]))] + Digits(infos[1..], Remainder(k, Size(infos[1..])))
  {
    QuotientDigit(k, |infos[0].variants|, Size(infos[1..]));
  }

  /** Taking off the first digit does not change a later one. */
  lemma LaterDigit(infos: seq<ParamInfo>, k: nat, j: nat)
    requires 0 < j < |infos|
    requires Size(infos[1..]) > 0 && Size(infos[j + 1..]) > 0 && |infos[j].variants| > 0
    ensures Remainder(Quotient(Remainder(k, Size(infos[1..])), Size(infos[j + 1..])), |infos[j].variants|)
            == Remainder(Quotient(k, Size(infos[j + 1..])), |infos[j].variants|)
  {
    SizeFactors(infos[1..], j - 1);
    assert infos[1..][j..] == infos[j + 1..];
    DigitBelow(k, Size(infos[1..]), Size(infos[j + 1..]), |infos[j].variants|, Size(infos[1..][..j - 1]));
  }

  lemma {:induction false} SizeFactors(infos: seq<ParamInfo>, j: nat)
    requires j < |infos|
    ensures Size(infos) == Size(infos[..j]) * (|infos[j].variants| * Size(infos[j + 1..]))
  {
    if j > 0 {
      SizeFactors(infos[1..], j - 1);
      assert infos[1..][..j - 1] == infos[..j][1..] && infos[1..][j..] == infos[j + 1..];
      var a, b, c := |infos[0].variants|, Size(infos[1..][..j - 1]), |infos[j].variants| * Size(infos[j + 1..]);
      Regroup(a, b, c);
    }
  }

  // ----- The product

  function Choice(info: ParamInfo, i: nat): Chosen
    requires i < |info.variants|
  {
    Chosen(info.names, info.variants[i])
  }

  /** One value in front of every combination of the remaining decorators. */
  function Prefixed(chosen: Chosen, remaining: seq<Combination>): seq<Combination> {
    seq(|remaining|, q requires 0 <= q < |remaining| => [chosen] + remaining[q])
  }

  /** The blocks of the first `n` values, one after the other. */
  function Blocks(info: ParamInfo, remaining: seq<Combination>, n: nat): seq<Combination>
    requires n <= |info.variants|
  {
    if n == 0 then [] else Blocks(info, remaining, n - 1) + Prefixed(Choice(info, n - 1), remaining)
  }

  function Product(infos: seq<ParamInfo>): seq<Combination> {
    if infos == [] then [[]] else Blocks(infos[0], Product(infos[1..]), |infos[0].variants|)
  }

  lemma {:induction false} BlocksLength(info: ParamInfo, remaining: seq<Combination>, n: nat)
    requires n <= |info.variants|
    ensures |Blocks(info, remaining, n)| == n * |remaining|
  {
    if n > 0 {
      BlocksLength(info, remaining, n - 1);
      NextMultiple(n - 1, |remaining|);
    }
  }

  /** Entry `q` of block `i`. */
  lemma {:induction false} BlocksAt(info: ParamInfo, remaining: seq<Combination>, n: nat, i: nat, q: nat, k: nat)
    requires i < n <= |info.variants| && q < |remaining| && k == i * |remaining| + q
    ensures k < |Blocks(info, remaining, n)| && Blocks(info, remaining, n)[k] == [Choice(info, i)] + remaining[q]
  {
    BlocksLength(info, remaining, n - 1);
    if i < n - 1 {
      BlocksAt(info, remaining, n - 1, i, q, k);
    }
  }

  lemma {:induction false} ProductLength(infos: seq<ParamInfo>)
    ensures |Product(infos)| == Size(infos)
  {
    if infos != [] {
      ProductLength(infos[1..]);
      BlocksLength(infos[0], Product(infos[1..]), |infos[0].variants|);
    }
  }

  /** Mixed-radix enumeration: entry k is the combination that the digits of k pick. */
  lemma {:induction false} ProductEnumerates(infos: seq<ParamInfo>, k: nat)
    requires k < Size(infos)
    ensures |Product(infos)| == Size(infos) && Product(infos)[k] == Pick(infos, Digits(infos, k))
  {
    ProductLength(infos);
    if infos != [] {
      var m := Size(infos[1..]);
      QuotientDigit(k, |infos[0].variants|, m);
      Division(k, m);
      var i, q := Quotient(k, m), Remainder(k, m);
      ProductEnumerates(infos[1..], q);
      BlocksAt(infos[0], Product(infos[1..]), |infos[0].variants|, i, q, k);
      assert Digits(infos, k) == [i] + Digits(infos[1..], q);
      assert Pick(infos, Digits(infos, k)) == [Choice(infos[0], i)] + Pick(infos[1..], Digits(infos[1..], q));
    }
  }

  /** Entry k, decorator j: the names of the decorator and its value number (k div later sizes) mod n_j. */
  lemma EntryClosedForm(infos: seq<ParamInfo>, k: nat, j: nat)
    requires k < Size(infos) && j < |infos|
    ensures |Product(infos)| == Size(infos) && |Product(infos)[k]| == |infos|
    ensures Size(infos[j + 1..]) > 0 && |infos[j].variants| > 0
    ensures var c := Product(infos)[k][j];
            c.names == infos[j].names && c.variant == infos[j].variants[k / Size(infos[j + 1..]) % |infos[j].variants|]
  {
    ProductEnumerates(infos, k);
    DigitClosedForm(infos, k, j);
  }

  method ComputeCartesian(infos: seq<ParamInfo>, index: nat) returns (result: seq<Combination>)
    requires index <= |infos|
    ensures result == Product(infos[index..])
    decreases |infos| - index
  {
    if index >= |infos| {
      return [[]];
    }
    var info := infos[index];
    var remaining := ComputeCartesian(infos, index + 1);
    assert infos[index..][1..] == infos[index + 1..];
    result := [];
    for i := 0 to |info.variants|
      invariant result == Blocks(info, remaining, i)
    {
      for q := 0 to |remaining|
        invariant result == Blocks(info, remaining, i) + Prefixed(Choice(info, i), remaining)[..q]
      {
        result := result + [[Chosen(info.names, info.variants[i])] + remaining[q]];
      }
    }
  }

  /** No decorator: no combination at all. One: a shortcut that agrees with the recursion. */
  method GenerateCartesianProduct(infos: seq<ParamInfo>) returns (result: seq<Combination>)
    ensures result == if infos == [] then [] else Product(infos)
    ensures |infos| == 1 ==>
              && |result| == |infos[0].variants|
              && forall k :: 0 <= k < |result| ==> result[k] == [Chosen(infos[0].names, infos[0].variants[k])]
  {
    if infos == [] {
      return [];
    }
    if |infos| == 1 {
      var info := infos[0];
      assert infos[1..] == [] && Product([]) == [[]];
      result := [];
      for k := 0 to |info.variants|
        invariant |result| == k
        invariant forall i :: 0 <= i < k ==> result[i] == [Chosen(info.names, info.variants[i])]
        invariant result == Blocks(info, [[]], k)
      {
        assert Prefixed(Choice(info, k), [[]]) == [[Choice(info, k)] + []];
        assert [Choice(info, k)] + [] == [Choice(info, k)];
        result := result + [[Chosen(info.names, info.variants[k])]];
      }
      return;
    }
    assert infos[0..] == infos;
    result := ComputeCartesian(infos, 0);
  }

  /** Every choice of one value per decorator occurs, at exactly one index. */
  lemma EveryCombinationOnce(infos: seq<ParamInfo>, ds: seq<nat>)
    requires AreDigits(infos, ds)
    ensures |Product(infos)| == Size(infos)
    ensures exists k :: 0 <= k < Size(infos) && Digits(infos, k) == ds && Product(infos)[k] == Pick(infos, ds)
    ensures forall k, k' ::
              0 <= k < Size(infos) && 0 <= k' < Size(infos) && Digits(infos, k) == ds == Digits(infos, k') ==> k == k'
  {
    DigitsOfValue(infos, ds);
    ProductEnumerates(infos, Value(infos, ds));
    forall k | 0 <= k < Size(infos) && Digits(infos, k) == ds
      ensures k == Value(infos, ds)
    {
      ValueOfDigits(infos, k);
    }
  }
}
