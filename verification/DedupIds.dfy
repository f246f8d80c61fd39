/** Making parameter ids distinct with numeric suffixes (crates/rpytest-daemon/src/collector.rs). */
module DedupIds {

  function Digit(d: nat): char
    requires d < 10
  {
    "0123456789"[d]
  }

  /** Decimal notation. */
  function Decimal(n: nat): (s: string)
    ensures s != ""
  {
    if n < 10 then [Digit(n)] else Decimal(n / 10) + [Digit(n % 10)]
  }

  lemma {:induction false} DecimalIsDigits(n: nat, i: nat)
    requires i < |Decimal(n)|
    ensures '0' <= Decimal(n)[i] <= '9'
  {
    if n >= 10 && i < |Decimal(n / 10)| {
      DecimalIsDigits(n / 10, i);
    }
  }

  lemma {:induction false} DecimalInjective(m: nat, n: nat)
    requires Decimal(m) == Decimal(n)
    ensures m == n
  {
    var a, b := Decimal(m), Decimal(n);
    assert a[|a| - 1] == Digit(m % 10) && b[|b| - 1] == Digit(n % 10);
    if m >= 10 && n >= 10 {
      assert a[..|a| - 1] == Decimal(m / 10) && b[..|b| - 1] == Decimal(n / 10);
      DecimalInjective(m / 10, n / 10);
    }
  }

  function Count(ids: seq<string>, id: string): nat {
    if ids == [] then 0
    else Count(ids[..|ids| - 1], id) + (if ids[|ids| - 1] == id then 1 else 0)
  }

  lemma {:induction false} CountIsMultiplicity(ids: seq<string>, id: string)
    ensures Count(ids, id) == multiset(ids)[id]
  {
    if ids != [] {
      CountIsMultiplicity(ids[..|ids| - 1], id);
      assert ids == ids[..|ids| - 1] + [ids[|ids| - 1]];
    }
  }

  /** The number that a row of digits denotes. */
  function Parse(s: string): nat
    requires forall i :: 0 <= i < |s| ==> '0' <= s[i] <= '9'
  {
    if s == "" then 0 else 10 * Parse(s[..|s| - 1]) + (s[|s| - 1] as int - '0' as int)
  }

  /** Decimal notation denotes the number, without superfluous zeros. */
  lemma {:induction false} DecimalDenotes(n: nat)
    ensures forall i :: 0 <= i < |Decimal(n)| ==> '0' <= Decimal(n)[i] <= '9'
    ensures Parse(Decimal(n)) == n
    ensures n > 0 ==> Decimal(n)[0] != '0'
  {
    forall i | 0 <= i < |Decimal(n)|
      ensures '0' <= Decimal(n)[i] <= '9'
    {
      DecimalIsDigits(n, i);
    }
    var last := Decimal(n)[|Decimal(n)| - 1];
    assert last as int - '0' as int == n % 10;
    if n >= 10 {
      DecimalDenotes(n / 10);
      assert Decimal(n)[..|Decimal(n)| - 1] == Decimal(n / 10);
    } else {
      assert Decimal(n)[..0] == "";
    }
  }

  function Suffixed(id: string, r: nat): string {
    id + "_" + Decimal(r)
  }

  /** An id that occurs once is kept; the r-th occurrence of a repeated id gets suffix r. */
  function FinalId(ids: seq<string>, i: nat): string
    requires i < |ids|
  {
    if Count(ids, ids[i]) > 1 then Suffixed(ids[i], Count(ids[..i], ids[i])) else ids[i]
  }

  /** In terms of how often an id occurs, in all and before position i. */
  lemma FinalIdExactly(ids: seq<string>, i: nat)
    requires i < |ids|
    ensures multiset(ids)[ids[i]] == 1 ==> FinalId(ids, i) == ids[i]
    ensures multiset(ids)[ids[i]] > 1 ==> FinalId(ids, i) == ids[i] + "_" + Decimal(multiset(ids[..i])[ids[i]])
  {
    CountIsMultiplicity(ids, ids[i]);
    CountIsMultiplicity(ids[..i], ids[i]);
  }

  /** First pass: the positions of every id. */
  method GroupById(ids: seq<string>) returns (seen: map<string, seq<nat>>)
    ensures forall id :: (if id in seen then |seen[id]| else 0) == Count(ids, id)
  {
    seen := map[];
    for k := 0 to |ids|
      invariant forall id :: (if id in seen then |seen[id]| else 0) == Count(ids[..k], id)
    {
      assert ids[..k + 1][..k] == ids[..k];
      seen := seen[ids[k] := (if ids[k] in seen then seen[ids[k]] else []) + [k]];
    }
    assert ids[..|ids|] == ids;
  }

  method DeduplicateIds(ids: seq<string>) returns (result: seq<string>)
    ensures |result| == |ids|
    ensures forall i :: 0 <= i < |ids| ==> result[i] == FinalId(ids, i)
  {
    var seen := GroupById(ids);
    result := [];
    var counters: map<string, nat> := map[];
    for k := 0 to |ids|
      invariant |result| == k
      invariant forall i :: 0 <= i < k ==> result[i] == FinalId(ids, i)
      invariant forall id :: Count(ids, id) > 1 ==> (if id in counters then counters[id] else 0) == Count(ids[..k], id)
    {
      CountNext(ids, k);
      CountPositive(ids, k);
      var id := ids[k];
      if |seen[id]| > 1 {
        var counter := if id in counters then counters[id] else 0;
        result := result + [Suffixed(id, counter)];
        counters := counters[id := counter + 1];
      } else {
        result := result + [id];
      }
    }
  }

  lemma CountNext(ids: seq<string>, k: nat)
    requires k < |ids|
    ensures forall id :: Count(ids[..k + 1], id) == Count(ids[..k], id) + (if ids[k] == id then 1 else 0)
  {
    assert ids[..k + 1][..k] == ids[..k];
  }

  // ----- When the result is free of repetitions

  lemma {:induction false} CountPositive(ids: seq<string>, i: nat)
    requires i < |ids|
    ensures Count(ids[..i], ids[i]) < Count(ids, ids[i])
  {
    if i == |ids| - 1 {
    } else {
      assert ids[..|ids| - 1][..i] == ids[..i];
      CountPositive(ids[..|ids| - 1], i);
    }
  }

  /** Occurrences further back have a higher rank. */
  lemma {:induction false} RankGrows(ids: seq<string>, i: nat, j: nat)
    requires i < j <= |ids|
    ensures Count(ids[..i], ids[i]) < Count(ids[..j], ids[i])
  {
    CountPositive(ids[..j], i);
    assert ids[..j][..i] == ids[..i];
  }

  /** Every rank below the number of occurrences is taken. */
  lemma {:induction false} RankTaken(ids: seq<string>, id: string, r: nat) returns (i: nat)
    requires r < Count(ids, id)
    ensures i < |ids| && ids[i] == id && Count(ids[..i], id) == r
  {
    var last := |ids| - 1;
    if r < Count(ids[..last], id) {
      i := RankTaken(ids[..last], id, r);
      assert ids[..last][..i] == ids[..i];
    } else {
      i := last;
    }
  }

  /** The suffix can be read back: the last underscore is the added one. */
  lemma SuffixedInjective(a: string, q: nat, b: string, r: nat)
    requires Suffixed(a, q) == Suffixed(b, r)
    ensures a == b && q == r
  {
    SuffixLengths(a, q, b, r);
    SuffixLengths(b, r, a, q);
    var s := Suffixed(a, q);
    assert s[..|a|] == a && s[..|b|] == b;
    assert s[|a| + 1..] == Decimal(q) && s[|b| + 1..] == Decimal(r);
    DecimalInjective(q, r);
  }

  lemma SuffixLengths(a: string, q: nat, b: string, r: nat)
    requires Suffixed(a, q) == Suffixed(b, r)
    ensures |a| <= |b|
  {
    if |a| > |b| {
      var k := |a| - |b| - 1;
      assert Suffixed(a, q)[|a|] == '_';
      assert Suffixed(b, r)[|a|] == Decimal(r)[k];
      DecimalIsDigits(r, k);
    }
  }

  ghost predicate Distinct(s: seq<string>) {
    forall i, j :: 0 <= i < j < |s| ==> s[i] != s[j]
  }

  /** Some id that occurs once looks like a suffixed occurrence of a repeated one. */
  ghost predicate Clash(ids: seq<string>) {
    exists i, d, r: nat ::
      0 <= i < |ids| && Count(ids, ids[i]) == 1 && 1 < Count(ids, d) && r < Count(ids, d) && ids[i] == Suffixed(d, r)
  }

  function Finals(ids: seq<string>): seq<string> {
    seq(|ids|, i requires 0 <= i < |ids| => FinalId(ids, i))
  }

  /** Deduplication succeeds exactly when no such clash is in the input. */
  lemma DistinctExactly(ids: seq<string>)
    ensures Distinct(Finals(ids)) <==> !Clash(ids)
  {
    if Clash(ids) {
      var i, d, r: nat :| 0 <= i < |ids| && Count(ids, ids[i]) == 1 && 1 < Count(ids, d)
                          && r < Count(ids, d) && ids[i] == Suffixed(d, r);
      var j := RankTaken(ids, d, r);
      assert Finals(ids)[i] == Finals(ids)[j];
      assert i != j;
    } else {
      forall i, j | 0 <= i < j < |ids|
        ensures FinalId(ids, i) != FinalId(ids, j)
      {
        NoClashDistinct(ids, i, j);
      }
    }
  }

  lemma NoClashDistinct(ids: seq<string>, i: nat, j: nat)
    requires !Clash(ids) && i < j < |ids|
    ensures FinalId(ids, i) != FinalId(ids, j)
  {
    CountPositive(ids, i);
    CountPositive(ids, j);
    RankGrows(ids, i, j);
    var ri, rj := Count(ids[..i], ids[i]), Count(ids[..j], ids[j]);
    if FinalId(ids, i) == FinalId(ids, j) && Count(ids, ids[i]) > 1 && Count(ids, ids[j]) > 1 {
      SuffixedInjective(ids[i], ri, ids[j], rj);
    }
  }

  /** An input whose output repeats `a_0`. */
  lemma ClashExample()
    ensures !Distinct(Finals(["a", "a", "a_0"]))
  {
    var ids := ["a", "a", "a_0"];
    assert ids[..2] == ["a", "a"] && ["a", "a"][..1] == ["a"] && ["a"][..0] == [];
    assert Count(ids, "a") == 2 && Count(ids, "a_0") == 1;
    assert Suffixed("a", 0) == "a_0";
    assert ids[2] == Suffixed("a", 0);
    DistinctExactly(ids);
  }
}
