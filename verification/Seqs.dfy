/** Sequence vocabulary shared by the models: weighted sums, flattening and bounded windows. */
module Seqs {
  import opened Arithmetic

  /** The sum of `f` over the elements of `s`. */
  function SumBy<T>(f: T -> nat, s: seq<T>): nat {
    if s == [] then 0 else SumBy(f, s[..|s| - 1]) + f(s[|s| - 1])
  }

  function Flatten<T>(ss: seq<seq<T>>): seq<T> {
    if ss == [] then [] else Flatten(ss[..|ss| - 1]) + ss[|ss| - 1]
  }

  /** The last `n` elements of `s`, or all of them when there are fewer. */
  function LastN<T>(s: seq<T>, n: nat): seq<T> {
    if |s| <= n then s else s[|s| - n..]
  }

  lemma {:induction false} SumByConcat<T>(f: T -> nat, a: seq<T>, b: seq<T>)
    ensures SumBy(f, a + b) == SumBy(f, a) + SumBy(f, b)
  {
    if b == [] {
      assert a + b == a;
    } else {
      var c := b[..|b| - 1];
      assert (a + b)[..|a + b| - 1] == a + c;
      SumByConcat(f, a, c);
    }
  }

  /** A sub-multiset has no larger sum; hence sums do not depend on order. */
  lemma {:induction false} SumBySubset<T>(f: T -> nat, s: seq<T>, t: seq<T>)
    requires multiset(s) <= multiset(t)
    ensures SumBy(f, s) <= SumBy(f, t)
    decreases |s|
  {
    if s != [] {
      var x := s[|s| - 1];
      assert s == s[..|s| - 1] + [x];
      assert x in multiset(t);
      var i :| 0 <= i < |t| && t[i] == x;
      var a, b := t[..i], t[i + 1..];
      assert t == a + [x] + b;
      SubsetWithout(s[..|s| - 1], x, a, b);
      SumBySubset(f, s[..|s| - 1], a + b);
      SumByWithout(f, a, x, b);
    }
  }

  lemma SubsetWithout<T>(s: seq<T>, x: T, a: seq<T>, b: seq<T>)
    requires multiset(s + [x]) <= multiset(a + [x] + b)
    ensures multiset(s) <= multiset(a + b)
  {
    assert multiset(s) == multiset(s + [x]) - multiset{x};
    assert multiset(a + b) == multiset(a + [x] + b) - multiset{x};
  }

  lemma SumByWithout<T>(f: T -> nat, a: seq<T>, x: T, b: seq<T>)
    ensures SumBy(f, a + [x] + b) == SumBy(f, a + b) + f(x)
  {
    SumByConcat(f, a, [x]);
    SumByConcat(f, a + [x], b);
    SumByConcat(f, a, b);
    assert SumBy(f, [x]) == f(x);
  }

  lemma SumByPermutation<T>(f: T -> nat, s: seq<T>, t: seq<T>)
    requires multiset(s) == multiset(t)
    ensures SumBy(f, s) == SumBy(f, t)
  {
    SumBySubset(f, s, t);
    SumBySubset(f, t, s);
  }

  /** `n` parts of sum at most `c` flatten to a sum of at most `n * c`. */
  lemma {:induction false} FlattenAtMost<T>(f: T -> nat, parts: seq<seq<T>>, c: nat)
    requires forall j :: 0 <= j < |parts| ==> SumBy(f, parts[j]) <= c
    ensures SumBy(f, Flatten(parts)) <= |parts| * c
  {
    if parts != [] {
      var last := |parts| - 1;
      FlattenAtMost(f, parts[..last], c);
      SumByConcat(f, Flatten(parts[..last]), parts[last]);
      NextMultiple(last, c);
    }
  }

  lemma {:induction false} FlattenAtLeast<T>(f: T -> nat, parts: seq<seq<T>>, c: nat)
    requires forall j :: 0 <= j < |parts| ==> c <= SumBy(f, parts[j])
    ensures |parts| * c <= SumBy(f, Flatten(parts))
  {
    if parts != [] {
      var last := |parts| - 1;
      FlattenAtLeast(f, parts[..last], c);
      SumByConcat(f, Flatten(parts[..last]), parts[last]);
      NextMultiple(last, c);
    }
  }

  /** Appending one element to one part adds exactly that element to the whole. */
  lemma {:induction false} FlattenAppend<T>(parts: seq<seq<T>>, i: nat, x: T)
    requires i < |parts|
    ensures multiset(Flatten(parts[i := parts[i] + [x]])) == multiset(Flatten(parts)) + multiset{x}
  {
    var last := |parts| - 1;
    var parts' := parts[i := parts[i] + [x]];
    if i == last {
      assert parts'[..last] == parts[..last];
    } else {
      assert parts'[..last] == parts[..last][i := parts[..last][i] + [x]];
      FlattenAppend(parts[..last], i, x);
    }
  }

  lemma {:induction false} FlattenEmpties<T>(parts: seq<seq<T>>)
    requires forall j :: 0 <= j < |parts| ==> parts[j] == []
    ensures Flatten(parts) == []
  {
    if parts != [] {
      FlattenEmpties(parts[..|parts| - 1]);
    }
  }

  /** Windows compose: truncating an already truncated history after one more push loses nothing. */
  lemma LastNPush<T>(s: seq<T>, n: nat, x: T)
    ensures LastN(LastN(s, n) + [x], n) == LastN(s + [x], n)
  {
  }

  lemma Associate<T>(a: seq<T>, b: seq<T>, c: seq<T>)
    ensures a + (b + c) == (a + b) + c
  {
  }
}
