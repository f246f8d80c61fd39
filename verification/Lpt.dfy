/**
 Greedy list assignment and Graham's bound for it when jobs come longest first.

 An assignment of jobs to `m` workers is a sequence of `m` parts that together hold the jobs; no
 optimum is defined: the bound is stated against every assignment and its makespan.
 */
module Lpt {
  import opened Seqs
  import opened Arithmetic

  function Load<T>(e: T -> nat, batch: seq<T>): nat {
    SumBy(e, batch)
  }

  /** The first batch of least load among the first `n`. */
  function LightestOf<T>(e: T -> nat, batches: seq<seq<T>>, n: nat): (i: nat)
    requires 0 < n <= |batches|
    ensures i < n
    ensures forall j :: 0 <= j < n ==> Load(e, batches[i]) <= Load(e, batches[j])
    ensures forall j :: 0 <= j < i ==> Load(e, batches[i]) < Load(e, batches[j])
  {
    if n == 1 then 0 else
    var i := LightestOf(e, batches, n - 1);
    if Load(e, batches[n - 1]) < Load(e, batches[i]) then n - 1 else i
  }

  /** Jobs are placed in order, each on the first batch of least load. */
  function Greedy<T>(e: T -> nat, jobs: seq<T>, m: nat): (batches: seq<seq<T>>)
    requires 0 < m
    ensures |batches| == m
  {
    if jobs == [] then seq(m, _ => [])
    else Place(e, Greedy(e, jobs[..|jobs| - 1], m), jobs[|jobs| - 1])
  }

  function Place<T>(e: T -> nat, batches: seq<seq<T>>, job: T): (placed: seq<seq<T>>)
    requires 0 < |batches|
    ensures |placed| == |batches|
  {
    var i := LightestOf(e, batches, |batches|);
    batches[i := batches[i] + [job]]
  }

  lemma LightestIs<T>(e: T -> nat, batches: seq<seq<T>>, i: nat)
    requires i < |batches|
    requires forall j :: 0 <= j < |batches| ==> Load(e, batches[i]) <= Load(e, batches[j])
    requires forall j :: 0 <= j < i ==> Load(e, batches[i]) < Load(e, batches[j])
    ensures i == LightestOf(e, batches, |batches|)
  {
  }

  lemma GreedyNext<T>(e: T -> nat, jobs: seq<T>, k: nat, m: nat)
    requires k < |jobs| && 0 < m
    ensures Greedy(e, jobs[..k + 1], m) == Place(e, Greedy(e, jobs[..k], m), jobs[k])
  {
    assert jobs[..k + 1][..k] == jobs[..k];
  }

  lemma PlaceLoads<T>(e: T -> nat, batches: seq<seq<T>>, x: T)
    requires 0 < |batches|
    ensures forall j :: 0 <= j < |batches| ==>
                          Load(e, Place(e, batches, x)[j])
                          == Load(e, batches[j]) + (if j == LightestOf(e, batches, |batches|) then e(x) else 0)
  {
    SumByConcat(e, batches[LightestOf(e, batches, |batches|)], [x]);
    assert SumBy(e, [x]) == e(x);
  }

  ghost predicate LongestFirst<T>(e: T -> nat, jobs: seq<T>) {
    forall i, j :: 0 <= i < j < |jobs| ==> e(jobs[j]) <= e(jobs[i])
  }

  /** `parts` give every job of `jobs` to one of their workers, each worker busy for at most `c`. */
  ghost predicate Assigns<T>(e: T -> nat, parts: seq<seq<T>>, jobs: seq<T>, c: nat) {
    && multiset(jobs) <= multiset(Flatten(parts))
    && forall j :: 0 <= j < |parts| ==> Load(e, parts[j]) <= c
  }

  /** The list-scheduling bound: `load` is at most 2 - 1/m times `c`. */
  predicate WithinListBound(m: nat, load: nat, c: nat) {
    m * load <= (2 * m - 1) * c
  }

  /** Graham's bound: `load` is at most 4/3 - 1/(3m) times `c`. */
  predicate WithinGrahamBound(m: nat, load: nat, c: nat) {
    3 * m * load <= (4 * m - 1) * c
  }

  lemma LongestFirstPrefix<T>(e: T -> nat, pre: seq<T>, x: T)
    requires LongestFirst(e, pre + [x])
    ensures LongestFirst(e, pre)
  {
    forall i, j | 0 <= i < j < |pre|
      ensures e(pre[j]) <= e(pre[i])
    {
      assert (pre + [x])[i] == pre[i] && (pre + [x])[j] == pre[j];
    }
  }

  lemma LastIsShortest<T>(e: T -> nat, pre: seq<T>, x: T)
    requires LongestFirst(e, pre + [x])
    ensures LongestFirst(e, pre) && forall k :: 0 <= k < |pre| ==> e(x) <= e(pre[k])
  {
    LongestFirstPrefix(e, pre, x);
    forall k | 0 <= k < |pre|
      ensures e(x) <= e(pre[k])
    {
      assert (pre + [x])[k] == pre[k] && (pre + [x])[|pre|] == x;
    }
  }

  /** A least load of `least` together with `p` respects the mean of `m` workers busy for `c`. */
  predicate AtMostMean(m: nat, least: nat, p: nat, c: nat) {
    m * least + p <= m * c
  }

  // ----- Partition and balance

  lemma {:induction false} GreedyKeepsJobs<T>(e: T -> nat, jobs: seq<T>, m: nat)
    requires 0 < m
    ensures multiset(Flatten(Greedy(e, jobs, m))) == multiset(jobs)
  {
    if jobs == [] {
      FlattenEmpties(Greedy(e, jobs, m));
    } else {
      var pre, x := jobs[..|jobs| - 1], jobs[|jobs| - 1];
      var b := Greedy(e, pre, m);
      GreedyKeepsJobs(e, pre, m);
      FlattenAppend(b, LightestOf(e, b, m), x);
      assert jobs == pre + [x];
    }
  }

  /** Without its last job, no batch is heavier than any other batch. */
  ghost predicate Balanced<T>(e: T -> nat, batches: seq<seq<T>>) {
    forall i, j :: 0 <= i < |batches| && 0 <= j < |batches| && batches[i] != [] ==>
                     Load(e, Init(batches[i])) <= Load(e, batches[j])
  }

  function Init<T>(s: seq<T>): seq<T>
    requires s != []
  {
    s[..|s| - 1]
  }

  lemma PlaceBalanced<T>(e: T -> nat, batches: seq<seq<T>>, x: T)
    requires 0 < |batches| && Balanced(e, batches)
    ensures Balanced(e, Place(e, batches, x))
  {
    var k := LightestOf(e, batches, |batches|);
    var placed := Place(e, batches, x);
    PlaceLoads(e, batches, x);
    assert Init(placed[k]) == batches[k];
    forall i, j | 0 <= i < |placed| && 0 <= j < |placed| && placed[i] != []
      ensures Load(e, Init(placed[i])) <= Load(e, placed[j])
    {
      assert Load(e, batches[j]) <= Load(e, placed[j]);
      assert i != k ==> placed[i] == batches[i];
    }
  }

  lemma {:induction false} GreedyBalanced<T>(e: T -> nat, jobs: seq<T>, m: nat)
    requires 0 < m
    ensures Balanced(e, Greedy(e, jobs, m))
  {
    if jobs != [] {
      var pre := jobs[..|jobs| - 1];
      GreedyBalanced(e, pre, m);
      PlaceBalanced(e, Greedy(e, pre, m), jobs[|jobs| - 1]);
    }
  }

  /** Every batch holds only jobs, and holds them in the order in which they were placed. */
  ghost predicate Ordered<T>(e: T -> nat, batches: seq<seq<T>>, jobs: seq<T>) {
    forall i :: 0 <= i < |batches| ==>
                  && LongestFirst(e, batches[i])
                  && forall k :: 0 <= k < |batches[i]| ==> batches[i][k] in jobs
  }

  lemma PlaceOrdered<T>(e: T -> nat, batches: seq<seq<T>>, jobs: seq<T>, x: T)
    requires 0 < |batches| && Ordered(e, batches, jobs)
    requires forall k :: 0 <= k < |jobs| ==> e(x) <= e(jobs[k])
    ensures Ordered(e, Place(e, batches, x), jobs + [x])
  {
    var l := LightestOf(e, batches, |batches|);
    AppendOrdered(e, batches[l], jobs, x);
  }

  lemma AppendOrdered<T>(e: T -> nat, batch: seq<T>, jobs: seq<T>, x: T)
    requires LongestFirst(e, batch) && forall k :: 0 <= k < |batch| ==> batch[k] in jobs
    requires forall k :: 0 <= k < |jobs| ==> e(x) <= e(jobs[k])
    ensures LongestFirst(e, batch + [x])
  {
  }

  lemma {:induction false} GreedyKeepsOrder<T>(e: T -> nat, jobs: seq<T>, m: nat)
    requires 0 < m && LongestFirst(e, jobs)
    ensures Ordered(e, Greedy(e, jobs, m), jobs)
  {
    if jobs != [] {
      var pre, x := jobs[..|jobs| - 1], jobs[|jobs| - 1];
      GreedyKeepsOrder(e, pre, m);
      PlaceOrdered(e, Greedy(e, pre, m), pre, x);
      assert pre + [x] == jobs;
    }
  }

  /** The load of the batch that receives `x`, once `x` is on it. */
  function LoadAfter<T>(e: T -> nat, pre: seq<T>, x: T, m: nat): nat
    requires 0 < m
  {
    var b := Greedy(e, pre, m);
    Load(e, b[LightestOf(e, b, m)] + [x])
  }

  lemma LoadAfterIs<T>(e: T -> nat, pre: seq<T>, x: T, m: nat)
    requires 0 < m
    ensures var b := Greedy(e, pre, m);
            LoadAfter(e, pre, x, m) == Load(e, b[LightestOf(e, b, m)]) + e(x)
  {
    var b := Greedy(e, pre, m);
    SumByConcat(e, b[LightestOf(e, b, m)], [x]);
    assert SumBy(e, [x]) == e(x);
  }

  function Positive<T>(e: T -> nat): T -> nat {
    x => if e(x) > 0 then 1 else 0
  }

  /** How many jobs have a positive length. */
  function Positives<T>(e: T -> nat, jobs: seq<T>): nat {
    SumBy(Positive(e), jobs)
  }

  /**
   With `n` jobs placed longest first, `p` of them of positive length, the first `p` batches are
   busy and one more holds the jobs of length zero, when there are any and a batch is left for them.
   */
  ghost predicate InUse<T>(e: T -> nat, batches: seq<seq<T>>, n: nat, p: nat) {
    forall i :: 0 <= i < |batches| ==>
                  && (Load(e, batches[i]) > 0 <==> i < p)
                  && (batches[i] != [] <==> i < n && i <= p)
  }

  lemma PlaceInUse<T>(e: T -> nat, batches: seq<seq<T>>, x: T, n: nat, p: nat)
    requires 0 < |batches| && p <= n && InUse(e, batches, n, p)
    requires p < n ==> e(x) == 0
    ensures InUse(e, Place(e, batches, x), n + 1, if e(x) > 0 then p + 1 else p)
  {
    var m := |batches|;
    var l := LightestOf(e, batches, m);
    PlaceLoads(e, batches, x);
    if p < m {
      assert Load(e, batches[p]) == 0;
      assert l == p;
    }
  }

  lemma {:induction false} AllPositive<T>(e: T -> nat, jobs: seq<T>)
    requires forall k :: 0 <= k < |jobs| ==> e(jobs[k]) > 0
    ensures Positives(e, jobs) == |jobs|
  {
    if jobs != [] {
      AllPositive(e, jobs[..|jobs| - 1]);
    }
  }

  lemma {:induction false} GreedyInUse<T>(e: T -> nat, jobs: seq<T>, m: nat)
    requires 0 < m && LongestFirst(e, jobs)
    ensures Positives(e, jobs) <= |jobs| && InUse(e, Greedy(e, jobs, m), |jobs|, Positives(e, jobs))
  {
    if jobs != [] {
      var pre, x := jobs[..|jobs| - 1], jobs[|jobs| - 1];
      assert jobs == pre + [x];
      LastIsShortest(e, pre, x);
      GreedyInUse(e, pre, m);
      if e(x) > 0 {
        AllPositive(e, pre);
      }
      PlaceInUse(e, Greedy(e, pre, m), x, |pre|, Positives(e, pre));
    }
  }

  // ----- Graham's bound

  /**
   Graham's weights for the critical job length `p` and the makespan `c`: a job shorter than `p`
   weighs nothing, a job that cannot share a worker with a job of length `p` weighs two.
   */
  function Weight(p: nat, c: nat, d: nat): nat {
    if d < p then 0 else if d + p > c then 2 else 1
  }

  function WeightOf<T>(e: T -> nat, p: nat, c: nat): T -> nat {
    x => Weight(p, c, e(x))
  }

  /** When three jobs of length `p` do not fit into `c`, no worker can hold weight above two. */
  lemma {:induction false} WorkerWeight<T>(e: T -> nat, p: nat, c: nat, part: seq<T>)
    requires 3 * p > c
    ensures SumBy(WeightOf(e, p, c), part) >= 1 ==> Load(e, part) >= p
    ensures SumBy(WeightOf(e, p, c), part) >= 2 ==> Load(e, part) >= 2 * p || Load(e, part) + p > c
    ensures SumBy(WeightOf(e, p, c), part) >= 3 ==> Load(e, part) > c
  {
    if part != [] {
      WorkerWeight(e, p, c, part[..|part| - 1]);
    }
  }

  /**
   A batch that is already so full that a job of length `p` would overflow `c` weighs at least two,
   provided all its jobs are at least `p` long and `p` itself fits.
   */
  lemma FullBatchWeight<T>(e: T -> nat, p: nat, c: nat, batch: seq<T>)
    requires Load(e, batch) + p > c && p <= c
    requires forall k :: 0 <= k < |batch| ==> p <= e(batch[k])
    ensures SumBy(WeightOf(e, p, c), batch) >= 2
  {
    assert batch != [];
    var b' := batch[..|batch| - 1];
    if b' != [] {
      assert batch[|batch| - 2] == b'[|b'| - 1];
    } else {
      assert Load(e, batch) == e(batch[0]);
    }
  }

  /** If every batch would overflow `c` with one more job of length `p`, the jobs placed weigh 2m. */
  lemma OverfullWeight<T>(e: T -> nat, pre: seq<T>, m: nat, p: nat, c: nat)
    requires 0 < m && p <= c && LongestFirst(e, pre)
    requires forall k :: 0 <= k < |pre| ==> p <= e(pre[k])
    requires forall j :: 0 <= j < m ==> Load(e, Greedy(e, pre, m)[j]) + p > c
    ensures m * 2 <= SumBy(WeightOf(e, p, c), pre)
  {
    var b := Greedy(e, pre, m);
    var w := WeightOf(e, p, c);
    GreedyKeepsOrder(e, pre, m);
    forall j | 0 <= j < m
      ensures 2 <= SumBy(w, b[j])
    {
      forall k | 0 <= k < |b[j]|
        ensures p <= e(b[j][k])
      {
        assert b[j][k] in pre;
      }
      FullBatchWeight(e, p, c, b[j]);
    }
    FlattenAtLeast(w, b, 2);
    GreedyKeepsJobs(e, pre, m);
    SumByPermutation(w, Flatten(b), pre);
  }

  /** No assignment within `c` can hold more than weight 2m. */
  lemma AssignedWeight<T>(e: T -> nat, jobs: seq<T>, parts: seq<seq<T>>, p: nat, c: nat)
    requires 3 * p > c && Assigns(e, parts, jobs, c)
    ensures SumBy(WeightOf(e, p, c), jobs) <= |parts| * 2
  {
    var w := WeightOf(e, p, c);
    SumBySubset(w, jobs, Flatten(parts));
    forall j | 0 <= j < |parts|
      ensures SumBy(w, parts[j]) <= 2
    {
      WorkerWeight(e, p, c, parts[j]);
    }
    FlattenAtMost(w, parts, 2);
  }

  /** If the critical job is longer than a third of `c`, greedy placement stays within `c`. */
  lemma LongCriticalJob<T>(e: T -> nat, pre: seq<T>, x: T, m: nat, parts: seq<seq<T>>, c: nat)
    requires 0 < m == |parts|
    requires LongestFirst(e, pre + [x]) && Assigns(e, parts, pre + [x], c)
    requires 3 * e(x) > c
    ensures Load(e, Greedy(e, pre, m)[LightestOf(e, Greedy(e, pre, m), m)]) + e(x) <= c
  {
    var p, w := e(x), WeightOf(e, e(x), c);
    JobFits(e, parts, pre + [x], c, |pre|);
    LastIsShortest(e, pre, x);
    AssignedWeight(e, pre + [x], parts, p, c);
    SumByConcat(w, pre, [x]);
    assert SumBy(w, [x]) == w(x) >= 1;
    if Load(e, Greedy(e, pre, m)[LightestOf(e, Greedy(e, pre, m), m)]) + p > c {
      OverfullWeight(e, pre, m, p, c);
    }
  }

  /** Every single job fits into the makespan of an assignment. */
  lemma JobFits<T>(e: T -> nat, parts: seq<seq<T>>, jobs: seq<T>, c: nat, k: nat)
    requires Assigns(e, parts, jobs, c) && k < |jobs|
    ensures e(jobs[k]) <= c
  {
    assert jobs[k] in multiset(jobs);
    assert jobs[k] in Flatten(parts);
    var j := PartHolding(parts, jobs[k]);
    SumBySubset(e, [jobs[k]], parts[j]);
    assert SumBy(e, [jobs[k]]) == e(jobs[k]);
  }

  lemma {:induction false} PartHolding<T>(parts: seq<seq<T>>, x: T) returns (j: nat)
    requires x in Flatten(parts)
    ensures j < |parts| && x in parts[j]
  {
    j := |parts| - 1;
    if x !in parts[j] {
      j := PartHolding(parts[..|parts| - 1], x);
    }
  }

  /** The averaging argument: before the critical job is placed, the least load is at most the mean. */
  lemma LeastLoad<T>(e: T -> nat, pre: seq<T>, x: T, m: nat, parts: seq<seq<T>>, c: nat)
    requires 0 < m == |parts| && Assigns(e, parts, pre + [x], c)
    ensures AtMostMean(m, Load(e, Greedy(e, pre, m)[LightestOf(e, Greedy(e, pre, m), m)]), e(x), c)
  {
    var b := Greedy(e, pre, m);
    FlattenAtLeast(e, b, Load(e, b[LightestOf(e, b, m)]));
    GreedyKeepsJobs(e, pre, m);
    SumByPermutation(e, Flatten(b), pre);
    SumByConcat(e, pre, [x]);
    assert SumBy(e, [x]) == e(x);
    SumBySubset(e, pre + [x], Flatten(parts));
    FlattenAtMost(e, parts, c);
  }

  lemma SplitProduct(m: nat, least: nat, p: nat)
    requires 0 < m
    ensures m * (least + p) == m * least + p + (m - 1) * p
  {
  }

  lemma ListArithmetic(m: nat, least: nat, p: nat, c: nat, load: nat)
    requires 0 < m && AtMostMean(m, least, p, c) && p <= c && load == least + p
    ensures WithinListBound(m, load, c)
  {
    SplitProduct(m, least, p);
    Monotone(p, c, m - 1);
    assert (2 * m - 1) * c == m * c + (m - 1) * c;
  }

  lemma GrahamArithmetic(m: nat, least: nat, p: nat, c: nat, load: nat)
    requires 0 < m && AtMostMean(m, least, p, c) && load == least + p
    requires 3 * p <= c || least + p <= c
    ensures WithinGrahamBound(m, load, c)
  {
    if 3 * p <= c {
      ShortCriticalJob(m, least, p, c);
    } else {
      Monotone(least + p, c, m);
      Monotone(0, c, m - 1);
    }
    GrahamForms(m, least + p, c);
  }

  lemma ShortCriticalJob(m: nat, least: nat, p: nat, c: nat)
    requires 0 < m && m * least + p <= m * c && 3 * p <= c
    ensures 3 * (m * (least + p)) <= 3 * (m * c) + (m - 1) * c
  {
    SplitProduct(m, least, p);
    Monotone(3 * p, c, m - 1);
    TripleProduct(m - 1, p);
  }

  lemma TripleProduct(k: nat, p: nat)
    ensures k * (3 * p) == 3 * (k * p)
  {
  }

  lemma GrahamForms(m: nat, t: nat, c: nat)
    requires 0 < m
    ensures 3 * m * t == 3 * (m * t)
    ensures (4 * m - 1) * c == 3 * (m * c) + (m - 1) * c
  {
  }

  /** List-scheduling bound: in any order, greedy placement is within 2 - 1/m of every assignment. */
  lemma {:induction false} ListBound<T>(e: T -> nat, jobs: seq<T>, m: nat, parts: seq<seq<T>>, c: nat)
    requires 0 < m == |parts| && Assigns(e, parts, jobs, c)
    ensures forall i :: 0 <= i < m ==> WithinListBound(m, Load(e, Greedy(e, jobs, m)[i]), c)
  {
    if jobs == [] {
      NoLoadWithinBounds(m, c);
    } else {
      var pre, x := jobs[..|jobs| - 1], jobs[|jobs| - 1];
      assert jobs == pre + [x];
      ListBound(e, pre, m, parts, c);
      ListStep(e, pre, x, m, parts, c);
    }
  }

  lemma NoLoadWithinBounds(m: nat, c: nat)
    requires 0 < m
    ensures WithinListBound(m, 0, c) && WithinGrahamBound(m, 0, c)
  {
    Monotone(0, c, 2 * m - 1);
    Monotone(0, c, 4 * m - 1);
  }

  lemma ListStep<T>(e: T -> nat, pre: seq<T>, x: T, m: nat, parts: seq<seq<T>>, c: nat)
    requires 0 < m == |parts| && Assigns(e, parts, pre + [x], c)
    ensures WithinListBound(m, LoadAfter(e, pre, x, m), c)
  {
    var b := Greedy(e, pre, m);
    LeastLoad(e, pre, x, m, parts, c);
    JobFits(e, parts, pre + [x], c, |pre|);
    LoadAfterIs(e, pre, x, m);
    ListArithmetic(m, Load(e, b[LightestOf(e, b, m)]), e(x), c, LoadAfter(e, pre, x, m));
  }

  /**
   Graham's theorem: placed longest first, no batch exceeds 4/3 - 1/(3m) times the makespan of any
   assignment of the same jobs to the same number of workers.
   */
  lemma {:induction false} GrahamBound<T>(e: T -> nat, jobs: seq<T>, m: nat, parts: seq<seq<T>>, c: nat)
    requires 0 < m == |parts|
    requires LongestFirst(e, jobs) && Assigns(e, parts, jobs, c)
    ensures forall i :: 0 <= i < m ==> WithinGrahamBound(m, Load(e, Greedy(e, jobs, m)[i]), c)
  {
    if jobs == [] {
      NoLoadWithinBounds(m, c);
    } else {
      var pre, x := jobs[..|jobs| - 1], jobs[|jobs| - 1];
      assert jobs == pre + [x];
      LongestFirstPrefix(e, pre, x);
      GrahamBound(e, pre, m, parts, c);
      GrahamStep(e, pre, x, m, parts, c);
    }
  }

  lemma GrahamStep<T>(e: T -> nat, pre: seq<T>, x: T, m: nat, parts: seq<seq<T>>, c: nat)
    requires 0 < m == |parts|
    requires LongestFirst(e, pre + [x]) && Assigns(e, parts, pre + [x], c)
    ensures WithinGrahamBound(m, LoadAfter(e, pre, x, m), c)
  {
    var b := Greedy(e, pre, m);
    LeastLoad(e, pre, x, m, parts, c);
    if 3 * e(x) > c {
      LongCriticalJob(e, pre, x, m, parts, c);
    }
    LoadAfterIs(e, pre, x, m);
    GrahamArithmetic(m, Load(e, b[LightestOf(e, b, m)]), e(x), c, LoadAfter(e, pre, x, m));
  }

  /** No running total of the placement exceeds the sum of all job lengths. */
  lemma TotalsBounded<T>(e: T -> nat, jobs: seq<T>, k: nat, m: nat, i: nat)
    requires 0 < m && k <= |jobs| && i < m
    ensures Load(e, Greedy(e, jobs[..k], m)[i]) <= Load(e, jobs)
  {
    GreedyKeepsJobs(e, jobs[..k], m);
    PartAtMostWhole(e, Greedy(e, jobs[..k], m), i, jobs[..k]);
    assert jobs == jobs[..k] + jobs[k..];
    SumByConcat(e, jobs[..k], jobs[k..]);
  }

  lemma PartAtMostWhole<T>(e: T -> nat, parts: seq<seq<T>>, i: nat, jobs: seq<T>)
    requires i < |parts| && multiset(Flatten(parts)) == multiset(jobs)
    ensures Load(e, parts[i]) <= Load(e, jobs)
  {
    PartInFlatten(parts, i);
    SumBySubset(e, parts[i], jobs);
  }

  lemma {:induction false} PartInFlatten<T>(parts: seq<seq<T>>, i: nat)
    requires i < |parts|
    ensures multiset(parts[i]) <= multiset(Flatten(parts))
  {
    if i < |parts| - 1 {
      PartInFlatten(parts[..|parts| - 1], i);
    }
  }
}
