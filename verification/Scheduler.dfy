/** Load balancing and ordering of tests by estimated duration (crates/rpytest-daemon/src/scheduler.rs). */
module Scheduler {
  import opened Seqs
  import opened Arithmetic
  import opened Lpt
  import opened StableSort
  import opened Estimates
  import opened Floats

  const WINDOW: nat := 10
  const FAILURE_BOOST: nat := 1_000_000
  const DEFAULT_MS: nat := 1000

  // ----- Splitting

  function NonEmpty<T>(batches: seq<seq<T>>): seq<seq<T>> {
    if batches == [] then []
    else NonEmpty(batches[..|batches| - 1])
         + (if batches[|batches| - 1] == [] then [] else [batches[|batches| - 1]])
  }

  /** What `split_balanced` returns for a duration estimate `e`. */
  function Split(e: string -> nat, nodeIds: seq<string>, workerCount: nat): seq<seq<string>> {
    if workerCount <= 1 || nodeIds == [] then [nodeIds]
    else NonEmpty(Greedy(e, SortDesc(e, nodeIds), workerCount))
  }

  lemma {:induction false} NonEmptyFlatten<T>(batches: seq<seq<T>>)
    ensures Flatten(NonEmpty(batches)) == Flatten(batches)
  {
    if batches != [] {
      var init := batches[..|batches| - 1];
      NonEmptyFlatten(init);
      if batches[|batches| - 1] != [] {
        assert NonEmpty(batches)[..|NonEmpty(batches)| - 1] == NonEmpty(init);
      } else {
        assert NonEmpty(batches) == NonEmpty(init);
      }
    }
  }

  lemma {:induction false} NonEmptyMembers<T>(batches: seq<seq<T>>)
    ensures forall b :: b in NonEmpty(batches) <==> b in batches && b != []
  {
    if batches != [] {
      NonEmptyMembers(batches[..|batches| - 1]);
    }
  }

  lemma {:induction false} NonEmptyPrefix<T>(batches: seq<seq<T>>, u: nat)
    requires u <= |batches|
    requires forall i :: 0 <= i < |batches| ==> (batches[i] != [] <==> i < u)
    ensures NonEmpty(batches) == batches[..u]
  {
    if batches != [] {
      var init := batches[..|batches| - 1];
      NonEmptyPrefix(init, if u <= |init| then u else |init|);
    }
  }

  lemma SortedLongestFirst(e: string -> nat, nodeIds: seq<string>)
    ensures multiset(SortDesc(e, nodeIds)) == multiset(nodeIds)
    ensures LongestFirst(e, SortDesc(e, nodeIds))
    ensures |SortDesc(e, nodeIds)| == |nodeIds|
  {
    SortDescIsStableSort(e, nodeIds);
    assert |multiset(SortDesc(e, nodeIds))| == |multiset(nodeIds)|;
  }

  /** The batches hold exactly the requested tests, repetitions included. */
  lemma SplitPartition(e: string -> nat, nodeIds: seq<string>, workerCount: nat)
    ensures multiset(Flatten(Split(e, nodeIds, workerCount))) == multiset(nodeIds)
  {
    if workerCount <= 1 || nodeIds == [] {
      assert Flatten([nodeIds]) == Flatten([]) + nodeIds;
    } else {
      SortedLongestFirst(e, nodeIds);
      var sorted := SortDesc(e, nodeIds);
      GreedyKeepsJobs(e, sorted, workerCount);
      NonEmptyFlatten(Greedy(e, sorted, workerCount));
    }
  }

  /** Past the shortcut, the batches are those greedy placement starts, in worker order. */
  lemma SplitIsPrefix(e: string -> nat, nodeIds: seq<string>, workerCount: nat)
    requires workerCount > 1 && nodeIds != []
    ensures var all := Greedy(e, SortDesc(e, nodeIds), workerCount);
            var u := Min(workerCount, Min(|nodeIds|, Positives(e, nodeIds) + 1));
            Split(e, nodeIds, workerCount) == all[..u] && (u < workerCount ==> all[u] == [])
  {
    SortedLongestFirst(e, nodeIds);
    var sorted := SortDesc(e, nodeIds);
    var all := Greedy(e, sorted, workerCount);
    SumByPermutation(Positive(e), sorted, nodeIds);
    GreedyInUse(e, sorted, workerCount);
    InUsePrefix(e, all, |nodeIds|, Positives(e, nodeIds));
  }

  lemma InUsePrefix(e: string -> nat, batches: seq<seq<string>>, n: nat, p: nat)
    requires InUse(e, batches, n, p)
    ensures var u := Min(|batches|, Min(n, p + 1));
            NonEmpty(batches) == batches[..u] && (u < |batches| ==> batches[u] == [])
  {
    NonEmptyPrefix(batches, Min(|batches|, Min(n, p + 1)));
  }

  /** How many batches there are, exactly. */
  lemma SplitCount(e: string -> nat, nodeIds: seq<string>, workerCount: nat)
    requires workerCount > 1 && nodeIds != []
    ensures |Split(e, nodeIds, workerCount)| == Min(workerCount, Min(|nodeIds|, Positives(e, nodeIds) + 1))
    ensures (forall k :: 0 <= k < |nodeIds| ==> e(nodeIds[k]) > 0) ==>
              |Split(e, nodeIds, workerCount)| == Min(workerCount, |nodeIds|)
  {
    SplitIsPrefix(e, nodeIds, workerCount);
    if forall k :: 0 <= k < |nodeIds| ==> e(nodeIds[k]) > 0 {
      AllPositive(e, nodeIds);
    }
  }

  /** No batch is empty, and each runs its tests in non-increasing estimate order. */
  lemma SplitOrder(e: string -> nat, nodeIds: seq<string>, workerCount: nat)
    requires workerCount > 1 && nodeIds != []
    ensures forall b :: b in Split(e, nodeIds, workerCount) ==> b != [] && LongestFirst(e, b)
  {
    var all := Greedy(e, SortDesc(e, nodeIds), workerCount);
    SortedLongestFirst(e, nodeIds);
    NonEmptyMembers(all);
    GreedyKeepsOrder(e, SortDesc(e, nodeIds), workerCount);
  }

  /**
   Each batch, without its last test, is no longer than any of the `workerCount` totals; a worker that
   gets no batch has total zero.
   */
  lemma SplitBalance(e: string -> nat, nodeIds: seq<string>, workerCount: nat)
    requires workerCount > 1 && nodeIds != []
    ensures var b := Split(e, nodeIds, workerCount);
            && Balanced(e, b)
            && (|b| < workerCount ==> forall i :: 0 <= i < |b| && b[i] != [] ==> Load(e, Init(b[i])) == 0)
  {
    var all := Greedy(e, SortDesc(e, nodeIds), workerCount);
    SplitIsPrefix(e, nodeIds, workerCount);
    GreedyBalanced(e, SortDesc(e, nodeIds), workerCount);
    BalancedPrefix(e, all, |Split(e, nodeIds, workerCount)|);
  }

  lemma BalancedPrefix(e: string -> nat, all: seq<seq<string>>, u: nat)
    requires Balanced(e, all) && u <= |all|
    ensures Balanced(e, all[..u])
    ensures u < |all| && all[u] == [] ==> forall i :: 0 <= i < u && all[i] != [] ==> Load(e, Init(all[i])) == 0
  {
    if u < |all| && all[u] == [] {
      assert Load(e, all[u]) == 0;
    }
  }

  /**
   The approximation theorem: every batch is within 4/3 - 1/(3m) of the makespan `c` of any
   assignment of the same tests to the same number `m` of workers.
   */
  lemma SplitWithinGraham(e: string -> nat, nodeIds: seq<string>, workerCount: nat, parts: seq<seq<string>>, c: nat)
    requires |parts| == if workerCount == 0 then 1 else workerCount
    requires multiset(Flatten(parts)) == multiset(nodeIds)
    requires forall j :: 0 <= j < |parts| ==> Load(e, parts[j]) <= c
    ensures forall b :: b in Split(e, nodeIds, workerCount) ==> WithinGrahamBound(|parts|, Load(e, b), c)
  {
    var m := |parts|;
    if workerCount <= 1 {
      FlattenAtMost(e, parts, c);
      SumByPermutation(e, Flatten(parts), nodeIds);
      OneWorkerBound(Load(e, nodeIds), c);
    } else if nodeIds == [] {
      NoLoadWithinBounds(m, c);
    } else {
      SortedLongestFirst(e, nodeIds);
      var sorted := SortDesc(e, nodeIds);
      GrahamBound(e, sorted, m, parts, c);
      NonEmptyMembers(Greedy(e, sorted, m));
    }
  }

  /** One worker runs the request as it is; no more batches than workers are ever made. */
  lemma SplitShape(e: string -> nat, nodeIds: seq<string>, workerCount: nat)
    ensures workerCount <= 1 || nodeIds == [] ==> Split(e, nodeIds, workerCount) == [nodeIds]
    ensures |Split(e, nodeIds, workerCount)| <= if workerCount == 0 then 1 else workerCount
  {
    if workerCount > 1 && nodeIds != [] {
      SplitCount(e, nodeIds, workerCount);
    }
  }

  lemma OneWorkerBound(load: nat, c: nat)
    requires load <= 1 * c
    ensures WithinGrahamBound(1, load, c)
  {
  }

  // ----- Ordering

  datatype ScheduledTest = ScheduledTest(nodeId: string, estimatedMs: nat, priority: nat)

  function Priority(e: string -> nat, boosted: set<string>): string -> nat {
    id => if id in boosted then e(id) + FAILURE_BOOST else e(id)
  }

  function Ids(tests: seq<ScheduledTest>): seq<string> {
    seq(|tests|, i requires 0 <= i < |tests| => tests[i].nodeId)
  }

  function ByPriority(): ScheduledTest -> nat {
    (t: ScheduledTest) => t.priority
  }

  lemma {:induction false} InsertIds(key: string -> nat, tests: seq<ScheduledTest>, t: ScheduledTest)
    requires forall i :: 0 <= i < |tests| ==> tests[i].priority == key(tests[i].nodeId)
    requires t.priority == key(t.nodeId)
    ensures Ids(Insert(ByPriority(), tests, t)) == Insert(key, Ids(tests), t.nodeId)
    ensures forall i :: 0 <= i < |Insert(ByPriority(), tests, t)| ==>
                          Insert(ByPriority(), tests, t)[i].priority == key(Insert(ByPriority(), tests, t)[i].nodeId)
  {
    if tests != [] && t.priority > tests[|tests| - 1].priority {
      var tests' := tests[..|tests| - 1];
      InsertIds(key, tests', t);
      assert Ids(tests)[..|tests| - 1] == Ids(tests');
    }
  }

  /** Sorting the scheduled-test records by priority sorts their ids by the priority of each id. */
  lemma {:induction false} SortIds(key: string -> nat, tests: seq<ScheduledTest>)
    requires forall i :: 0 <= i < |tests| ==> tests[i].priority == key(tests[i].nodeId)
    ensures Ids(SortDesc(ByPriority(), tests)) == SortDesc(key, Ids(tests))
    ensures forall i :: 0 <= i < |SortDesc(ByPriority(), tests)| ==>
                          SortDesc(ByPriority(), tests)[i].priority == key(SortDesc(ByPriority(), tests)[i].nodeId)
  {
    if tests != [] {
      var tests' := tests[..|tests| - 1];
      SortIds(key, tests');
      InsertIds(key, SortDesc(ByPriority(), tests'), tests[|tests| - 1]);
      assert Ids(tests)[..|tests| - 1] == Ids(tests');
    }
  }

  /** No test outside `recent` runs before a test in it. */
  ghost predicate FailuresFirst(order: seq<string>, recent: set<string>) {
    forall i, j :: 0 <= i < j < |order| && order[j] in recent ==> order[i] in recent
  }

  /** Every failure outranks every other test, by priority or, on a tie, by its place in the request. */
  ghost predicate FailuresOutrank(e: string -> nat, nodeIds: seq<string>, recent: set<string>) {
    forall i, j :: 0 <= i < |nodeIds| && 0 <= j < |nodeIds| && nodeIds[i] in recent && nodeIds[j] !in recent ==>
                     || e(nodeIds[j]) < e(nodeIds[i]) + 1_000_000
                     || (e(nodeIds[j]) == e(nodeIds[i]) + 1_000_000 && i < j)
  }

  /** Failed-first ordering succeeds exactly when no estimate is long enough to outweigh the boost. */
  lemma FailedFirstExactly(e: string -> nat, nodeIds: seq<string>, recent: set<string>)
    ensures FailuresFirst(SortDesc(Priority(e, recent), nodeIds), recent)
            <==> FailuresOutrank(e, nodeIds, recent)
  {
    var key := Priority(e, recent);
    var r := SortDesc(key, nodeIds);
    SortDescIsStableSort(key, nodeIds);
    if FailuresFirst(r, recent) {
      forall a, b | 0 <= a < |nodeIds| && 0 <= b < |nodeIds| && nodeIds[a] in recent && nodeIds[b] !in recent
        ensures key(nodeIds[b]) < key(nodeIds[a]) || (key(nodeIds[b]) == key(nodeIds[a]) && a < b)
      {
        var x, y := nodeIds[a], nodeIds[b];
        if key(y) == key(x) && b < a {
          assert Before(nodeIds, y, x);
          StableKeepsBefore(key, nodeIds, r, y, x);
        } else if key(y) > key(x) {
          HigherKeyBefore(key, nodeIds, r, y, x);
        }
      }
    }
    if FailuresOutrank(e, nodeIds, recent) {
      forall i, j | 0 <= i < j < |r| && r[j] in recent
        ensures r[i] in recent
      {
        if r[i] !in recent {
          assert r[i] in multiset(nodeIds) && r[j] in multiset(nodeIds);
          var a, b :| 0 <= a < |nodeIds| && 0 <= b < |nodeIds| && nodeIds[a] == r[j] && nodeIds[b] == r[i];
          assert key(r[i]) >= key(r[j]);
          assert key(r[i]) == key(r[j]);
          assert Before(r, r[i], r[j]);
          assert SameClasses(key, r, nodeIds);
          StableKeepsBefore(key, r, nodeIds, r[i], r[j]);
        }
      }
    }
  }

  /** No history is longer than the scheduler's window. */
  predicate Windowed(history: Durations) {
    forall id :: id in history ==> |history[id]| <= 10
  }

  /** In particular when the default and every retained duration stay below the boost. */
  lemma FailedFirstBelowBoost(doubles: Doubles, history: Durations, default: nat, nodeIds: seq<string>,
                              recent: set<string>)
    requires doubles.Right() && Windowed(history) && default < 1_000_000
    requires forall id :: id in history ==> forall i :: 0 <= i < |history[id]| ==> history[id][i] < 1_000_000
    ensures var e := EstimatorInFloats(doubles, history, default);
            FailuresFirst(SortDesc(Priority(e, recent), nodeIds), recent)
  {
    var e := EstimatorInFloats(doubles, history, default);
    forall id
      ensures e(id) < 1_000_000
    {
      EstimateIsExact(doubles, history, default, id);
      if id in history && history[id] != [] {
        EstimateBetween(history, default, id, 0, 999_999);
      }
    }
    FailedFirstExactly(e, nodeIds, recent);
  }

  /** A test of 1,002,000 ms runs before a recent failure of the default 1,000 ms. */
  lemma FailedFirstExample(doubles: Doubles)
    ensures var e := EstimatorInFloats(doubles, map["slow" := [1_002_000]], DEFAULT_MS);
            !FailuresFirst(SortDesc(Priority(e, {"failed"}), ["slow", "failed"]), {"failed"})
  {
    var e := EstimatorInFloats(doubles, map["slow" := [1_002_000]], DEFAULT_MS);
    var nodeIds := ["slow", "failed"];
    assert e("slow") == 1_002_000 && e("failed") == DEFAULT_MS;
    FailedFirstExactly(e, nodeIds, {"failed"});
    assert nodeIds[1] in {"failed"} && nodeIds[0] !in {"failed"};
  }

  /** The longest first; with failed-first, a recent failure counts as 1,000,000 ms longer. */
  ghost predicate InRankOrder(e: string -> nat, failedFirst: bool, recent: seq<string>, order: seq<string>) {
    forall i, j :: 0 <= i < j < |order| ==>
                     e(order[j]) + (if failedFirst && order[j] in recent then 1_000_000 else 0)
                     <= e(order[i]) + (if failedFirst && order[i] in recent then 1_000_000 else 0)
  }

  lemma KeysAreRanks(e: string -> nat, failedFirst: bool, recent: seq<string>, order: seq<string>)
    requires Descending(Priority(e, if failedFirst then set id | id in recent else {}), order)
    ensures InRankOrder(e, failedFirst, recent, order)
  {
  }

  // ----- The scheduler object

  class TestScheduler {
    var durationHistory: Durations
    var defaultDurationMs: nat
    /** The arithmetic of the machine. */
    const doubles: Doubles

    constructor (doubles: Doubles)
      ensures durationHistory == map[] && defaultDurationMs == 1000 && this.doubles == doubles
    {
      durationHistory, defaultDurationMs, this.doubles := map[], DEFAULT_MS, doubles;
    }

    ghost function Estimates(): string -> nat
      reads this
    {
      EstimatorInFloats(doubles, durationHistory, defaultDurationMs)
    }

    method UpdateDuration(nodeId: string, durationMs: nat)
      modifies this`durationHistory
      ensures durationHistory ==
              old(durationHistory)[nodeId :=
                LastN((if nodeId in old(durationHistory) then old(durationHistory)[nodeId] else []) + [durationMs],
                      10)]
      ensures old(Windowed(durationHistory)) ==> Windowed(durationHistory)
    {
      var history := if nodeId in durationHistory then durationHistory[nodeId] else [];
      history := history + [durationMs];
      if |history| > WINDOW {
        history := history[|history| - WINDOW..];
      }
      durationHistory := durationHistory[nodeId := history];
    }

    /** The estimate in doubles; it is the exact one while no retained duration reaches 2^43 ms. */
    method GetEstimatedDuration(nodeId: string) returns (estimate: nat)
      ensures estimate == Estimates()(nodeId)
      ensures nodeId !in durationHistory || durationHistory[nodeId] == [] ==> estimate == defaultDurationMs
      ensures nodeId in durationHistory && |durationHistory[nodeId]| == 1 ==> estimate == durationHistory[nodeId][0]
      ensures doubles.Right() && (nodeId in durationHistory ==> FitsFloats(durationHistory[nodeId])) ==>
                estimate == EstimateOf(durationHistory, defaultDurationMs, nodeId)
    {
      estimate := ComputedEstimate(nodeId);
      if doubles.Right() && (nodeId in durationHistory ==> FitsFloats(durationHistory[nodeId])) {
        EstimateIsExact(doubles, durationHistory, defaultDurationMs, nodeId);
      }
    }

    method ComputedEstimate(nodeId: string) returns (estimate: nat)
      ensures estimate == EstimateInFloats(doubles, durationHistory, defaultDurationMs, nodeId)
    {
      if nodeId !in durationHistory {
        return defaultDurationMs;
      }
      var durations := durationHistory[nodeId];
      if durations == [] {
        return defaultDurationMs;
      }
      if |durations| == 1 {
        return durations[0];
      }
      estimate := WeightedAverageInFloats(durations, doubles);
    }

    /** One record per requested test, in order; `boosted` ids get the failure boost. */
    method Estimated(nodeIds: seq<string>, boosted: set<string>) returns (scheduled: seq<ScheduledTest>)
      ensures Ids(scheduled) == nodeIds
      ensures forall i :: 0 <= i < |scheduled| ==>
                            scheduled[i].priority == Priority(Estimates(), boosted)(scheduled[i].nodeId)
    {
      scheduled := [];
      for k := 0 to |nodeIds|
        invariant Ids(scheduled) == nodeIds[..k]
        invariant forall i :: 0 <= i < |scheduled| ==>
                                scheduled[i].priority == Priority(Estimates(), boosted)(scheduled[i].nodeId)
      {
        var estimate := GetEstimatedDuration(nodeIds[k]);
        var priority := estimate;
        if nodeIds[k] in boosted {
          priority := priority + FAILURE_BOOST;
        }
        scheduled := scheduled + [ScheduledTest(nodeIds[k], estimate, priority)];
      }
    }

    method Schedule(nodeIds: seq<string>, failedFirst: bool, recentFailures: seq<string>) returns (order: seq<string>)
      ensures var boosted := if failedFirst then set id | id in recentFailures else {};
              var key := Priority(Estimates(), boosted);
              order == SortDesc(key, nodeIds) && IsStableSort(key, nodeIds, order)
      ensures InRankOrder(Estimates(), failedFirst, recentFailures, order)
    {
      var boosted := if failedFirst then set id | id in recentFailures else {};
      ghost var key := Priority(Estimates(), boosted);
      SortDescIsStableSort(key, nodeIds);
      KeysAreRanks(Estimates(), failedFirst, recentFailures, SortDesc(key, nodeIds));
      if nodeIds == [] {
        return [];
      }
      var scheduled := Estimated(nodeIds, boosted);
      SortIds(key, scheduled);
      scheduled := SortDesc(ByPriority(), scheduled);
      order := Ids(scheduled);
    }

    method SplitBalanced(nodeIds: seq<string>, workerCount: nat) returns (result: seq<seq<string>>)
      ensures result == Split(Estimates(), nodeIds, workerCount)
      ensures multiset(Flatten(result)) == multiset(nodeIds)
      ensures workerCount <= 1 || nodeIds == [] ==> result == [nodeIds]
      ensures |result| <= if workerCount == 0 then 1 else workerCount
    {
      SplitShape(Estimates(), nodeIds, workerCount);
      SplitPartition(Estimates(), nodeIds, workerCount);
      if workerCount <= 1 || nodeIds == [] {
        return [nodeIds];
      }
      var scheduled := Estimated(nodeIds, {});
      SortIds(Estimates(), scheduled);
      scheduled := SortDesc(ByPriority(), scheduled);
      var batches := AssignGreedily(scheduled, workerCount, Estimates());
      result := NonEmpty(batches);
    }
  }

  /** The first position of the least value. */
  method FirstMinimum(ds: seq<nat>) returns (minIdx: nat)
    requires ds != []
    ensures minIdx < |ds|
    ensures forall j :: 0 <= j < |ds| ==> ds[minIdx] <= ds[j]
    ensures forall j :: 0 <= j < minIdx ==> ds[minIdx] < ds[j]
  {
    minIdx := 0;
    for i := 1 to |ds|
      invariant minIdx < i
      invariant forall j :: 0 <= j < i ==> ds[minIdx] <= ds[j]
      invariant forall j :: 0 <= j < minIdx ==> ds[minIdx] < ds[j]
    {
      if ds[i] < ds[minIdx] {
        minIdx := i;
      }
    }
  }

  /** The greedy loop of `split_balanced`: each test goes to the first batch of least total. */
  method AssignGreedily(scheduled: seq<ScheduledTest>, workerCount: nat, ghost e: string -> nat)
    returns (batches: seq<seq<string>>)
    requires workerCount > 0
    requires forall i :: 0 <= i < |scheduled| ==> scheduled[i].priority == e(scheduled[i].nodeId)
    ensures batches == Greedy(e, Ids(scheduled), workerCount)
  {
    ghost var ids := Ids(scheduled);
    batches := seq(workerCount, _ => []);
    var batchDurations: seq<nat> := seq(workerCount, _ => 0);
    for k := 0 to |scheduled|
      invariant batches == Greedy(e, ids[..k], workerCount)
      invariant |batchDurations| == workerCount
      invariant forall i :: 0 <= i < workerCount ==> batchDurations[i] == Load(e, batches[i])
    {
      var minIdx := FirstMinimum(batchDurations);
      LightestIs(e, batches, minIdx);
      var test := scheduled[k].nodeId;
      GreedyNext(e, ids, k, workerCount);
      PlaceLoads(e, batches, test);
      batches := batches[minIdx := batches[minIdx] + [test]];
      batchDurations := batchDurations[minIdx := batchDurations[minIdx] + scheduled[k].priority];
    }
    assert ids[..|scheduled|] == ids;
  }
}
