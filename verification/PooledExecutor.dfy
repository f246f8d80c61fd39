/** Running a list of tests on the pool (crates/rpytest-daemon/src/executor.rs, `PooledExecutor`). */
module PooledExecutor {
  import opened Seqs
  import opened Models
  import Pool
  import opened PoolSafety
  import Scheduler

  const MIN_BATCH_SIZE: nat := 50

  /** One worker up to 50 tests, then enough to keep batches at 50, but never more than configured. */
  function ActualWorkers(testCount: nat, workers: nat): nat {
    if testCount <= MIN_BATCH_SIZE then 1
    else
      var needed := (testCount + MIN_BATCH_SIZE - 1) / MIN_BATCH_SIZE;
      if workers <= needed then workers else needed
  }

  function Batches(e: string -> nat, nodeIds: seq<string>, workers: nat): seq<seq<string>> {
    if nodeIds == [] then [] else Scheduler.Split(e, nodeIds, ActualWorkers(|nodeIds|, workers))
  }

  /**
   Up to 50 tests are one batch in the requested order; more of them make at most as many batches as
   there are started fifties, and at most as many as there are workers.
   */
  lemma BatchesOfFifty(e: string -> nat, nodeIds: seq<string>, workers: nat)
    ensures 0 < |nodeIds| <= 50 ==> Batches(e, nodeIds, workers) == [nodeIds]
    ensures nodeIds == [] ==> Batches(e, nodeIds, workers) == []
    ensures 50 * (|Batches(e, nodeIds, workers)| - 1) < |nodeIds| || nodeIds == []
    ensures |Batches(e, nodeIds, workers)| <= if workers == 0 then 1 else workers
  {
    Scheduler.SplitShape(e, nodeIds, ActualWorkers(|nodeIds|, workers));
  }

  /** Past 50 tests with positive estimates, no worker that is both configured and needed stays unused. */
  lemma WorkersNeeded(e: string -> nat, nodeIds: seq<string>, workers: nat)
    requires |nodeIds| > 50 && workers > 1
    requires forall k :: 0 <= k < |nodeIds| ==> e(nodeIds[k]) > 0
    ensures var n := |Batches(e, nodeIds, workers)|;
            n == workers || |nodeIds| <= 50 * n
  {
    Scheduler.SplitCount(e, nodeIds, ActualWorkers(|nodeIds|, workers));
  }

  /**
   From the requested list to the returned list: balanced batches, any interleaving on the pool, any
   failures, and results gathered in batch order name each requested test as often as it was asked for,
   provided the done lines read for this call name each test once.
   */
  lemma PooledRunConserves(e: string -> nat, nodeIds: seq<string>, workers: nat,
                           run: seq<Pool.State>, handles: seq<Handle>)
    requires Pool.IsRun(run) && Joined(run, handles) && AllAnsweredOnce(run, handles)
    requires BatchesOf(handles) == Batches(e, nodeIds, workers)
    ensures Names(Collected(run, handles), nodeIds)
  {
    ParallelRunConserves(run, handles);
    BatchesHoldAll(e, nodeIds, workers);
  }

  lemma BatchesHoldAll(e: string -> nat, nodeIds: seq<string>, workers: nat)
    ensures multiset(Flatten(Batches(e, nodeIds, workers))) == multiset(nodeIds)
  {
    if nodeIds != [] {
      Scheduler.SplitPartition(e, nodeIds, ActualWorkers(|nodeIds|, workers));
    }
  }

  /** Under pytest's runner, exactly when no test of the run fails in its teardown. */
  lemma PooledRunExactly(e: string -> nat, nodeIds: seq<string>, workers: nat,
                         run: seq<Pool.State>, handles: seq<Handle>)
    requires Pool.IsRun(run) && Joined(run, handles) && BatchesOf(handles) == Batches(e, nodeIds, workers)
    requires forall b :: 0 <= b < |handles| ==> RunByPytest(run, handles[b].task)
    ensures AtLeastNames(Collected(run, handles), nodeIds)
    ensures Names(Collected(run, handles), nodeIds) <==>
            forall b :: 0 <= b < |handles| ==> NoTeardownFails(run, handles[b].task)
  {
    ParallelRunUnderPytest(run, handles);
    BatchesHoldAll(e, nodeIds, workers);
  }
}
