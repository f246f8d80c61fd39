/** A repository context running tests and keeping their histories (crates/rpytest-daemon/src/context.rs). */
module Context {
  import opened Seqs
  import opened Models
  import opened Estimates
  import opened Floats
  import opened Scheduler
  import opened Flakiness
  import Executor
  import Pool
  import PoolSafety
  import PooledExecutor

  datatype RunSummary = RunSummary(total: nat, passed: nat, failed: nat, skipped: nat, errors: nat)

  /** Only tests the inventory marks as skipped are left out of a run; unknown ids are run. */
  predicate IsPreSkipped(inventory: map<string, bool>, id: string) {
    id in inventory && inventory[id]
  }

  function Runnable(inventory: map<string, bool>, ids: seq<string>): seq<string> {
    if ids == [] then []
    else Runnable(inventory, ids[..|ids| - 1])
         + (if IsPreSkipped(inventory, ids[|ids| - 1]) then [] else [ids[|ids| - 1]])
  }

  function PreSkipped(inventory: map<string, bool>, ids: seq<string>): nat {
    if ids == [] then 0
    else PreSkipped(inventory, ids[..|ids| - 1]) + (if IsPreSkipped(inventory, ids[|ids| - 1]) then 1 else 0)
  }

  function CountOf(results: seq<TestResult>, outcome: Outcome): nat {
    if results == [] then 0
    else CountOf(results[..|results| - 1], outcome) + (if results[|results| - 1].outcome == outcome then 1 else 0)
  }

  /** The durations, and the events, that `results` add to the history of `id`. */
  function DurationsOf(results: seq<TestResult>, id: string): seq<nat> {
    if results == [] then []
    else DurationsOf(results[..|results| - 1], id)
         + (if results[|results| - 1].nodeId == id then [results[|results| - 1].durationMs] else [])
  }

  function EventsOf(results: seq<TestResult>, id: string): seq<Event> {
    if results == [] then []
    else EventsOf(results[..|results| - 1], id)
         + (if results[|results| - 1].nodeId == id
            then [Event(results[|results| - 1].outcome, results[|results| - 1].message)] else [])
  }

  /** How often `id` is run when `count` of the requested ids are it. */
  function Runs(inventory: map<string, bool>, id: string, count: nat): nat {
    if id in inventory && inventory[id] then 0 else count
  }

  /** Every requested id is run as often as it was asked for, or, if the inventory says skip, not at all. */
  lemma {:induction false} EveryIdOnce(inventory: map<string, bool>, ids: seq<string>)
    ensures forall id :: multiset(Runnable(inventory, ids))[id] == Runs(inventory, id, multiset(ids)[id])
    ensures |Runnable(inventory, ids)| + PreSkipped(inventory, ids) == |ids|
  {
    if ids != [] {
      EveryIdOnce(inventory, ids[..|ids| - 1]);
      assert ids == ids[..|ids| - 1] + [ids[|ids| - 1]];
      forall id
        ensures multiset(Runnable(inventory, ids))[id] == Runs(inventory, id, multiset(ids)[id])
      {
        LastIdRuns(inventory, ids[..|ids| - 1], ids[|ids| - 1], id);
      }
    }
  }

  lemma LastIdRuns(inventory: map<string, bool>, init: seq<string>, last: string, id: string)
    requires multiset(Runnable(inventory, init))[id] == Runs(inventory, id, multiset(init)[id])
    ensures multiset(Runnable(inventory, init + [last]))[id] == Runs(inventory, id, multiset(init + [last])[id])
  {
    assert (init + [last])[..|init|] == init;
  }

  /** The places of an outcome among the results. */
  function Places(results: seq<TestResult>, outcome: Outcome): set<nat> {
    set i: nat | i < |results| && results[i].outcome == outcome
  }

  lemma {:induction false} CountIsNumber(results: seq<TestResult>, outcome: Outcome)
    ensures CountOf(results, outcome) == |Places(results, outcome)|
  {
    if results != [] {
      var last := |results| - 1;
      CountIsNumber(results[..last], outcome);
      PlacesNext(results, outcome);
    }
  }

  lemma PlacesNext(results: seq<TestResult>, outcome: Outcome)
    requires results != []
    ensures var last := |results| - 1;
            |Places(results, outcome)|
            == |Places(results[..last], outcome)| + (if results[last].outcome == outcome then 1 else 0)
  {
    var last := |results| - 1;
    var before := Places(results[..last], outcome);
    assert last !in before;
    assert Places(results, outcome) == if results[last].outcome == outcome then before + {last} else before;
  }

  /** The places of the requested ids that the inventory marks as skipped. */
  function SkippedPlaces(inventory: map<string, bool>, ids: seq<string>): set<nat> {
    set i: nat | i < |ids| && ids[i] in inventory && inventory[ids[i]]
  }

  lemma {:induction false} PreSkippedIsNumber(inventory: map<string, bool>, ids: seq<string>)
    ensures PreSkipped(inventory, ids) == |SkippedPlaces(inventory, ids)|
  {
    if ids != [] {
      var last := |ids| - 1;
      PreSkippedIsNumber(inventory, ids[..last]);
      SkippedPlacesNext(inventory, ids);
    }
  }

  lemma SkippedPlacesNext(inventory: map<string, bool>, ids: seq<string>)
    requires ids != []
    ensures var last := |ids| - 1;
            |SkippedPlaces(inventory, ids)|
            == |SkippedPlaces(inventory, ids[..last])| + (if IsPreSkipped(inventory, ids[last]) then 1 else 0)
  {
    var last := |ids| - 1;
    var before := SkippedPlaces(inventory, ids[..last]);
    assert last !in before;
    assert SkippedPlaces(inventory, ids)
        == if ids[last] in inventory && inventory[ids[last]] then before + {last} else before;
  }

  /** Each counter is the number of results with its outcome; skipped counts the tests that were not run too. */
  ghost predicate Tallies(s: RunSummary, inventory: map<string, bool>, ids: seq<string>, results: seq<TestResult>) {
    && s.total == |results| + |SkippedPlaces(inventory, ids)|
    && s.passed == |Places(results, Passed)|
    && s.failed == |Places(results, Failed)|
    && s.skipped == |Places(results, Skipped)| + |SkippedPlaces(inventory, ids)|
    && s.errors == |Places(results, Error)|
  }

  lemma SummaryTallies(inventory: map<string, bool>, ids: seq<string>, results: seq<TestResult>)
    ensures Tallies(Summarized(inventory, ids, results), inventory, ids, results)
  {
    PreSkippedIsNumber(inventory, ids);
    CountIsNumber(results, Passed);
    CountIsNumber(results, Failed);
    CountIsNumber(results, Skipped);
    CountIsNumber(results, Error);
  }

  /** And in the requested order. */
  lemma {:induction false} RunnableInOrder(inventory: map<string, bool>, ids: seq<string>) returns (places: seq<nat>)
    ensures |places| == |Runnable(inventory, ids)|
    ensures forall k :: 0 <= k < |places| ==> places[k] < |ids| && ids[places[k]] == Runnable(inventory, ids)[k]
    ensures forall k, l :: 0 <= k < l < |places| ==> places[k] < places[l]
  {
    if ids == [] {
      places := [];
    } else {
      places := RunnableInOrder(inventory, ids[..|ids| - 1]);
      if !IsPreSkipped(inventory, ids[|ids| - 1]) {
        places := places + [|ids| - 1];
      }
    }
  }

  lemma {:induction false} EveryOutcomeCounted(results: seq<TestResult>)
    ensures CountOf(results, Passed) + CountOf(results, Failed) + CountOf(results, Skipped) + CountOf(results, Error)
            + CountOf(results, Xfail) + CountOf(results, Xpass) == |results|
  {
    if results != [] {
      EveryOutcomeCounted(results[..|results| - 1]);
    }
  }

  ghost predicate Balances(inventory: map<string, bool>, ids: seq<string>, results: seq<TestResult>) {
    var s := Summarized(inventory, ids, results);
    && Tallies(s, inventory, ids, results)
    && s.total == |ids|
    && s.total
       == s.passed + s.failed + s.skipped + s.errors + |Places(results, Xfail)| + |Places(results, Xpass)|
  }

  /**
   Accounting: when the executor returns one result per runnable id, the total is the number of
   requested ids, and it is the sum of the four counters and the uncounted xfail and xpass results.
   */
  lemma AccountingBalances(inventory: map<string, bool>, ids: seq<string>, results: seq<TestResult>)
    requires Names(results, Runnable(inventory, ids))
    ensures Balances(inventory, ids, results)
  {
    EveryIdOnce(inventory, ids);
    EveryOutcomeCounted(results);
    SummaryTallies(inventory, ids, results);
    CountIsNumber(results, Xfail);
    CountIsNumber(results, Xpass);
    assert |multiset(NodeIds(results))| == |results|;
    assert |multiset(Runnable(inventory, ids))| == |Runnable(inventory, ids)|;
  }

  lemma SummaryBalances(inventory: map<string, bool>, ids: seq<string>, results: seq<TestResult>)
    ensures Tallies(Summarized(inventory, ids, results), inventory, ids, results)
    ensures Names(results, Runnable(inventory, ids)) ==> Balances(inventory, ids, results)
  {
    SummaryTallies(inventory, ids, results);
    if Names(results, Runnable(inventory, ids)) {
      AccountingBalances(inventory, ids, results);
    }
  }

  /** With the subprocess executor the condition is met: by its sequential branch, */
  lemma SequentialAccounting(inventory: map<string, bool>, ids: seq<string>, size: nat, outputs: seq<string>)
    requires size > 0 && |outputs| == |Executor.Chunks(Runnable(inventory, ids), size)|
    ensures Balances(inventory, ids,
                     Executor.Sequential(Executor.Chunks(Runnable(inventory, ids), size), outputs, |outputs|))
  {
    Executor.SequentialReturnsAll(Runnable(inventory, ids), size, outputs);
    AccountingBalances(inventory, ids,
                       Executor.Sequential(Executor.Chunks(Runnable(inventory, ids), size), outputs, |outputs|));
  }

  /** and by its parallel branch, in whatever order the chunks complete. */
  lemma SubprocessAccounting(inventory: map<string, bool>, ids: seq<string>, size: nat, workers: nat,
                             outputs: seq<string>, trace: seq<Executor.Run>, k: nat)
    requires size > 0 && |outputs| == |Executor.Chunks(Runnable(inventory, ids), size)|
    requires Executor.IsTrace(trace, workers, Executor.Chunks(Runnable(inventory, ids), size), outputs) && k < |trace|
    requires trace[k].running == {} && trace[k].spawned == |outputs|
    ensures forall b: nat :: b < |outputs| ==> b in trace[k].finished
    ensures Balances(inventory, ids, Executor.Gather(trace[k].finished, |outputs|))
  {
    Executor.ParallelIsSequential(Runnable(inventory, ids), size, workers, outputs, trace, k);
    AccountingBalances(inventory, ids, Executor.Gather(trace[k].finished, |outputs|));
  }

  /** With the pooled executor it is met whichever workers fail, if the lines read for this run name each test once. */
  lemma PooledAccounting(inventory: map<string, bool>, ids: seq<string>, e: string -> nat, workers: nat,
                         run: seq<Pool.State>, handles: seq<PoolSafety.Handle>)
    requires Pool.IsRun(run) && PoolSafety.Joined(run, handles) && PoolSafety.AllAnsweredOnce(run, handles)
    requires PoolSafety.BatchesOf(handles) == PooledExecutor.Batches(e, Runnable(inventory, ids), workers)
    ensures Balances(inventory, ids, PoolSafety.Collected(run, handles))
  {
    PooledExecutor.PooledRunConserves(e, Runnable(inventory, ids), workers, run, handles);
    AccountingBalances(inventory, ids, PoolSafety.Collected(run, handles));
  }

  function Summarized(inventory: map<string, bool>, ids: seq<string>, results: seq<TestResult>): RunSummary {
    SummaryOf(results, PreSkipped(inventory, ids))
  }

  /** Tests that were not run are counted as skipped. */
  function SummaryOf(results: seq<TestResult>, preSkipped: nat): RunSummary {
    RunSummary(|results| + preSkipped, CountOf(results, Passed), CountOf(results, Failed),
               CountOf(results, Skipped) + preSkipped, CountOf(results, Error))
  }

  function Get<T>(m: map<string, seq<T>>, id: string): seq<T> {
    if id in m then m[id] else []
  }

  function Last<T>(s: seq<T>): T
    requires s != []
  {
    s[|s| - 1]
  }

  /** Keep the last `WINDOW` of a history that has grown by one. */
  function Pushed(history: seq<nat>, d: nat): seq<nat> {
    LastN(history + [d], WINDOW)
  }

  function RefreshedWindows(scheduled: map<string, seq<nat>>, durations: map<string, seq<nat>>): map<string, seq<nat>>
    requires forall id :: id in scheduled ==> id in durations && durations[id] != []
  {
    map id | id in scheduled :: Pushed(scheduled[id], Last(durations[id]))
  }

  function ToldAgain(told: map<string, seq<nat>>, durations: map<string, seq<nat>>): map<string, seq<nat>>
    requires forall id :: id in told ==> id in durations && durations[id] != []
  {
    map id | id in told :: told[id] + [Last(durations[id])]
  }

  /**
   The histories kept for the tests: all durations ever recorded, the context's window of them, the
   scheduler's own window, all that the scheduler was ever told, the outcomes, and everything the
   flakiness tracker was told.
   */
  datatype Histories = Histories(
    recorded: map<string, seq<nat>>, durations: map<string, seq<nat>>,
    scheduled: map<string, seq<nat>>, told: map<string, seq<nat>>,
    outcomes: map<string, seq<Outcome>>, events: map<string, seq<Event>>)
  {
    /** The same tests are known everywhere, and their histories agree. */
    ghost predicate InStep() {
      && durations.Keys == recorded.Keys && scheduled.Keys == recorded.Keys
      && told.Keys == recorded.Keys && outcomes.Keys == recorded.Keys && events.Keys == recorded.Keys
      && forall id :: id in recorded ==>
                        SameStory(recorded[id], durations[id], scheduled[id], told[id], outcomes[id], events[id])
    }

    /** The scheduler is told every latest duration once more. */
    function Refreshed(): Histories
      requires forall id :: id in scheduled || id in told ==> id in durations && durations[id] != []
    {
      this.(scheduled := RefreshedWindows(scheduled, durations), told := ToldAgain(told, durations))
    }

    function After(r: TestResult): Histories {
      Histories(recorded[r.nodeId := Get(recorded, r.nodeId) + [r.durationMs]],
                durations[r.nodeId := Pushed(Get(durations, r.nodeId), r.durationMs)],
                scheduled[r.nodeId := Pushed(Get(scheduled, r.nodeId), r.durationMs)],
                told[r.nodeId := Get(told, r.nodeId) + [r.durationMs]],
                outcomes[r.nodeId := Get(outcomes, r.nodeId) + [r.outcome]],
                events[r.nodeId := Get(events, r.nodeId) + [Event(r.outcome, r.message)]])
    }

    function AfterAll(results: seq<TestResult>): Histories {
      if results == [] then this else AfterAll(results[..|results| - 1]).After(results[|results| - 1])
    }
  }

  /** Both windows are the last ten of what they were told, and both have the same latest duration. */
  ghost predicate SameStory(recorded: seq<nat>, durations: seq<nat>, scheduled: seq<nat>, told: seq<nat>,
                            outcomes: seq<Outcome>, events: seq<Event>)
  {
    && recorded != [] && told != []
    && durations == LastN(recorded, 10)
    && scheduled == LastN(told, 10)
    && Last(told) == Last(recorded)
    && outcomes == Outcomes(events)
    && |outcomes| == |recorded|
  }

  lemma StoryLasts(recorded: seq<nat>, durations: seq<nat>, scheduled: seq<nat>, told: seq<nat>,
                   outcomes: seq<Outcome>, events: seq<Event>)
    requires SameStory(recorded, durations, scheduled, told, outcomes, events)
    ensures durations != [] && Last(durations) == Last(recorded)
    ensures scheduled != [] && Last(scheduled) == Last(recorded) && |scheduled| <= 10
  {
  }

  lemma StoryToldAgain(recorded: seq<nat>, durations: seq<nat>, scheduled: seq<nat>, told: seq<nat>,
                       outcomes: seq<Outcome>, events: seq<Event>)
    requires SameStory(recorded, durations, scheduled, told, outcomes, events)
    ensures durations != []
    ensures SameStory(recorded, durations, Pushed(scheduled, Last(durations)), told + [Last(durations)],
                      outcomes, events)
  {
    StoryLasts(recorded, durations, scheduled, told, outcomes, events);
    LastNPush(told, WINDOW, Last(durations));
  }

  lemma LatestKnown(h: Histories)
    requires h.InStep()
    ensures forall id :: id in h.recorded ==> h.durations[id] != [] && Last(h.durations[id]) == Last(h.recorded[id])
  {
    forall id | id in h.recorded
      ensures h.durations[id] != [] && Last(h.durations[id]) == Last(h.recorded[id])
    {
      StoryLasts(h.recorded[id], h.durations[id], h.scheduled[id], h.told[id], h.outcomes[id], h.events[id]);
    }
  }

  lemma RefreshedInStep(h: Histories)
    requires h.InStep()
    ensures forall id :: id in h.scheduled || id in h.told ==> id in h.durations && h.durations[id] != []
    ensures h.Refreshed().InStep()
  {
    LatestKnown(h);
    forall id | id in h.recorded
      ensures SameStory(h.recorded[id], h.durations[id], h.Refreshed().scheduled[id], h.Refreshed().told[id],
                        h.outcomes[id], h.events[id])
    {
      StoryToldAgain(h.recorded[id], h.durations[id], h.scheduled[id], h.told[id], h.outcomes[id], h.events[id]);
    }
  }

  /** One more result for a test, known or new. */
  lemma StoryGrows(h: Histories, r: TestResult)
    requires h.InStep()
    ensures var id, d := r.nodeId, r.durationMs;
            SameStory(Get(h.recorded, id) + [d], Pushed(Get(h.durations, id), d), Pushed(Get(h.scheduled, id), d),
                      Get(h.told, id) + [d], Get(h.outcomes, id) + [r.outcome],
                      Get(h.events, id) + [Event(r.outcome, r.message)])
  {
    var id, d := r.nodeId, r.durationMs;
    LastNPush(Get(h.recorded, id), WINDOW, d);
    LastNPush(Get(h.told, id), WINDOW, d);
    if id in h.recorded {
      assert SameStory(h.recorded[id], h.durations[id], h.scheduled[id], h.told[id], h.outcomes[id], h.events[id]);
    }
  }

  lemma AfterInStep(h: Histories, r: TestResult)
    requires h.InStep()
    ensures h.After(r).InStep()
  {
    StoryGrows(h, r);
  }

  /** Agreement survives any results whatever. */
  lemma {:induction false} AfterAllInStep(h: Histories, results: seq<TestResult>)
    requires h.InStep()
    ensures h.AfterAll(results).InStep()
  {
    if results != [] {
      AfterAllInStep(h, results[..|results| - 1]);
      AfterInStep(h.AfterAll(results[..|results| - 1]), results[|results| - 1]);
    }
  }

  /** Each history grows by exactly what the results say about its test, in order. */
  lemma {:induction false} DurationsAppend(h: Histories, results: seq<TestResult>, id: string)
    ensures Get(h.AfterAll(results).recorded, id) == Get(h.recorded, id) + DurationsOf(results, id)
  {
    if results != [] {
      DurationsAppend(h, results[..|results| - 1], id);
    }
  }

  lemma {:induction false} EventsAppend(h: Histories, results: seq<TestResult>, id: string)
    ensures Get(h.AfterAll(results).events, id) == Get(h.events, id) + EventsOf(results, id)
  {
    if results != [] {
      EventsAppend(h, results[..|results| - 1], id);
    }
  }

  lemma ResultsAppend(h: Histories, results: seq<TestResult>)
    ensures forall id :: Get(h.AfterAll(results).recorded, id) == Get(h.recorded, id) + DurationsOf(results, id)
    ensures forall id :: Get(h.AfterAll(results).events, id) == Get(h.events, id) + EventsOf(results, id)
  {
    forall id
      ensures Get(h.AfterAll(results).recorded, id) == Get(h.recorded, id) + DurationsOf(results, id)
      ensures Get(h.AfterAll(results).events, id) == Get(h.events, id) + EventsOf(results, id)
    {
      DurationsAppend(h, results, id);
      EventsAppend(h, results, id);
    }
  }

  lemma {:induction false} ToldAppend(h: Histories, results: seq<TestResult>, id: string)
    ensures Get(h.AfterAll(results).told, id) == Get(h.told, id) + DurationsOf(results, id)
    ensures id in h.recorded ==> id in h.AfterAll(results).recorded
    ensures id in h.told ==> id in h.AfterAll(results).told
  {
    if results != [] {
      ToldAppend(h, results[..|results| - 1], id);
    }
  }

  // ----- What repeated runs make of the scheduler's window

  /** One run: the scheduler is told every latest duration again, then the results are recorded. */
  ghost function AfterRun(h: Histories, results: seq<TestResult>): (h': Histories)
    requires h.InStep()
    ensures h'.InStep()
  {
    RefreshedInStep(h);
    AfterAllInStep(h.Refreshed(), results);
    h.Refreshed().AfterAll(results)
  }

  ghost function AfterRuns(h: Histories, runs: seq<seq<TestResult>>): (h': Histories)
    requires h.InStep()
    ensures h'.InStep()
  {
    if runs == [] then h else AfterRun(AfterRuns(h, runs[..|runs| - 1]), runs[|runs| - 1])
  }

  lemma RunAppends(h: Histories, results: seq<TestResult>)
    requires h.InStep()
    ensures forall id :: Get(AfterRun(h, results).recorded, id) == Get(h.recorded, id) + DurationsOf(results, id)
    ensures forall id :: Get(AfterRun(h, results).events, id) == Get(h.events, id) + EventsOf(results, id)
  {
    RefreshedInStep(h);
    ResultsAppend(h.Refreshed(), results);
  }

  /** The scheduler hears the latest duration of a known test once more in every run, before its results. */
  lemma RunTells(h: Histories, results: seq<TestResult>, id: string)
    requires h.InStep() && id in h.recorded
    ensures var h' := AfterRun(h, results);
            && id in h'.recorded
            && h'.recorded[id] == h.recorded[id] + DurationsOf(results, id)
            && h'.told[id] == h.told[id] + [Last(h.recorded[id])] + DurationsOf(results, id)
  {
    RefreshedInStep(h);
    LatestKnown(h);
    DurationsAppend(h.Refreshed(), results, id);
    ToldAppend(h.Refreshed(), results, id);
  }

  function Copies(d: nat, n: nat): seq<nat> {
    if n == 0 then [] else Copies(d, n - 1) + [d]
  }

  lemma {:induction false} CopiesAre(d: nat, n: nat)
    ensures |Copies(d, n)| == n && forall i :: 0 <= i < n ==> Copies(d, n)[i] == d
  {
    if n > 0 {
      CopiesAre(d, n - 1);
    }
  }

  /** No result of these runs is for `id`. */
  ghost predicate Idle(runs: seq<seq<TestResult>>, id: string) {
    forall k :: 0 <= k < |runs| ==> DurationsOf(runs[k], id) == []
  }

  lemma {:induction false} IdleRuns(h: Histories, runs: seq<seq<TestResult>>, id: string)
    requires h.InStep() && id in h.recorded && Idle(runs, id)
    ensures var h' := AfterRuns(h, runs);
            && id in h'.recorded && h'.recorded[id] == h.recorded[id]
            && h'.told[id] == h.told[id] + Copies(Last(h.recorded[id]), |runs|)
  {
    if runs != [] {
      var init := runs[..|runs| - 1];
      IdleRuns(h, init, id);
      RunTells(AfterRuns(h, init), runs[|runs| - 1], id);
      Associate(h.told[id], Copies(Last(h.recorded[id]), |init|), [Last(h.recorded[id])]);
    }
  }

  /** The last ten of anything followed by at least ten copies. */
  lemma LastAreCopies(s: seq<nat>, d: nat, n: nat)
    requires n >= 10
    ensures |LastN(s + Copies(d, n), 10)| == 10
    ensures forall i :: 0 <= i < 10 ==> LastN(s + Copies(d, n), 10)[i] == d
  {
    CopiesAre(d, n);
  }

  lemma InStepWindow(h: Histories, id: string)
    requires h.InStep() && id in h.recorded
    ensures id in h.scheduled && h.scheduled[id] == LastN(h.told[id], 10)
  {
    assert SameStory(h.recorded[id], h.durations[id], h.scheduled[id], h.told[id], h.outcomes[id], h.events[id]);
  }

  /** A full window of one duration is estimated as that duration. */
  lemma ConstantWindow(history: Durations, default: nat, id: string, d: nat, doubles: Doubles)
    requires id in history && |history[id]| == 10 && forall i :: 0 <= i < 10 ==> history[id][i] == d
    requires doubles.Right() && d < TWO_43
    ensures EstimateInFloats(doubles, history, default, id) == d
  {
    EstimateIsExact(doubles, history, default, id);
    EstimateBetween(history, default, id, d, d);
  }

  /**
   The scheduler forgets: after ten runs that do not include a known test, its window is ten copies of
   the test's last duration, and that duration is the estimate.
   */
  lemma IdleTestForgotten(h: Histories, runs: seq<seq<TestResult>>, id: string, doubles: Doubles, default: nat)
    requires h.InStep() && id in h.recorded && Idle(runs, id) && |runs| >= 10
    requires doubles.Right() && Last(h.recorded[id]) < TWO_43
    ensures var h' := AfterRuns(h, runs);
            && id in h'.scheduled && |h'.scheduled[id]| == 10
            && (forall i :: 0 <= i < 10 ==> h'.scheduled[id][i] == Last(h.recorded[id]))
            && EstimateInFloats(doubles, h'.scheduled, default, id) == Last(h.recorded[id])
  {
    IdleRuns(h, runs, id);
    InStepWindow(AfterRuns(h, runs), id);
    LastAreCopies(h.told[id], Last(h.recorded[id]), |runs|);
    ConstantWindow(AfterRuns(h, runs).scheduled, default, id, Last(h.recorded[id]), doubles);
  }

  lemma OneMoreResult(h: Histories, results: seq<TestResult>, k: nat)
    requires k < |results|
    ensures h.AfterAll(results[..k + 1]) == h.AfterAll(results[..k]).After(results[k])
    ensures forall o :: CountOf(results[..k + 1], o)
                        == CountOf(results[..k], o) + (if results[k].outcome == o then 1 else 0)
  {
    assert results[..k + 1][..k] == results[..k];
  }

  /** All windows but those of `todo` have been refreshed. */
  ghost predicate PartlyRefreshed(before: map<string, seq<nat>>, now: map<string, seq<nat>>,
                                  durations: map<string, seq<nat>>, todo: set<string>)
    requires forall id :: id in durations ==> durations[id] != []
  {
    && now.Keys == before.Keys == durations.Keys
    && forall id :: id in before ==>
                      now[id] == if id in todo then before[id] else Pushed(before[id], Last(durations[id]))
  }

  class RepoContext {
    var inventory: map<string, bool>
    var durationHistory: map<string, seq<nat>>
    var outcomeHistory: map<string, seq<Outcome>>
    const scheduler: TestScheduler
    const tracker: FlakinessTracker
    var totalRuns: nat
    /** Every duration ever recorded, and ever told to the scheduler, per test. */
    ghost var recorded: map<string, seq<nat>>
    ghost var told: map<string, seq<nat>>

    constructor (doubles: Doubles)
      ensures Valid() && fresh(scheduler) && fresh(tracker) && recorded == map[] && inventory == map[]
    {
      inventory, durationHistory, outcomeHistory, totalRuns := map[], map[], map[], 0;
      recorded, told := map[], map[];
      scheduler := new TestScheduler(doubles);
      tracker := new FlakinessTracker();
    }

    ghost function Kept(): Histories
      reads this`recorded, this`told, this`durationHistory, this`outcomeHistory, scheduler, tracker
    {
      Histories(recorded, durationHistory, scheduler.durationHistory, told, outcomeHistory, tracker.histories)
    }

    ghost predicate Valid()
      reads this`recorded, this`told, this`durationHistory, this`outcomeHistory, scheduler, tracker
    {
      tracker.Valid() && Kept().InStep()
    }

    /** The scheduler is told the latest duration of every known test. */
    method RefreshScheduler()
      requires Valid()
      modifies scheduler, this`told
      ensures forall id :: id in old(scheduler.durationHistory) || id in old(told) ==>
                             id in durationHistory && durationHistory[id] != []
      ensures Valid() && Kept() == old(Kept()).Refreshed()
    {
      RefreshedInStep(Kept());
      PushLatest();
      told := ToldAgain(told, durationHistory);
      assert Kept() == old(Kept()).Refreshed();
    }

    /** The loop over the duration histories. */
    method PushLatest()
      requires scheduler.durationHistory.Keys == durationHistory.Keys
      requires forall id :: id in durationHistory ==> durationHistory[id] != []
      modifies scheduler
      ensures scheduler.durationHistory == RefreshedWindows(old(scheduler.durationHistory), durationHistory)
    {
      ghost var before := scheduler.durationHistory;
      var todo := durationHistory.Keys;
      while todo != {}
        invariant todo <= durationHistory.Keys
        invariant PartlyRefreshed(before, scheduler.durationHistory, durationHistory, todo)
      {
        var id :| id in todo;
        PushOne(id);
        todo := todo - {id};
      }
    }

    method PushOne(id: string)
      requires id in durationHistory && durationHistory[id] != []
      modifies scheduler
      ensures scheduler.durationHistory
              == old(scheduler.durationHistory)[id := Pushed(Get(old(scheduler.durationHistory), id),
                                                             Last(durationHistory[id]))]
    {
      var durations := durationHistory[id];
      scheduler.UpdateDuration(id, durations[|durations| - 1]);
    }

    /** The window of durations kept by the context itself. */
    method RecordDuration(id: string, durationMs: nat)
      modifies this`durationHistory, this`recorded
      ensures durationHistory == old(durationHistory)[id := Pushed(Get(old(durationHistory), id), durationMs)]
      ensures recorded == old(recorded)[id := Get(old(recorded), id) + [durationMs]]
    {
      var entry := Get(durationHistory, id) + [durationMs];
      if |entry| > WINDOW {
        entry := entry[|entry| - WINDOW..];
      }
      durationHistory := durationHistory[id := entry];
      recorded := recorded[id := Get(recorded, id) + [durationMs]];
    }

    /** All that one result changes. */
    method RecordResult(result: TestResult)
      requires tracker.Valid()
      modifies this`durationHistory, this`outcomeHistory, this`recorded, this`told, scheduler, tracker
      ensures tracker.Valid() && Kept() == old(Kept()).After(result)
    {
      var id := result.nodeId;
      RecordDuration(id, result.durationMs);
      outcomeHistory := outcomeHistory[id := Get(outcomeHistory, id) + [result.outcome]];
      tracker.RecordOutcome(id, result.outcome, result.message);
      scheduler.UpdateDuration(id, result.durationMs);
      told := told[id := Get(told, id) + [result.durationMs]];
    }

    /** Expected failures, and expected failures that passed, are not counted. */
    static method Count(outcome: Outcome, passed: nat, failed: nat, skipped: nat, errors: nat)
      returns (passed': nat, failed': nat, skipped': nat, errors': nat)
      ensures passed' == passed + (if outcome == Passed then 1 else 0)
      ensures failed' == failed + (if outcome == Failed then 1 else 0)
      ensures skipped' == skipped + (if outcome == Skipped then 1 else 0)
      ensures errors' == errors + (if outcome == Error then 1 else 0)
    {
      passed', failed', skipped', errors' := passed, failed, skipped, errors;
      match outcome {
        case Passed => passed' := passed + 1;
        case Failed => failed' := failed + 1;
        case Skipped => skipped' := skipped + 1;
        case Error => errors' := errors + 1;
        case Xfail =>
        case Xpass =>
      }
    }

    /** The loop over the results: every result is recorded and counted. */
    method ProcessResults(results: seq<TestResult>) returns (passed: nat, failed: nat, skipped: nat, errors: nat)
      requires Valid()
      modifies this`durationHistory, this`outcomeHistory, this`recorded, this`told, scheduler, tracker
      ensures Valid() && Kept() == old(Kept()).AfterAll(results)
      ensures forall id :: Get(recorded, id) == Get(old(recorded), id) + DurationsOf(results, id)
      ensures forall id :: Get(tracker.histories, id) == Get(old(tracker.histories), id) + EventsOf(results, id)
      ensures passed == CountOf(results, Passed) && failed == CountOf(results, Failed)
      ensures skipped == CountOf(results, Skipped) && errors == CountOf(results, Error)
    {
      AfterAllInStep(Kept(), results);
      ResultsAppend(Kept(), results);
      passed, failed, skipped, errors := RecordAll(results);
    }

    method RecordAll(results: seq<TestResult>) returns (passed: nat, failed: nat, skipped: nat, errors: nat)
      requires tracker.Valid()
      modifies this`durationHistory, this`outcomeHistory, this`recorded, this`told, scheduler, tracker
      ensures tracker.Valid() && Kept() == old(Kept()).AfterAll(results)
      ensures passed == CountOf(results, Passed) && failed == CountOf(results, Failed)
      ensures skipped == CountOf(results, Skipped) && errors == CountOf(results, Error)
    {
      passed, failed, skipped, errors := 0, 0, 0, 0;
      for k := 0 to |results|
        invariant tracker.Valid() && Kept() == old(Kept()).AfterAll(results[..k])
        invariant passed == CountOf(results[..k], Passed) && failed == CountOf(results[..k], Failed)
        invariant skipped == CountOf(results[..k], Skipped) && errors == CountOf(results[..k], Error)
      {
        OneMoreResult(old(Kept()), results, k);
        RecordResult(results[k]);
        passed, failed, skipped, errors := Count(results[k].outcome, passed, failed, skipped, errors);
      }
      assert results[..|results|] == results;
    }

    /** Tests marked as skipped in the inventory are counted, all others are run. */
    method Partition(nodeIds: seq<string>) returns (runnable: seq<string>, preSkipped: nat)
      ensures runnable == Runnable(inventory, nodeIds) && preSkipped == PreSkipped(inventory, nodeIds)
    {
      runnable, preSkipped := [], 0;
      for k := 0 to |nodeIds|
        invariant runnable == Runnable(inventory, nodeIds[..k]) && preSkipped == PreSkipped(inventory, nodeIds[..k])
      {
        assert nodeIds[..k + 1][..k] == nodeIds[..k];
        if nodeIds[k] in inventory && inventory[nodeIds[k]] {
          preSkipped := preSkipped + 1;
        } else {
          runnable := runnable + [nodeIds[k]];
        }
      }
      assert nodeIds[..|nodeIds|] == nodeIds;
    }

    /** The runnable tests are executed, and their results recorded and counted. */
    method RunAndRecord(runnable: seq<string>, preSkipped: nat, execute: seq<string> -> seq<TestResult>)
      returns (summary: RunSummary)
      requires Valid()
      modifies this`durationHistory, this`outcomeHistory, this`recorded, this`told, scheduler, tracker
      ensures Valid() && Kept() == AfterRun(old(Kept()), execute(runnable))
      ensures summary == SummaryOf(execute(runnable), preSkipped)
    {
      RefreshScheduler();
      var results := execute(runnable);
      var passed, failed, skipped, errors := ProcessResults(results);
      skipped := skipped + preSkipped;
      summary := RunSummary(|results| + preSkipped, passed, failed, skipped, errors);
    }

    /**
     One run. `execute` says what the executor returns for the ids it is given; whatever that is, the
     context stays in step, and the summary balances if each of these ids has one result.
     */
    method RunTests(nodeIds: seq<string>, execute: seq<string> -> seq<TestResult>) returns (summary: RunSummary)
      requires Valid()
      modifies this, scheduler, tracker
      ensures Valid() && inventory == old(inventory) && totalRuns == old(totalRuns) + 1
      ensures var runnable := Runnable(inventory, nodeIds);
              var results := execute(runnable);
              && Kept() == AfterRun(old(Kept()), results)
              && summary == Summarized(inventory, nodeIds, results) && Tallies(summary, inventory, nodeIds, results)
              && (Names(results, runnable) ==> Balances(inventory, nodeIds, results))
              && (forall id :: Get(recorded, id) == Get(old(recorded), id) + DurationsOf(results, id))
              && (forall id :: Get(tracker.histories, id) == Get(old(tracker.histories), id) + EventsOf(results, id))
    {
      ghost var kept := Kept();
      totalRuns := totalRuns + 1;
      assert Kept() == kept;
      SummaryBalances(inventory, nodeIds, execute(Runnable(inventory, nodeIds)));
      RunAppends(kept, execute(Runnable(inventory, nodeIds)));
      var runnable, preSkipped := Partition(nodeIds);
      assert Kept() == kept;
      summary := RunAndRecord(runnable, preSkipped, execute);
    }
  }
}
