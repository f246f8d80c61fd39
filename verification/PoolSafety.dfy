/** What every run of the pool keeps: the theorems over `Pool`'s state machine. */
module PoolSafety {
  import opened Seqs
  import opened Models
  import opened WorkerPlugin
  import opened WorkerProtocol
  import opened Pool

  // ----- Ownership and size

  function InFlight(tasks: seq<Task>): nat {
    if tasks == [] then 0
    else InFlight(tasks[..|tasks| - 1])
         + (if tasks[|tasks| - 1].pc.Start? || tasks[|tasks| - 1].pc.Finished? then 0 else 1)
  }

  /** One owner: one place in the pool and no task, or one task and no place in the pool. */
  ghost predicate OwnedOnce(s: State, p: Pid) {
    if p in s.available then
      && (exists i :: 0 <= i < |s.available| && s.available[i] == p)
      && (forall i, j ::
            0 <= i < |s.available| && 0 <= j < |s.available| && s.available[i] == p == s.available[j] ==> i == j)
      && !HeldBySome(s, p)
    else
      && HeldBySome(s, p)
      && (forall i, j ::
            0 <= i < |s.tasks| && 0 <= j < |s.tasks| && Holds(s.tasks[i]) == Some(p) == Holds(s.tasks[j]) ==> i == j)
  }

  /** Everything the pool promises about a single state. */
  ghost predicate Safe(s: State) {
    && |s.available| <= s.size
    && (forall p :: p in s.workers ==> OwnedOnce(s, p))
    && (forall p :: p in s.available ==>
                      p in s.workers && s.workers[p].state.Ready? && s.workers[p].runCount < 100)
    && |s.workers| <= s.size + InFlight(s.tasks)
    && (forall p :: p in s.workers && s.workers[p].state.Ready? ==>
                      && s.workers[p].toPython == [] && s.workers[p].toRust == []
                      && Idle(s.workers[p].python, s.workers[p].runCount) && s.workers[p].runCount < 100)
    && (forall p :: p in s.workers && s.workers[p].state.Busy? && s.workers[p].toRust != [] ==>
                      || IsDoneFor(s.workers[p].toRust[0], s.workers[p].runCount, s.workers[p].batch)
                      || IsErrorFor(s.workers[p].toRust[0], s.workers[p].runCount, s.workers[p].batch))
  }

  function Held(tasks: seq<Task>): set<Pid> {
    if tasks == [] then {}
    else Held(tasks[..|tasks| - 1])
         + (if Holds(tasks[|tasks| - 1]).Some? then {Holds(tasks[|tasks| - 1]).value} else {})
  }

  lemma {:induction false} HeldAtMostInFlight(tasks: seq<Task>)
    ensures |Held(tasks)| <= InFlight(tasks)
    ensures forall i :: 0 <= i < |tasks| && Holds(tasks[i]).Some? ==> Holds(tasks[i]).value in Held(tasks)
  {
    if tasks != [] {
      HeldAtMostInFlight(tasks[..|tasks| - 1]);
    }
  }

  lemma {:induction false} MembersAtMost(ps: seq<Pid>)
    ensures |Members(ps)| <= |ps|
  {
    if ps != [] {
      MembersAtMost(ps[..|ps| - 1]);
      assert Members(ps) == Members(ps[..|ps| - 1]) + {ps[|ps| - 1]};
    }
  }

  lemma SubsetSize(a: set<Pid>, b: set<Pid>)
    requires a <= b
    ensures |a| <= |b|
  {
    assert b == a + (b - a);
    assert a !! (b - a);
  }

  lemma LiveWorkers(s: State)
    requires Inv(s)
    ensures |s.workers| <= s.size + InFlight(s.tasks)
  {
    HeldAtMostInFlight(s.tasks);
    MembersAtMost(s.available);
    forall p | p in s.workers.Keys
      ensures p in Members(s.available) + Held(s.tasks)
    {
      if p !in s.available {
        var i :| 0 <= i < |s.tasks| && Holds(s.tasks[i]) == Some(p);
      }
    }
    SubsetSize(s.workers.Keys, Members(s.available) + Held(s.tasks));
    assert |s.workers| == |s.workers.Keys|;
  }

  lemma OneOwner(s: State, p: Pid)
    requires Inv(s) && p in s.workers
    ensures OwnedOnce(s, p)
  {
    if p in s.available {
      assert !HeldBySome(s, p);
    } else {
      assert HeldBySome(s, p);
    }
  }

  /** Safety of every state of every run: any number of callers, any interleaving, any failures. */
  lemma EveryStateSafe(run: seq<State>, k: nat)
    requires IsRun(run) && k < |run|
    ensures Safe(run[k])
  {
    var s := run[k];
    RunInv(run, k);
    LiveWorkers(s);
    forall p | p in s.workers
      ensures OwnedOnce(s, p)
    {
      OneOwner(s, p);
    }
    forall p | p in s.workers && s.workers[p].state.Busy? && s.workers[p].toRust != []
      ensures || IsDoneFor(s.workers[p].toRust[0], s.workers[p].runCount, s.workers[p].batch)
              || IsErrorFor(s.workers[p].toRust[0], s.workers[p].runCount, s.workers[p].batch)
    {
      ReplyIsOwn(s.workers[p]);
    }
  }

  /** Every worker that survives a step keeps its state or follows an edge `transition_to` accepts. */
  lemma EveryTransitionLegal(run: seq<State>, k: nat, p: Pid)
    requires IsRun(run) && k + 1 < |run| && p in run[k].workers && p in run[k + 1].workers
    ensures var from, next := run[k].workers[p].state, run[k + 1].workers[p].state;
            from == next || TransitionOk(from, next)
  {
    RunInv(run, k);
    assert Next(run[k], run[k + 1]);
    var step :| NextBy(run[k], run[k + 1], step);
    if step.HandshakeStep? || step.WriteStep? || step.ReadStep? || step.RunFailStep? {
      OwnWorkerStepLegal(run[k], run[k + 1], step, p);
    } else {
      OtherStepKeepsState(run[k], run[k + 1], step, p);
    }
  }

  lemma OwnWorkerStepLegal(s: State, s': State, step: Step, p: Pid)
    requires Inv(s) && NextBy(s, s', step) && p in s.workers && p in s'.workers
    requires step.HandshakeStep? || step.WriteStep? || step.ReadStep? || step.RunFailStep?
    ensures s.workers[p].state == s'.workers[p].state || TransitionOk(s.workers[p].state, s'.workers[p].state)
  {
    assert Holds(s.tasks[step.i]) == Some(s.tasks[step.i].pc.pid);
    if step.ReadStep? {
      EndRunLockstep(s.workers[s.tasks[step.i].pc.pid]);
    }
  }

  lemma OtherStepKeepsState(s: State, s': State, step: Step, p: Pid)
    requires Inv(s) && NextBy(s, s', step) && p in s.workers && p in s'.workers
    requires !(step.HandshakeStep? || step.WriteStep? || step.ReadStep? || step.RunFailStep?)
    ensures s.workers[p].state == s'.workers[p].state
  {
    assert s.nextPid !in s.workers;
    if step.RefillStep? {
      AddWorkersKeep(SetPc(s, step.i, Finished(s.tasks[step.i].pc.outcome)), step.spawned, p);
    }
  }

  lemma {:induction false} AddWorkersKeep(s: State, n: nat, p: Pid)
    requires forall q :: q in s.workers ==> q < s.nextPid
    requires p in s.workers
    ensures p in AddWorkers(s, n).workers && AddWorkers(s, n).workers[p] == s.workers[p]
    ensures AddWorkers(s, n).nextPid >= s.nextPid
  {
    if n > 0 {
      AddWorkersKeep(s, n - 1, p);
    }
  }

  /** In every run, `acquire` never meets a pooled worker that has to be recycled or is not ready. */
  lemma AcquireBranchesUnreachable(run: seq<State>, k: nat, lost: set<Pid>)
    requires IsRun(run) && k < |run|
    ensures forall p :: p in run[k].available ==> p in run[k].workers
    ensures forall d :: d in Acquire(run[k].available, run[k].workers, lost).dropped ==> d.1 == ProcessGone
    ensures Acquire(run[k].available, run[k].workers, lost).found.Some? <==>
            exists p :: p in run[k].available && run[k].workers[p].alive && p !in lost
  {
    RunInv(run, k);
    AcquireDropsOnlyTheGone(run[k].available, run[k].workers, lost);
  }

  // ----- Where a result comes from

  predicate HasOutcome(t: Task) {
    t.pc.Releasing? || t.pc.Refilling? || t.pc.Finished?
  }

  /** The next line that task `i` will read. */
  ghost predicate Faces(s: State, i: nat, line: Reply) {
    && i < |s.tasks| && s.tasks[i].pc.Awaiting? && s.tasks[i].pc.pid in s.workers
    && s.workers[s.tasks[i].pc.pid].toRust != [] && s.workers[s.tasks[i].pc.pid].toRust[0] == line
  }

  /** Between states `j` and `j + 1` task `i` reads `line`, a done line, and takes its results. */
  ghost predicate ReadsDone(run: seq<State>, j: nat, i: nat, line: Reply) {
    && j + 1 < |run| && Faces(run[j], i, line) && line.DoneLine?
    && i < |run[j + 1].tasks| && HasOutcome(run[j + 1].tasks[i])
    && run[j + 1].tasks[i].pc.outcome == Ok(Logged(line.reports))
  }

  /** The batch has results without having read any line, which only an empty batch has. */
  predicate NothingToDo(t: Task) {
    HasOutcome(t) && t.tests == [] && t.pc.outcome == Ok([])
  }

  predicate SameOutcome(t: Task, t': Task) {
    HasOutcome(t) && HasOutcome(t') && t.tests == t'.tests && t.pc.outcome == t'.pc.outcome
    && (t.pc.Finished? ==> t'.pc.Finished?)
  }

  lemma {:induction false} AddWorkersTasks(s: State, n: nat)
    ensures AddWorkers(s, n).tasks == s.tasks
  {
    if n > 0 {
      AddWorkersTasks(s, n - 1);
    }
  }

  lemma OutcomeKeptByStep(s: State, s': State, step: Step, i: nat)
    requires NextBy(s, s', step) && i < |s.tasks| && HasOutcome(s.tasks[i])
    ensures i < |s'.tasks| && SameOutcome(s.tasks[i], s'.tasks[i])
  {
    if step.RefillStep? {
      AddWorkersTasks(SetPc(s, step.i, Finished(s.tasks[step.i].pc.outcome)), step.spawned);
    }
  }

  lemma OutcomeStays(s: State, s': State, i: nat)
    requires Next(s, s') && i < |s.tasks| && HasOutcome(s.tasks[i])
    ensures i < |s'.tasks| && SameOutcome(s.tasks[i], s'.tasks[i])
  {
    var step :| NextBy(s, s', step);
    OutcomeKeptByStep(s, s', step, i);
  }

  /** What a batch has returned never changes, however the run goes on. */
  lemma {:induction false} OutcomeForever(run: seq<State>, k: nat, k': nat, i: nat)
    requires IsRun(run) && k <= k' < |run| && i < |run[k].tasks| && HasOutcome(run[k].tasks[i])
    ensures i < |run[k'].tasks| && SameOutcome(run[k].tasks[i], run[k'].tasks[i])
    decreases k' - k
  {
    if k < k' {
      RunStep(run, k);
      OutcomeStays(run[k], run[k + 1], i);
      OutcomeForever(run, k + 1, k', i);
    }
  }

  /** A step gives a batch its results only by reading a done line that carries exactly its tests. */
  lemma OutcomeArises(s: State, s': State, step: Step, i: nat)
    requires Inv(s) && NextBy(s, s', step)
    requires i < |s'.tasks| && HasOutcome(s'.tasks[i]) && s'.tasks[i].pc.outcome.Ok?
    ensures i < |s.tasks| && s.tasks[i].tests == s'.tasks[i].tests
    ensures HasOutcome(s.tasks[i]) || NothingToDo(s'.tasks[i])
            || exists line :: Faces(s, i, line) && line.DoneLine? && line.tests == s'.tasks[i].tests
                              && s'.tasks[i].pc.outcome == Ok(Logged(line.reports))
  {
    if step.ReadStep? && i == step.i {
      assert Holds(s.tasks[i]) == Some(s.tasks[i].pc.pid);
      var w := s.workers[s.tasks[i].pc.pid];
      ReplyIsOwn(w);
      assert Faces(s, i, w.toRust[0]);
    } else if step.RefillStep? {
      AddWorkersTasks(SetPc(s, step.i, Finished(s.tasks[step.i].pc.outcome)), step.spawned);
    }
  }

  /** Between two states of a run: a batch with results had them before, or has just read them. */
  lemma OutcomeBefore(s: State, s': State, i: nat)
    requires Inv(s) && Next(s, s')
    requires i < |s'.tasks| && HasOutcome(s'.tasks[i]) && s'.tasks[i].pc.outcome.Ok?
    ensures i < |s.tasks| && s.tasks[i].tests == s'.tasks[i].tests
    ensures (HasOutcome(s.tasks[i]) && SameOutcome(s.tasks[i], s'.tasks[i])) || NothingToDo(s'.tasks[i])
            || exists line :: Faces(s, i, line) && line.DoneLine? && line.tests == s'.tasks[i].tests
                              && s'.tasks[i].pc.outcome == Ok(Logged(line.reports))
  {
    var step :| NextBy(s, s', step);
    OutcomeArises(s, s', step, i);
    if HasOutcome(s.tasks[i]) {
      OutcomeKeptByStep(s, s', step, i);
    }
  }

  /**
   Provenance: in any run, the results of a batch with tests are the log of a done line that the batch
   has read from its worker and that carries exactly its tests.
   */
  lemma {:induction false} ResultsAreDelivered(run: seq<State>, k: nat, i: nat) returns (j: nat, line: Reply)
    requires IsRun(run) && k < |run| && i < |run[k].tasks| && HasOutcome(run[k].tasks[i])
    requires run[k].tasks[i].pc.outcome.Ok? && !NothingToDo(run[k].tasks[i])
    ensures j < k && ReadsDone(run, j, i, line) && line.tests == run[k].tasks[i].tests
    ensures run[k].tasks[i].pc.outcome == Ok(Logged(line.reports))
  {
    if k == 0 {
      InitialInv(run[0]);
    } else {
      RunInv(run, k - 1);
      RunStep(run, k - 1);
      OutcomeBefore(run[k - 1], run[k], i);
      if HasOutcome(run[k - 1].tasks[i]) {
        j, line := ResultsAreDelivered(run, k - 1, i);
      } else {
        j := k - 1;
        line :| Faces(run[k - 1], i, line) && line.DoneLine? && line.tests == run[k].tasks[i].tests
                && run[k].tasks[i].pc.outcome == Ok(Logged(line.reports));
      }
    }
  }

  // ----- Conservation

  /** What `execute_batch` returns: the reported results, or one error per test, in order. */
  function Output(t: Task): seq<TestResult>
    requires t.pc.Finished?
  {
    match t.pc.outcome
    case Ok(results) => results
    case Err(message) => ErrorForEach(t.tests, message)
  }

  function ErrorForEach(tests: seq<string>, message: string): seq<TestResult> {
    seq(|tests|, i requires 0 <= i < |tests| => TestResult(tests[i], Error, 0, Some(message)))
  }

  /** Whatever done line batch `i` reads, the log in it names each test of the batch once. */
  ghost predicate AnsweredOnce(run: seq<State>, i: nat) {
    forall j: nat, line :: ReadsDone(run, j, i, line) ==> Names(Logged(line.reports), run[j].tasks[i].tests)
  }

  /** A finished batch conserves its tests if and only if the done line it has read, if any, does. */
  lemma BatchConservesExactly(run: seq<State>, k: nat, i: nat)
    requires IsRun(run) && k < |run| && i < |run[k].tasks| && run[k].tasks[i].pc.Finished?
    ensures Names(Output(run[k].tasks[i]), run[k].tasks[i].tests) <==> AnsweredOnce(run, i)
  {
    var t := run[k].tasks[i];
    forall j: nat, line | ReadsDone(run, j, i, line)
      ensures t.tests == run[j].tasks[i].tests && t.pc.outcome == Ok(Logged(line.reports))
    {
      ReadBeforeFinish(run, j, k, i, line);
    }
    if t.pc.outcome.Err? {
      assert NodeIds(Output(t)) == t.tests;
    } else if NothingToDo(t) {
      assert NodeIds([]) == [];
    } else {
      var j, line := ResultsAreDelivered(run, k, i);
    }
  }

  lemma ReadBeforeFinish(run: seq<State>, j: nat, k: nat, i: nat, line: Reply)
    requires IsRun(run) && k < |run| && i < |run[k].tasks| && run[k].tasks[i].pc.Finished?
    requires ReadsDone(run, j, i, line)
    ensures run[k].tasks[i].tests == run[j].tasks[i].tests
    ensures run[k].tasks[i].pc.outcome == Ok(Logged(line.reports))
  {
    if k <= j {
      OutcomeForever(run, k, j, i);
    } else {
      OutcomeForever(run, j + 1, k, i);
      RunInv(run, j);
      assert Next(run[j], run[j + 1]);
      var step :| NextBy(run[j], run[j + 1], step);
      OutcomeArises(run[j], run[j + 1], step, i);
    }
  }

  /** One handle of an `execute_parallel` call: its task, its batch and the state in which it is joined. */
  datatype Handle = Handle(task: nat, batch: seq<string>, joined: nat)

  function BatchesOf(handles: seq<Handle>): seq<seq<string>> {
    seq(|handles|, b requires 0 <= b < |handles| => handles[b].batch)
  }

  /** The batch of `h` has finished by the time it is joined. */
  ghost predicate JoinedAt(run: seq<State>, h: Handle) {
    && h.joined < |run| && h.task < |run[h.joined].tasks|
    && run[h.joined].tasks[h.task].tests == h.batch && run[h.joined].tasks[h.task].pc.Finished?
  }

  ghost predicate Joined(run: seq<State>, handles: seq<Handle>) {
    forall b :: 0 <= b < |handles| ==> JoinedAt(run, handles[b])
  }

  ghost function Result(run: seq<State>, h: Handle): seq<TestResult>
    requires JoinedAt(run, h)
  {
    Output(run[h.joined].tasks[h.task])
  }

  /** The results collected handle by handle. */
  ghost function Collected(run: seq<State>, handles: seq<Handle>): seq<TestResult>
    requires Joined(run, handles)
  {
    if handles == [] then []
    else Collected(run, handles[..|handles| - 1]) + Result(run, handles[|handles| - 1])
  }

  ghost predicate AllAnsweredOnce(run: seq<State>, handles: seq<Handle>) {
    forall b :: 0 <= b < |handles| ==> AnsweredOnce(run, handles[b].task)
  }

  lemma LastBatch(handles: seq<Handle>)
    requires handles != []
    ensures Flatten(BatchesOf(handles))
            == Flatten(BatchesOf(handles[..|handles| - 1])) + handles[|handles| - 1].batch
  {
    assert BatchesOf(handles)[..|handles| - 1] == BatchesOf(handles[..|handles| - 1]);
  }

  /**
   Conservation: whatever the interleaving and whichever workers or spawns fail, the results collected
   for a call name every requested test once, provided the done lines read by its own batches do; the
   lines read for other callers do not matter.
   */
  lemma {:induction false} ParallelRunConserves(run: seq<State>, handles: seq<Handle>)
    requires IsRun(run) && Joined(run, handles) && AllAnsweredOnce(run, handles)
    ensures Names(Collected(run, handles), Flatten(BatchesOf(handles)))
  {
    if handles == [] {
      assert NodeIds([]) == [];
    } else {
      var init, last := handles[..|handles| - 1], handles[|handles| - 1];
      ParallelRunConserves(run, init);
      BatchConservesExactly(run, last.joined, last.task);
      LastBatch(handles);
      NamesConcat(Collected(run, init), Result(run, last), Flatten(BatchesOf(init)), last.batch);
    }
  }

  lemma NamesConcat(a: seq<TestResult>, b: seq<TestResult>, s: seq<string>, t: seq<string>)
    ensures Names(a, s) && Names(b, t) ==> Names(a + b, s + t)
    ensures AtLeastNames(a, s) && AtLeastNames(b, t) ==> AtLeastNames(a + b, s + t)
    ensures AtLeastNames(a, s) && AtLeastNames(b, t) && Names(a + b, s + t) ==> Names(a, s) && Names(b, t)
  {
    NodeIdsConcat(a, b);
    SumsEqual(multiset(NodeIds(a)), multiset(NodeIds(b)), multiset(s), multiset(t));
  }

  lemma SumsEqual(a: multiset<string>, b: multiset<string>, s: multiset<string>, t: multiset<string>)
    ensures s <= a && t <= b ==> s + t <= a + b
    ensures s <= a && t <= b && a + b == s + t ==> a == s && b == t
  {
    if s <= a && t <= b && a + b == s + t {
      forall x
        ensures a[x] == s[x] && b[x] == t[x]
      {
        assert (a + b)[x] == a[x] + b[x] && (s + t)[x] == s[x] + t[x];
      }
    }
  }

  /** No batch of the call comes back with a test missing. */
  ghost predicate NoneMissing(run: seq<State>, handles: seq<Handle>)
    requires Joined(run, handles)
  {
    forall b :: 0 <= b < |handles| ==> AtLeastNames(Result(run, handles[b]), handles[b].batch)
  }

  /**
   Exactly then, as long as no batch comes back with a test missing: the call conserves its tests if
   and only if each done line that one of its batches has read names each test once.
   */
  lemma {:induction false} ParallelRunExactly(run: seq<State>, handles: seq<Handle>)
    requires IsRun(run) && Joined(run, handles) && NoneMissing(run, handles)
    ensures AtLeastNames(Collected(run, handles), Flatten(BatchesOf(handles)))
    ensures Names(Collected(run, handles), Flatten(BatchesOf(handles))) <==> AllAnsweredOnce(run, handles)
  {
    if handles == [] {
      assert NodeIds([]) == [];
    } else {
      var init, last := handles[..|handles| - 1], handles[|handles| - 1];
      ParallelRunExactly(run, init);
      BatchConservesExactly(run, last.joined, last.task);
      LastBatch(handles);
      NamesConcat(Collected(run, init), Result(run, last), Flatten(BatchesOf(init)), last.batch);
      LastAnsweredOnce(run, handles);
    }
  }

  /** Without that, two wrong batches can make up for each other. */
  lemma SwappedExample(a: TestResult, b: TestResult)
    requires a.nodeId != b.nodeId
    ensures Names([b] + [a], [a.nodeId] + [b.nodeId])
    ensures !Names([b], [a.nodeId]) && !AtLeastNames([b], [a.nodeId])
  {
    assert NodeIds([b] + [a]) == [b.nodeId, a.nodeId];
    assert NodeIds([b]) == [b.nodeId];
    assert multiset([a.nodeId])[a.nodeId] > 0;
  }

  lemma LastAnsweredOnce(run: seq<State>, handles: seq<Handle>)
    requires handles != []
    ensures AllAnsweredOnce(run, handles) <==>
            AllAnsweredOnce(run, handles[..|handles| - 1]) && AnsweredOnce(run, handles[|handles| - 1].task)
  {
  }

  // ----- The condition in terms of what pytest does

  /** Whatever done line batch `i` reads, pytest's runner has run each test of the batch once for it. */
  ghost predicate RunByPytest(run: seq<State>, i: nat) {
    forall j: nat, line :: ReadsDone(run, j, i, line) ==> FromRunner(line.reports, run[j].tasks[i].tests)
  }

  ghost predicate NoTeardownFails(run: seq<State>, i: nat) {
    forall j: nat, line :: ReadsDone(run, j, i, line) ==> TeardownsSucceed(line.reports)
  }

  lemma AnsweredOnceExactly(run: seq<State>, i: nat)
    requires RunByPytest(run, i)
    ensures AnsweredOnce(run, i) <==> NoTeardownFails(run, i)
  {
    forall j: nat, line | ReadsDone(run, j, i, line)
      ensures Names(Logged(line.reports), run[j].tasks[i].tests) <==> TeardownsSucceed(line.reports)
    {
      RunnerExactly(line.reports, run[j].tasks[i].tests);
    }
  }

  lemma NothingMissing(run: seq<State>, h: Handle)
    requires IsRun(run) && JoinedAt(run, h) && RunByPytest(run, h.task)
    ensures AtLeastNames(Result(run, h), h.batch)
  {
    var t := run[h.joined].tasks[h.task];
    if t.pc.outcome.Err? {
      assert NodeIds(Output(t)) == t.tests;
    } else if !NothingToDo(t) {
      var j, line := ResultsAreDelivered(run, h.joined, h.task);
      ReadBeforeFinish(run, j, h.joined, h.task, line);
      RunnerExactly(line.reports, run[j].tasks[h.task].tests);
    }
  }

  /**
   Under pytest's runner a call conserves its tests if and only if no test fails in its teardown: that
   is the one way in which a test is reported twice.
   */
  lemma ParallelRunUnderPytest(run: seq<State>, handles: seq<Handle>)
    requires IsRun(run) && Joined(run, handles)
    requires forall b :: 0 <= b < |handles| ==> RunByPytest(run, handles[b].task)
    ensures AtLeastNames(Collected(run, handles), Flatten(BatchesOf(handles)))
    ensures Names(Collected(run, handles), Flatten(BatchesOf(handles))) <==>
            forall b :: 0 <= b < |handles| ==> NoTeardownFails(run, handles[b].task)
  {
    forall b | 0 <= b < |handles|
      ensures AtLeastNames(Result(run, handles[b]), handles[b].batch)
      ensures AnsweredOnce(run, handles[b].task) <==> NoTeardownFails(run, handles[b].task)
    {
      NothingMissing(run, handles[b]);
      AnsweredOnceExactly(run, handles[b].task);
    }
    ParallelRunExactly(run, handles);
  }

  // ----- Which answers become which results

  /** Reading a done line gives the batch its log, reading an error line a worker error. */
  lemma ReadAnswers(s: State, s': State, i: nat, line: Reply)
    requires Inv(s) && NextBy(s, s', ReadStep(i)) && Faces(s, i, line)
    ensures line.DoneLine? || line.ErrorLine?
    ensures HasOutcome(s'.tasks[i])
    ensures line.DoneLine? ==> s'.tasks[i].pc.outcome == Ok(Logged(line.reports))
    ensures line.ErrorLine? ==> s'.tasks[i].pc.outcome == Err("Worker error: " + line.message)
  {
    assert Holds(s.tasks[i]) == Some(s.tasks[i].pc.pid);
    ReplyIsOwn(s.workers[s.tasks[i].pc.pid]);
  }

  /** How a batch fails: no process or no handshake exhausts the pool, anything later is a worker error. */
  lemma FailureAnswers(s: State, s': State, i: nat, reason: string)
    requires i < |s.tasks|
    ensures NextBy(s, s', SpawnStep(i, false, reason)) || NextBy(s, s', HandshakeStep(i, false, reason)) ==>
              s'.tasks[i].pc == Finished(Err("Worker pool exhausted: " + reason))
    ensures NextBy(s, s', RunFailStep(i, reason)) ==>
              HasOutcome(s'.tasks[i]) && s'.tasks[i].pc.outcome == Err("Worker error: " + reason)
  {
  }

  /** An empty batch is finished at once and leaves the pool alone. */
  lemma EmptyBatchIsFree(s: State, s': State, i: nat, lost: set<Pid>)
    requires NextBy(s, s', AcquireStep(i, lost)) && s.tasks[i].tests == []
    ensures s'.available == s.available && s'.workers == s.workers
    ensures s'.tasks[i].pc == Finished(Ok([]))
  {
  }

  predicate Explained(message: string) {
    "Worker pool exhausted: " <= message || "Worker error: " <= message
  }

  ghost predicate ErrorsExplained(s: State) {
    forall i :: 0 <= i < |s.tasks| && HasOutcome(s.tasks[i]) && s.tasks[i].pc.outcome.Err? ==>
                  Explained(s.tasks[i].pc.outcome.message)
  }

  lemma ErrorArises(s: State, s': State, step: Step, i: nat)
    requires ErrorsExplained(s) && NextBy(s, s', step)
    requires i < |s'.tasks| && HasOutcome(s'.tasks[i]) && s'.tasks[i].pc.outcome.Err?
    ensures Explained(s'.tasks[i].pc.outcome.message)
  {
    if step.RefillStep? {
      AddWorkersTasks(SetPc(s, step.i, Finished(s.tasks[step.i].pc.outcome)), step.spawned);
    }
  }

  lemma ErrorsExplainedNext(s: State, s': State)
    requires ErrorsExplained(s) && Next(s, s')
    ensures ErrorsExplained(s')
  {
    var step :| NextBy(s, s', step);
    forall i | 0 <= i < |s'.tasks| && HasOutcome(s'.tasks[i]) && s'.tasks[i].pc.outcome.Err?
      ensures Explained(s'.tasks[i].pc.outcome.message)
    {
      ErrorArises(s, s', step, i);
    }
  }

  /** Every failed batch says whether the pool was exhausted or its worker erred. */
  lemma {:induction false} EveryErrorExplained(run: seq<State>, k: nat)
    requires IsRun(run) && k < |run|
    ensures ErrorsExplained(run[k])
  {
    if k == 0 {
      InitialInv(run[0]);
    } else {
      EveryErrorExplained(run, k - 1);
      RunStep(run, k - 1);
      ErrorsExplainedNext(run[k - 1], run[k]);
    }
  }

  /** Whatever done line batch `i` reads, it stems from a session in which every test passes. */
  ghost predicate AllPassFor(run: seq<State>, i: nat) {
    forall j: nat, line :: ReadsDone(run, j, i, line) ==> PassingSession(line.reports)
  }

  ghost predicate PassingSession(reports: seq<Report>) {
    exists items :: reports == Session(items) && forall k :: 0 <= k < |items| ==> Passes(items[k])
  }

  lemma PassingBatch(run: seq<State>, h: Handle)
    requires IsRun(run) && JoinedAt(run, h) && AllPassFor(run, h.task)
    requires run[h.joined].tasks[h.task].pc.outcome.Ok?
    ensures forall r :: r in Result(run, h) ==> r.outcome == Passed
  {
    if !NothingToDo(run[h.joined].tasks[h.task]) {
      var j, line := ResultsAreDelivered(run, h.joined, h.task);
      var items :| line.reports == Session(items) && forall k :: 0 <= k < |items| ==> Passes(items[k]);
      AllPassing(items);
    }
  }

  /** A call in which no batch fails and every test passes returns only passes. */
  lemma {:induction false} PassingRun(run: seq<State>, handles: seq<Handle>)
    requires IsRun(run) && Joined(run, handles)
    requires forall b :: 0 <= b < |handles| ==>
                           && AllPassFor(run, handles[b].task)
                           && run[handles[b].joined].tasks[handles[b].task].pc.outcome.Ok?
    ensures forall r :: r in Collected(run, handles) ==> r.outcome == Passed
  {
    if handles != [] {
      PassingRun(run, handles[..|handles| - 1]);
      PassingBatch(run, handles[|handles| - 1]);
    }
  }

  /** A failed batch contributes exactly one error per test, in order, each with the batch's message. */
  lemma FailedBatchErrs(run: seq<State>, h: Handle)
    requires IsRun(run) && JoinedAt(run, h) && run[h.joined].tasks[h.task].pc.outcome.Err?
    ensures |Result(run, h)| == |h.batch|
    ensures forall k :: 0 <= k < |h.batch| ==>
                          && Result(run, h)[k].nodeId == h.batch[k] && Result(run, h)[k].outcome == Error
                          && Result(run, h)[k].durationMs == 0
                          && Result(run, h)[k].message.Some? && Explained(Result(run, h)[k].message.value)
  {
    EveryErrorExplained(run, h.joined);
  }

  // ----- Runs that succeed

  lemma OneMoreStep(run: seq<State>, s: State, step: Step)
    requires IsRun(run) && NextBy(run[|run| - 1], s, step)
    ensures IsRun(run + [s])
  {
    var longer := run + [s];
    forall k | 0 <= k < |longer| - 1
      ensures Next(longer[k], longer[k + 1])
    {
      if k < |run| - 1 {
        assert longer[k] == run[k] && longer[k + 1] == run[k + 1];
      } else {
        assert NextBy(longer[k], longer[k + 1], step);
      }
    }
  }

  /** The state of a pool of one place with one task at `pc`, and worker 0 in the hands of the task. */
  function OneTask(tests: seq<string>, pc: Pc, w: Worker): State {
    State(1, [], map[0 := w], [Task(tests, pc)], 1)
  }

  /** A worker process starts, reports ready and imports pytest: the batch gets as far as holding it. */
  lemma BatchCanStart(tests: seq<string>) returns (run: seq<State>)
    requires tests != []
    ensures IsRun(run)
    ensures run[|run| - 1] == OneTask(tests, Holding(0), Worker(Ready, 0, [], Waiting(0), true, [], []))
  {
    var s := Created(1, 0);
    assert Initial(s);
    run := [s];
    s := s.(tasks := [Task(tests, Start)]);
    OneMoreStep(run, s, Submit(tests));
    run := run + [s];
    s := s.(tasks := [Task(tests, NeedWorker)]);
    OneMoreStep(run, s, AcquireStep(0, {}));
    run := run + [s];
    s := OneTask(tests, Handshaking(0), Spawn());
    OneMoreStep(run, s, SpawnStep(0, true, ""));
    run := run + [s];
    run := ProcessStarts(run, tests);
  }

  lemma ProcessStarts(before: seq<State>, tests: seq<string>) returns (run: seq<State>)
    requires IsRun(before) && before[|before| - 1] == OneTask(tests, Handshaking(0), Spawn())
    ensures IsRun(run)
    ensures run[|run| - 1] == OneTask(tests, Holding(0), Worker(Ready, 0, [], Waiting(0), true, [], []))
  {
    run := before;
    var w := Worker(Spawning, 0, [], Importing, true, [], [ReadyLine]);
    assert [] + [ReadyLine] == [ReadyLine];
    var s := OneTask(tests, Handshaking(0), w);
    OneMoreStep(run, s, PythonMove(0, w));
    run := run + [s];
    run := WorkerIsTaken(run, tests);
  }

  lemma WorkerIsTaken(before: seq<State>, tests: seq<string>) returns (run: seq<State>)
    requires IsRun(before)
    requires before[|before| - 1]
             == OneTask(tests, Handshaking(0), Worker(Spawning, 0, [], Importing, true, [], [ReadyLine]))
    ensures IsRun(run)
    ensures run[|run| - 1] == OneTask(tests, Holding(0), Worker(Ready, 0, [], Waiting(0), true, [], []))
  {
    run := before;
    var w := Worker(Spawning, 0, [], Waiting(0), true, [], [ReadyLine]);
    var s := OneTask(tests, Handshaking(0), w);
    OneMoreStep(run, s, PythonMove(0, w));
    run := run + [s];
    assert [ReadyLine][1..] == [];
    w := Handshaken(w);
    s := OneTask(tests, Holding(0), w);
    OneMoreStep(run, s, HandshakeStep(0, true, ""));
    run := run + [s];
  }

  /** The request goes over and is read. */
  lemma RequestGoesOver(before: seq<State>, tests: seq<string>) returns (run: seq<State>)
    requires IsRun(before)
    requires before[|before| - 1] == OneTask(tests, Holding(0), Worker(Ready, 0, [], Waiting(0), true, [], []))
    ensures IsRun(run)
    ensures run[|run| - 1]
            == OneTask(tests, Awaiting(0), Worker(Busy, 0, tests, Running(0, 0, tests), true, [], []))
  {
    run := before;
    var w := Worker(Busy, 0, tests, Waiting(0), true, [Run(0, tests)], []);
    var s := OneTask(tests, Awaiting(0), w);
    assert [] + [Run(0, tests)] == [Run(0, tests)];
    OneMoreStep(run, s, WriteStep(0, true, ""));
    run := run + [s];
    assert [Run(0, tests)][1..] == [];
    w := w.(python := Running(0, 0, tests), toPython := []);
    s := OneTask(tests, Awaiting(0), w);
    OneMoreStep(run, s, PythonMove(0, w));
    run := run + [s];
  }

  /** pytest makes the reports, and the log of them comes back. */
  lemma AnswerComesBack(before: seq<State>, tests: seq<string>, reports: seq<Report>) returns (run: seq<State>)
    requires IsRun(before)
    requires before[|before| - 1]
             == OneTask(tests, Awaiting(0), Worker(Busy, 0, tests, Running(0, 0, tests), true, [], []))
    ensures IsRun(run)
    ensures run[|run| - 1] == OneTask(tests, Releasing(0, Ok(Logged(reports))),
                                      Worker(Ready, 1, tests, Replied(0), true, [], []))
  {
    run := before;
    var line := DoneLine(0, tests, reports);
    var w := Worker(Busy, 0, tests, Replied(0), true, [], [line]);
    assert [] + [line] == [line];
    assert AfterDone(run[|run| - 1].workers[0], reports) == w;
    var s := OneTask(tests, Awaiting(0), w);
    OneMoreStep(run, s, PythonMove(0, w));
    run := run + [s];
    run := AnswerIsRead(run, tests, reports);
  }

  lemma AnswerIsRead(before: seq<State>, tests: seq<string>, reports: seq<Report>) returns (run: seq<State>)
    requires IsRun(before)
    requires before[|before| - 1]
             == OneTask(tests, Awaiting(0), Worker(Busy, 0, tests, Replied(0), true, [], [DoneLine(0, tests, reports)]))
    ensures IsRun(run)
    ensures run[|run| - 1] == OneTask(tests, Releasing(0, Ok(Logged(reports))),
                                      Worker(Ready, 1, tests, Replied(0), true, [], []))
  {
    assert [DoneLine(0, tests, reports)][1..] == [];
    var w := Worker(Ready, 1, tests, Replied(0), true, [], []);
    var s := OneTask(tests, Releasing(0, Ok(Logged(reports))), w);
    OneMoreStep(before, s, ReadStep(0));
    run := before + [s];
  }

  /**
   None of this is said of runs that do not exist: any batch can be run, whatever pytest reports of it,
   and then its worker waits in the pool.
   */
  lemma BatchCanSucceed(tests: seq<string>, reports: seq<Report>) returns (run: seq<State>)
    requires tests != []
    ensures IsRun(run) && |run[|run| - 1].tasks| == 1
    ensures run[|run| - 1].tasks[0] == Task(tests, Finished(Ok(Logged(reports))))
    ensures run[|run| - 1].available == [0]
  {
    run := BatchCanStart(tests);
    run := RequestGoesOver(run, tests);
    run := AnswerComesBack(run, tests, reports);
    var w := Worker(Ready, 1, tests, Replied(0), true, [], []);
    var s := OneTask(tests, Refilling(Ok(Logged(reports))), w).(available := [0]);
    OneMoreStep(run, s, ReleaseStep(0));
    run := run + [s];
    s := s.(tasks := [Task(tests, Finished(Ok(Logged(reports))))]);
    OneMoreStep(run, s, RefillStep(0, 0));
    run := run + [s];
  }
}
