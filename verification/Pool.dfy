/**
 The pool of warm workers under concurrent `execute_batch` calls
 (crates/rpytest-daemon/src/pool.rs), as a state machine over its atomic steps.

 `acquire`, `release` and `ensure_workers` hold the pool's lock throughout and are one step each;
 spawning outside the lock and running a batch are two steps each; in between, any other task, any
 Python process and any process death may come; what a dead process has written stays readable.
 */
module Pool {
  import opened Seqs
  import opened Models
  import opened WorkerProtocol

  type Pid = nat

  const EXHAUSTED := "Worker pool exhausted: "
  const WORKER_ERROR := "Worker error: "

  /** Where one call of `execute_batch` is, and the worker it owns there. */
  datatype Pc =
    | Start
    | NeedWorker
    | Handshaking(pid: Pid)
    | Holding(pid: Pid)
    | Awaiting(pid: Pid)
    | Releasing(pid: Pid, outcome: RunResult)
    | Refilling(outcome: RunResult)
    | Finished(outcome: RunResult)

  datatype Task = Task(tests: seq<string>, pc: Pc)

  /** `workers` holds every worker process that is still owned; dropping a worker kills it. */
  datatype State = State(
    size: nat, available: seq<Pid>, workers: map<Pid, Worker>, tasks: seq<Task>, nextPid: Pid)

  function Holds(t: Task): Option<Pid> {
    match t.pc
    case Handshaking(p) => Some(p)
    case Holding(p) => Some(p)
    case Awaiting(p) => Some(p)
    case Releasing(p, _) => Some(p)
    case _ => None
  }

  // ----- acquire

  datatype DropReason = ProcessGone | TooManyRuns | UnexpectedState

  datatype Scan = Scan(found: Option<Pid>, rest: seq<Pid>, dropped: seq<(Pid, DropReason)>)

  /** `try_wait` reports an exit, or fails: `lost` are the processes whose check fails. */
  predicate Gone(w: Worker, p: Pid, lost: set<Pid>) {
    w.state.Dead? || !w.alive || p in lost
  }

  /** Pop workers off the back until one can be used. */
  function Acquire(available: seq<Pid>, workers: map<Pid, Worker>, lost: set<Pid>): (s: Scan)
    requires forall p :: p in available ==> p in workers
    ensures s.rest <= available
    ensures s.found.Some? ==> |s.rest| < |available| && s.found.value == available[|s.rest|]
                              && workers[s.found.value].state.Ready?
    ensures s.found.None? ==> s.rest == []
  {
    if available == [] then Scan(None, [], [])
    else
      var p := available[|available| - 1];
      var w := workers[p];
      if Gone(w, p, lost) || NeedsRecycle(w) || !w.state.Ready? then
        var reason := if Gone(w, p, lost) then ProcessGone
                      else if NeedsRecycle(w) then TooManyRuns
                      else UnexpectedState;
        var s := Acquire(available[..|available| - 1], workers, lost);
        s.(dropped := [(p, reason)] + s.dropped)
      else Scan(Some(p), available[..|available| - 1], [])
  }

  function Members(ps: seq<Pid>): set<Pid> {
    set p | p in ps
  }

  /** Everything behind `rest`, except the worker that was found, is dropped. */
  function AfterAcquire(s: State, i: nat, scan: Scan): State
    requires i < |s.tasks|
  {
    var kept := Members(scan.rest) + (if scan.found.Some? then {scan.found.value} else {});
    s.(available := scan.rest,
       workers := s.workers - (Members(s.available) - kept),
       tasks := s.tasks[i := s.tasks[i].(pc := if scan.found.Some? then Holding(scan.found.value) else NeedWorker)])
  }

  // ----- ensure_workers

  function FreshWorker(): Worker {
    Worker(Ready, 0, [], Importing, true, [], [])
  }

  function WithFresh(s: State): State {
    s.(available := s.available + [s.nextPid],
       workers := s.workers[s.nextPid := FreshWorker()],
       nextPid := s.nextPid + 1)
  }

  function AddWorkers(s: State, n: nat): State {
    if n == 0 then s else WithFresh(AddWorkers(s, n - 1))
  }

  // ----- Steps

  datatype Step =
    | Submit(tests: seq<string>)
    | AcquireStep(i: nat, lost: set<Pid>)
    | SpawnStep(i: nat, started: bool, reason: string)
    | HandshakeStep(i: nat, ok: bool, reason: string)
    | WriteStep(i: nat, written: bool, reason: string)
    | ReadStep(i: nat)
    | RunFailStep(i: nat, reason: string)
    | ReleaseStep(i: nat)
    | RefillStep(i: nat, spawned: nat)
    | PythonMove(p: Pid, w: Worker)
    | Death(p: Pid)
    | ShutdownPool

  /** How `execute_batch` words the error of a run. */
  function Reported(result: RunResult): RunResult {
    if result.Err? then Err(WORKER_ERROR + result.message) else result
  }

  function SetPc(s: State, i: nat, pc: Pc): State
    requires i < |s.tasks|
  {
    s.(tasks := s.tasks[i := s.tasks[i].(pc := pc)])
  }

  /** Task `i` has started a process of its own. */
  function WithSpawned(s: State, i: nat): State
    requires i < |s.tasks|
  {
    SetPc(s, i, Handshaking(s.nextPid)).(workers := s.workers[s.nextPid := Spawn()], nextPid := s.nextPid + 1)
  }

  ghost predicate NextBy(s: State, s': State, step: Step) {
    match step
    case Submit(tests) => s' == s.(tasks := s.tasks + [Task(tests, Start)])
    case AcquireStep(i, lost) =>
      && i < |s.tasks| && s.tasks[i].pc.Start?
      && (forall p :: p in s.available ==> p in s.workers)
      && s' == if s.tasks[i].tests == [] then SetPc(s, i, Finished(Ok([])))
               else AfterAcquire(s, i, Acquire(s.available, s.workers, lost))
    case SpawnStep(i, started, reason) =>
      && i < |s.tasks| && s.tasks[i].pc.NeedWorker?
      && s' == if started
               then WithSpawned(s, i)
               else SetPc(s, i, Finished(Err(EXHAUSTED + reason)))
    case HandshakeStep(i, ok, reason) =>
      && i < |s.tasks| && s.tasks[i].pc.Handshaking? && s.tasks[i].pc.pid in s.workers
      && (ok ==> HandshakeOk(s.workers[s.tasks[i].pc.pid]))
      && var p := s.tasks[i].pc.pid;
         s' == if ok then SetPc(s, i, Holding(p)).(workers := s.workers[p := Handshaken(s.workers[p])])
               else SetPc(s, i, Finished(Err(EXHAUSTED + reason))).(workers := s.workers - {p})
    case WriteStep(i, written, reason) =>
      && i < |s.tasks| && s.tasks[i].pc.Holding? && s.tasks[i].pc.pid in s.workers
      && var p := s.tasks[i].pc.pid;
         s' == if s.workers[p].state.Ready?
               then SetPc(s, i, Awaiting(p)).(
                        workers := s.workers[p := BeginRun(s.workers[p], s.tasks[i].tests, written)])
               else SetPc(s, i, Releasing(p, Reported(Err(reason))))
    case ReadStep(i) =>
      && i < |s.tasks| && s.tasks[i].pc.Awaiting? && s.tasks[i].pc.pid in s.workers
      && s.workers[s.tasks[i].pc.pid].toRust != []
      && var p := s.tasks[i].pc.pid;
         var (result, w) := EndRun(s.workers[p]);
         s' == SetPc(s, i, Releasing(p, Reported(result))).(workers := s.workers[p := w])
    case RunFailStep(i, reason) =>
      && i < |s.tasks| && s.tasks[i].pc.Awaiting? && s.tasks[i].pc.pid in s.workers
      && var p := s.tasks[i].pc.pid;
         s' == SetPc(s, i, Releasing(p, Reported(Err(reason)))).(workers := s.workers[p := FailRun(s.workers[p])])
    case ReleaseStep(i) =>
      && i < |s.tasks| && s.tasks[i].pc.Releasing? && s.tasks[i].pc.pid in s.workers
      && var p := s.tasks[i].pc.pid;
         var s1 := SetPc(s, i, Refilling(s.tasks[i].pc.outcome));
         s' == if s.workers[p].state.Ready? && |s.available| < s.size then s1.(available := s.available + [p])
               else s1.(workers := s.workers - {p})
    case RefillStep(i, spawned) =>
      && i < |s.tasks| && s.tasks[i].pc.Refilling?
      && (spawned == 0 || |s.available| + spawned <= s.size)
      && s' == AddWorkers(SetPc(s, i, Finished(s.tasks[i].pc.outcome)), spawned)
    case PythonMove(p, w) =>
      p in s.workers && PythonStep(s.workers[p], w) && s' == s.(workers := s.workers[p := w])
    case Death(p) =>
      p in s.workers && s' == s.(workers := s.workers[p := s.workers[p].(alive := false)])
    case ShutdownPool =>
      s' == s.(available := [], workers := s.workers - Members(s.available))
  }

  ghost predicate Next(s: State, s': State) {
    exists step :: NextBy(s, s', step)
  }

  function Created(size: nat, spawned: nat): State {
    AddWorkers(State(size, [], map[], [], 0), spawned)
  }

  ghost predicate Initial(s: State) {
    exists spawned: nat :: spawned <= s.size && s == Created(s.size, spawned)
  }

  // ----- Safety

  /** A worker is in the state that its owner relies on. */
  predicate Fits(t: Task, w: Worker) {
    match t.pc
    case Handshaking(_) => w.state.Spawning?
    case Holding(_) => w.state.Ready?
    case Awaiting(_) => w.state.Busy? && w.batch == t.tests
    case Releasing(_, _) => w.state.Ready? || w.state.Recycling?
    case _ => true
  }

  ghost predicate PoolOk(s: State) {
    && |s.available| <= s.size
    && (forall i, j :: 0 <= i < j < |s.available| ==> s.available[i] != s.available[j])
    && (forall p :: p in s.available ==> p in s.workers && s.workers[p].state.Ready?)
  }

  ghost predicate TasksOk(s: State) {
    && (forall i :: 0 <= i < |s.tasks| && Holds(s.tasks[i]).Some? ==>
                      var p := Holds(s.tasks[i]).value;
                      p in s.workers && p !in s.available && Fits(s.tasks[i], s.workers[p]))
    && (forall i, j :: 0 <= i < j < |s.tasks| && Holds(s.tasks[i]).Some? ==> Holds(s.tasks[i]) != Holds(s.tasks[j]))
  }

  ghost predicate WorkersOk(s: State) {
    && (forall p :: p in s.workers ==> p < s.nextPid && Lockstep(s.workers[p]))
    && (forall p :: p in s.workers ==> p in s.available || HeldBySome(s, p))
  }

  ghost predicate HeldBySome(s: State, p: Pid) {
    exists i :: 0 <= i < |s.tasks| && Holds(s.tasks[i]) == Some(p)
  }

  ghost predicate Inv(s: State) {
    PoolOk(s) && TasksOk(s) && WorkersOk(s)
  }

  lemma FreshInv(s: State)
    requires Inv(s) && |s.available| < s.size
    ensures Inv(WithFresh(s))
  {
    var s' := WithFresh(s);
    assert s.nextPid !in s.workers && s.nextPid !in s.available;
    forall p | p in s'.workers
      ensures p in s'.available || HeldBySome(s', p)
    {
      if p != s.nextPid && p !in s.available {
        var i :| 0 <= i < |s.tasks| && Holds(s.tasks[i]) == Some(p);
        assert Holds(s'.tasks[i]) == Some(p);
      }
    }
  }

  lemma {:induction false} AddWorkersInv(s: State, n: nat)
    requires Inv(s) && (n == 0 || |s.available| + n <= s.size)
    ensures Inv(AddWorkers(s, n))
    ensures |AddWorkers(s, n).available| == |s.available| + n
    ensures AddWorkers(s, n).tasks == s.tasks && AddWorkers(s, n).size == s.size
  {
    if n > 0 {
      AddWorkersInv(s, n - 1);
      FreshInv(AddWorkers(s, n - 1));
    }
  }

  lemma InitialInv(s: State)
    requires Initial(s)
    ensures Inv(s) && s.tasks == []
  {
    var n: nat :| n <= s.size && s == Created(s.size, n);
    AddWorkersInv(State(s.size, [], map[], [], 0), n);
  }

  /** A worker whose owner keeps it, and keeps relying on the same state, may change. */
  lemma UpdateWorkerInv(s: State, p: Pid, w: Worker)
    requires Inv(s) && p in s.workers
    requires Lockstep(w) && w.state == s.workers[p].state && w.batch == s.workers[p].batch
    ensures Inv(s.(workers := s.workers[p := w]))
  {
    var s' := s.(workers := s.workers[p := w]);
    KeepHolders(s, s');
  }

  lemma KeepHolders(s: State, s': State)
    requires WorkersOk(s) && s'.tasks == s.tasks && s'.available == s.available
    requires s'.workers.Keys <= s.workers.Keys
    ensures forall p :: p in s'.workers ==> p in s'.available || HeldBySome(s', p)
  {
    forall p | p in s'.workers
      ensures p in s'.available || HeldBySome(s', p)
    {
      if p !in s.available {
        var i :| 0 <= i < |s.tasks| && Holds(s.tasks[i]) == Some(p);
        assert Holds(s'.tasks[i]) == Some(p);
      }
    }
  }

  /** Task `i` moves to `pc` with the same worker, whose record may change, or with none, its worker gone. */
  lemma MoveTaskInv(s: State, i: nat, pc: Pc, s': State)
    requires Inv(s) && i < |s.tasks|
    requires s'.size == s.size && s'.available == s.available && s'.nextPid == s.nextPid
    requires s'.tasks == s.tasks[i := s.tasks[i].(pc := pc)]
    requires Holds(s.tasks[i]).Some? ==>
               var p := Holds(s.tasks[i]).value;
               || (&& Holds(s'.tasks[i]) == Some(p) && p in s'.workers && s'.workers == s.workers[p := s'.workers[p]]
                   && Lockstep(s'.workers[p]) && Fits(s'.tasks[i], s'.workers[p]))
               || (Holds(s'.tasks[i]).None? && s'.workers == s.workers - {p})
    requires Holds(s.tasks[i]).None? ==> Holds(s'.tasks[i]).None? && s'.workers == s.workers
    ensures Inv(s')
  {
    forall k | 0 <= k < |s'.tasks| && Holds(s'.tasks[k]).Some?
      ensures var p := Holds(s'.tasks[k]).value;
              p in s'.workers && p !in s'.available && Fits(s'.tasks[k], s'.workers[p])
    {
      if k < i {
        assert Holds(s.tasks[k]) != Holds(s.tasks[i]);
      } else if i < k {
        assert Holds(s.tasks[i]).Some? ==> Holds(s.tasks[i]) != Holds(s.tasks[k]);
      }
    }
    forall p | p in s'.workers
      ensures p in s'.available || HeldBySome(s', p)
    {
      if p !in s.available {
        var k :| 0 <= k < |s.tasks| && Holds(s.tasks[k]) == Some(p);
        assert Holds(s'.tasks[k]) == Some(p);
      }
    }
  }

  /**
   Under the invariant `acquire` only ever drops workers whose process is gone: its recycling and
   unexpected-state branches are unreachable.
   */
  lemma {:induction false} AcquireDropsOnlyTheGone(available: seq<Pid>, workers: map<Pid, Worker>, lost: set<Pid>)
    requires forall p :: p in available ==> p in workers && workers[p].state.Ready? && Lockstep(workers[p])
    ensures var s := Acquire(available, workers, lost);
            && (forall d :: d in s.dropped ==>
                              d.1 == ProcessGone && d.0 in available && (!workers[d.0].alive || d.0 in lost))
            && (s.found.Some? ==> workers[s.found.value].alive && s.found.value !in lost)
            && (s.found.None? ==> forall p :: p in available ==> !workers[p].alive || p in lost)
  {
    if available != [] {
      AcquireDropsOnlyTheGone(available[..|available| - 1], workers, lost);
    }
  }

  /** When only task `i` changes hands, every other worker keeps its holder. */
  lemma OthersStillHold(s: State, s': State, i: nat)
    requires i < |s.tasks| == |s'.tasks|
    requires forall k :: 0 <= k < |s.tasks| && k != i ==> s'.tasks[k] == s.tasks[k]
    ensures forall p: Pid :: HeldBySome(s, p) && Holds(s.tasks[i]) != Some(p) ==> HeldBySome(s', p)
    ensures Holds(s'.tasks[i]).Some? ==> HeldBySome(s', Holds(s'.tasks[i]).value)
  {
    forall p: Pid | HeldBySome(s, p) && Holds(s.tasks[i]) != Some(p)
      ensures HeldBySome(s', p)
    {
      var k :| 0 <= k < |s.tasks| && Holds(s.tasks[k]) == Some(p);
      assert Holds(s'.tasks[k]) == Some(p);
    }
  }

  lemma AcquireInv(s: State, i: nat, lost: set<Pid>)
    requires Inv(s) && i < |s.tasks| && s.tasks[i].pc.Start?
    ensures Inv(AfterAcquire(s, i, Acquire(s.available, s.workers, lost)))
  {
    var scan := Acquire(s.available, s.workers, lost);
    TakeInv(s, i, scan);
  }

  /** A front part of the pool stays, and at most the worker behind it is handed to task `i`. */
  lemma TakeInv(s: State, i: nat, scan: Scan)
    requires Inv(s) && i < |s.tasks| && s.tasks[i].pc.Start?
    requires scan.rest <= s.available
    requires scan.found.Some? ==> |scan.rest| < |s.available| && scan.found.value == s.available[|scan.rest|]
    ensures Inv(AfterAcquire(s, i, scan))
  {
    var s' := AfterAcquire(s, i, scan);
    assert forall k :: 0 <= k < |scan.rest| ==> scan.rest[k] == s.available[k];
    OthersStillHold(s, s', i);
    forall k | 0 <= k < |s'.tasks| && Holds(s'.tasks[k]).Some? && k != i
      ensures Holds(s'.tasks[k]).value !in s.available
    {
      assert s'.tasks[k] == s.tasks[k];
    }
  }

  lemma SpawnInv(s: State, i: nat)
    requires Inv(s) && i < |s.tasks| && s.tasks[i].pc.NeedWorker?
    ensures Inv(WithSpawned(s, i))
  {
    var s' := WithSpawned(s, i);
    assert s.nextPid !in s.workers && s.nextPid !in s.available;
    OthersStillHold(s, s', i);
  }

  lemma ReturnInv(s: State, i: nat, pc: Pc)
    requires Inv(s) && i < |s.tasks| && s.tasks[i].pc.Releasing? && |s.available| < s.size
    requires s.tasks[i].pc.pid in s.workers && s.workers[s.tasks[i].pc.pid].state.Ready?
    requires pc.Refilling?
    ensures Inv(SetPc(s, i, pc).(available := s.available + [s.tasks[i].pc.pid]))
  {
    var q := s.tasks[i].pc.pid;
    var s' := SetPc(s, i, pc).(available := s.available + [q]);
    assert Holds(s.tasks[i]) == Some(q);
    OthersStillHold(s, s', i);
    forall k | 0 <= k < |s'.tasks| && Holds(s'.tasks[k]).Some?
      ensures Holds(s'.tasks[k]).value !in s'.available
    {
      assert k < i ==> Holds(s.tasks[k]) != Holds(s.tasks[i]);
      assert i < k ==> Holds(s.tasks[i]) != Holds(s.tasks[k]);
    }
  }

  lemma SubmitInv(s: State, tests: seq<string>)
    requires Inv(s)
    ensures Inv(s.(tasks := s.tasks + [Task(tests, Start)]))
  {
    var s' := s.(tasks := s.tasks + [Task(tests, Start)]);
    forall p | p in s'.workers
      ensures p in s'.available || HeldBySome(s', p)
    {
      if p !in s.available {
        var k :| 0 <= k < |s.tasks| && Holds(s.tasks[k]) == Some(p);
        assert Holds(s'.tasks[k]) == Some(p);
      }
    }
  }

  lemma ShutdownInv(s: State)
    requires Inv(s)
    ensures Inv(s.(available := [], workers := s.workers - Members(s.available)))
  {
    var s' := s.(available := [], workers := s.workers - Members(s.available));
    forall p | p in s'.workers
      ensures HeldBySome(s', p)
    {
      var k :| 0 <= k < |s.tasks| && Holds(s.tasks[k]) == Some(p);
      assert Holds(s'.tasks[k]) == Some(p);
    }
  }

  lemma HandshakeStepInv(s: State, s': State, step: Step)
    requires Inv(s) && NextBy(s, s', step) && step.HandshakeStep?
    ensures Inv(s')
  {
    var p := s.tasks[step.i].pc.pid;
    assert Holds(s.tasks[step.i]) == Some(p);
    if step.ok {
      HandshakeLockstep(s.workers[p]);
    }
    MoveTaskInv(s, step.i, s'.tasks[step.i].pc, s');
  }

  lemma WriteStepInv(s: State, s': State, step: Step)
    requires Inv(s) && NextBy(s, s', step) && step.WriteStep?
    ensures Inv(s')
  {
    var p := s.tasks[step.i].pc.pid;
    assert Holds(s.tasks[step.i]) == Some(p);
    BeginRunLockstep(s.workers[p], s.tasks[step.i].tests, step.written);
    MoveTaskInv(s, step.i, s'.tasks[step.i].pc, s');
  }

  lemma ReadStepInv(s: State, s': State, step: Step)
    requires Inv(s) && NextBy(s, s', step) && (step.ReadStep? || step.RunFailStep?)
    ensures Inv(s')
  {
    var p := s.tasks[step.i].pc.pid;
    assert Holds(s.tasks[step.i]) == Some(p);
    if step.ReadStep? {
      EndRunLockstep(s.workers[p]);
    }
    MoveTaskInv(s, step.i, s'.tasks[step.i].pc, s');
  }

  lemma ReleaseStepInv(s: State, s': State, step: Step)
    requires Inv(s) && NextBy(s, s', step) && step.ReleaseStep?
    ensures Inv(s')
  {
    var i := step.i;
    var p := s.tasks[i].pc.pid;
    assert Holds(s.tasks[i]) == Some(p);
    if s.workers[p].state.Ready? && |s.available| < s.size {
      ReturnInv(s, i, Refilling(s.tasks[i].pc.outcome));
    } else {
      MoveTaskInv(s, i, Refilling(s.tasks[i].pc.outcome), s');
    }
  }

  /** Steps of a task that owns no worker yet. */
  lemma FirstStepsInv(s: State, s': State, step: Step)
    requires Inv(s) && NextBy(s, s', step)
    requires step.AcquireStep? || step.SpawnStep?
    ensures Inv(s')
  {
    match step
    case AcquireStep(i, lost) =>
      if s.tasks[i].tests == [] {
        MoveTaskInv(s, i, Finished(Ok([])), s');
      } else {
        AcquireInv(s, i, lost);
      }
    case SpawnStep(i, started, reason) =>
      if started {
        SpawnInv(s, i);
      } else {
        MoveTaskInv(s, i, Finished(Err(EXHAUSTED + reason)), s');
      }
  }

  /** Steps of the environment. */
  lemma OutsideStepInv(s: State, s': State, step: Step)
    requires Inv(s) && NextBy(s, s', step)
    requires step.Submit? || step.PythonMove? || step.Death? || step.ShutdownPool?
    ensures Inv(s')
  {
    match step
    case Submit(tests) => SubmitInv(s, tests);
    case PythonMove(p, w) =>
      PythonKeepsLockstep(s.workers[p], w);
      UpdateWorkerInv(s, p, w);
    case Death(p) => UpdateWorkerInv(s, p, s.workers[p].(alive := false));
    case ShutdownPool => ShutdownInv(s);
  }

  lemma RefillStepInv(s: State, s': State, step: Step)
    requires Inv(s) && NextBy(s, s', step) && step.RefillStep?
    ensures Inv(s')
  {
    var pc := Finished(s.tasks[step.i].pc.outcome);
    var s1 := SetPc(s, step.i, pc);
    MoveTaskInv(s, step.i, pc, s1);
    AddWorkersInv(s1, step.spawned);
  }

  lemma StepInv(s: State, s': State, step: Step)
    requires Inv(s) && NextBy(s, s', step)
    ensures Inv(s')
  {
    if step.AcquireStep? || step.SpawnStep? {
      FirstStepsInv(s, s', step);
    } else if step.HandshakeStep? {
      HandshakeStepInv(s, s', step);
    } else if step.WriteStep? {
      WriteStepInv(s, s', step);
    } else if step.ReadStep? || step.RunFailStep? {
      ReadStepInv(s, s', step);
    } else if step.ReleaseStep? {
      ReleaseStepInv(s, s', step);
    } else if step.RefillStep? {
      RefillStepInv(s, s', step);
    } else {
      OutsideStepInv(s, s', step);
    }
  }

  // ----- Runs

  ghost predicate IsRun(run: seq<State>) {
    && run != [] && Initial(run[0])
    && forall k :: 0 <= k < |run| - 1 ==> Next(run[k], run[k + 1])
  }

  lemma RunStep(run: seq<State>, k: nat)
    requires IsRun(run) && k + 1 < |run|
    ensures Next(run[k], run[k + 1])
  {
  }

  lemma NextInv(s: State, s': State)
    requires Inv(s) && Next(s, s')
    ensures Inv(s')
  {
    var step :| NextBy(s, s', step);
    StepInv(s, s', step);
  }

  lemma {:induction false} RunInv(run: seq<State>, k: nat)
    requires IsRun(run) && k < |run|
    ensures Inv(run[k])
  {
    if k == 0 {
      InitialInv(run[0]);
    } else {
      RunInv(run, k - 1);
      RunStep(run, k - 1);
      NextInv(run[k - 1], run[k]);
    }
  }
}
