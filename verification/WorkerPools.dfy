/**
 The worker and the pool object themselves (crates/rpytest-daemon/src/pool.rs). What `acquire`,
 `release` and `ensure_workers` do while they hold the lock, and what `run_tests` makes of the line it
 reads, is proved equal to the steps of the concurrent model.
 */
module WorkerPools {
  import opened Models
  import opened WorkerPlugin
  import opened WorkerProtocol
  import opened Pool

  /** Every state in the list was reached from the one before it by an edge `transition_to` accepts. */
  ghost predicate LegalTrace(states: seq<WorkerState>) {
    && states != [] && states[0].Spawning?
    && forall k :: 0 <= k < |states| - 1 ==> TransitionOk(states[k], states[k + 1])
  }

  /**
   The worker object as `spawn` returns it, without its process: what the process does arrives as
   arguments. `states` records every assignment to `state`.
   */
  class WarmWorker {
    var state: WorkerState
    var runCount: nat
    ghost var states: seq<WorkerState>

    ghost predicate Valid()
      reads this
    {
      && LegalTrace(states) && state == states[|states| - 1] && !state.Spawning?
      && (state.Ready? ==> runCount < MAX_RUNS)
    }

    constructor ()
      ensures Valid() && state == Ready && runCount == 0
    {
      state, runCount, states := Ready, 0, [Spawning, Ready];
    }

    /** `line` is what is read after the request is sent; None when writing or reading fails. */
    method RunTests(line: Option<Reply>) returns (result: RunResult)
      requires Valid()
      modifies this
      ensures Valid() && old(states) <= states
      ensures !old(state).Ready? ==> result.Err? && states == old(states) && runCount == old(runCount)
      ensures old(state).Ready? && line.None? ==>
                result.Err? && state == Recycling(Unhealthy) && runCount == old(runCount)
      ensures old(state).Ready? && line.Some? ==>
                forall w: Worker :: w.runCount == old(runCount) && w.toRust != [] && w.toRust[0] == line.value ==>
                                      && result == EndRun(w).0
                                      && state == EndRun(w).1.state && runCount == EndRun(w).1.runCount
      ensures old(state).Ready? && line.Some? && line.value.DoneLine? ==>
                && result == Ok(Logged(line.value.reports)) && runCount == old(runCount) + 1
                && state == if runCount >= 100 then Recycling(MaxRunsReached) else Ready
      ensures old(state).Ready? && line.Some? && line.value.ErrorLine? ==>
                result == Err(line.value.message) && runCount == old(runCount) && state == Recycling(Unhealthy)
    {
      if !state.Ready? {
        return Err("cannot run tests in this state");
      }
      Assign(Busy);
      result := if line.None? then Err("write or read error") else LineResult(line.value);
      if result.Ok? {
        runCount := runCount + 1;
        if runCount >= MAX_RUNS {
          Assign(Recycling(MaxRunsReached));
        } else {
          Assign(Ready);
        }
      } else {
        Assign(Recycling(Unhealthy));
      }
    }

    /** `running` is the answer of `try_wait`. */
    method IsAlive(running: bool) returns (alive: bool)
      requires Valid()
      modifies this
      ensures Valid() && old(states) <= states && runCount == old(runCount)
      ensures alive <==> running && !old(state).Dead?
      ensures state == if alive then old(state) else Dead
    {
      if state.Dead? {
        return false;
      }
      if !running {
        Assign(Dead);
      }
      alive := running;
    }

    /** A worker that is being recycled is left to be dropped; any other is dead afterwards. */
    method Shutdown()
      requires Valid()
      modifies this
      ensures Valid() && old(states) <= states && runCount == old(runCount)
      ensures state == if old(state).Recycling? then old(state) else Dead
    {
      if state.Recycling? || state.Dead? {
        return;
      }
      Assign(Recycling(ExplicitShutdown));
      Assign(Dead);
    }

    method Assign(next: WorkerState)
      requires LegalTrace(states) && state == states[|states| - 1] && TransitionOk(state, next)
      modifies this`state, this`states
      ensures LegalTrace(states) && state == next && states == old(states) + [next]
    {
      state, states := next, states + [next];
    }
  }

  class WorkerPool {
    const size: nat
    var available: seq<Pid>
    /** Every process still owned by someone, as far as this object can see. */
    var workers: map<Pid, Worker>
    var nextPid: Pid

    ghost predicate Valid()
      reads this
    {
      && |available| <= size
      && (forall i, j :: 0 <= i < j < |available| ==> available[i] != available[j])
      && (forall p :: p in available ==> p in workers)
      && (forall p :: p in workers ==> p < nextPid)
    }

    ghost function Snapshot(tasks: seq<Task>): State
      reads this
    {
      State(size, available, workers, tasks, nextPid)
    }

    /** `spawnOk[i]` says whether the i-th spawn of `ensure_workers` succeeds. */
    constructor (size: nat, spawnOk: seq<bool>)
      requires |spawnOk| == size
      ensures Valid() && this.size == size && Initial(Snapshot([]))
    {
      this.size, available, workers, nextPid := size, [], map[], 0;
      new;
      EnsureWorkers(spawnOk);
      assert Snapshot([]) == Created(size, Successes(spawnOk));
    }

    method EnsureWorkers(spawnOk: seq<bool>)
      requires Valid() && |spawnOk| == size - |available|
      modifies this
      ensures Valid()
      ensures forall tasks :: Snapshot(tasks) == AddWorkers(old(Snapshot(tasks)), Successes(spawnOk))
      ensures |available| == |old(available)| + Successes(spawnOk) <= size
    {
      var current := |available|;
      for i := current to size
        invariant current <= i && Valid()
        invariant |available| == current + Successes(spawnOk[..i - current])
        invariant forall tasks :: Snapshot(tasks) == AddWorkers(old(Snapshot(tasks)), Successes(spawnOk[..i - current]))
        invariant Successes(spawnOk[..i - current]) <= i - current
      {
        var k := i - current;
        assert spawnOk[..k + 1][..k] == spawnOk[..k];
        if spawnOk[k] {
          assert nextPid !in available;
          available := available + [nextPid];
          workers := workers[nextPid := FreshWorker()];
          nextPid := nextPid + 1;
        }
      }
      assert spawnOk[..size - current] == spawnOk;
    }

    /** Pops workers until one can be used; a popped worker that cannot is dropped. */
    method Acquire(lost: set<Pid>) returns (found: Option<Pid>)
      requires Valid()
      modifies this
      ensures Valid() && nextPid == old(nextPid)
      ensures found == Pool.Acquire(old(available), old(workers), lost).found
      ensures available == Pool.Acquire(old(available), old(workers), lost).rest
      ensures workers == old(workers) - (Members(old(available)) - Members(available)
                                         - (if found.Some? then {found.value} else {}))
    {
      ghost var scan := Pool.Acquire(available, workers, lost);
      while available != []
        invariant available <= old(available) && Valid() && nextPid == old(nextPid)
        invariant workers == old(workers) - (Members(old(available)) - Members(available))
        invariant Pool.Acquire(available, old(workers), lost).found == scan.found
        invariant Pool.Acquire(available, old(workers), lost).rest == scan.rest
        decreases |available|
      {
        var p := available[|available| - 1];
        var worker := workers[p];
        LastDropped(old(workers), old(available), available);
        available := available[..|available| - 1];
        if Gone(worker, p, lost) || NeedsRecycle(worker) {
          workers := workers - {p};
          continue;
        }
        if worker.state.Ready? {
          return Some(p);
        }
        workers := workers - {p};
      }
      found := None;
    }

    /** Only a ready worker goes back, and only while there is room; any other is dropped. */
    method Release(p: Pid)
      requires Valid() && p in workers && p !in available
      modifies this`available, this`workers
      ensures Valid()
      ensures if old(workers)[p].state.Ready? && |old(available)| < size
              then available == old(available) + [p] && workers == old(workers)
              else available == old(available) && workers == old(workers) - {p}
    {
      if !workers[p].state.Ready? {
        workers := workers - {p};
        return;
      }
      if |available| < size {
        available := available + [p];
      } else {
        workers := workers - {p};
      }
    }
  }

  function Successes(spawnOk: seq<bool>): nat {
    if spawnOk == [] then 0
    else Successes(spawnOk[..|spawnOk| - 1]) + (if spawnOk[|spawnOk| - 1] then 1 else 0)
  }

  /** Taking the last worker off the rest of a scan, and letting it go or not. */
  lemma LastDropped(workers: map<Pid, Worker>, scanned: seq<Pid>, rest: seq<Pid>)
    requires rest != [] && rest <= scanned && forall i, j :: 0 <= i < j < |rest| ==> rest[i] != rest[j]
    ensures var p, left := rest[|rest| - 1], rest[..|rest| - 1];
            && p !in left && p in scanned
            && workers - (Members(scanned) - Members(rest)) - {p} == workers - (Members(scanned) - Members(left))
            && workers - (Members(scanned) - Members(rest)) == workers - (Members(scanned) - Members(left) - {p})
  {
    MembersInit(rest);
    assert rest[|rest| - 1] == scanned[|rest| - 1];
  }

  lemma MembersInit(ps: seq<Pid>)
    requires ps != [] && forall i, j :: 0 <= i < j < |ps| ==> ps[i] != ps[j]
    ensures Members(ps[..|ps| - 1]) == Members(ps) - {ps[|ps| - 1]}
    ensures ps[|ps| - 1] !in ps[..|ps| - 1]
  {
  }

  // ----- The methods are the steps of the concurrent model

  /** What `Acquire` leaves and returns, with the task moved on, is an acquire step. */
  lemma AcquireIsStep(s: State, s': State, i: nat, lost: set<Pid>, found: Option<Pid>)
    requires i < |s.tasks| && s.tasks[i].pc.Start? && s.tasks[i].tests != []
    requires forall p :: p in s.available ==> p in s.workers
    requires found == Pool.Acquire(s.available, s.workers, lost).found
    requires s'.available == Pool.Acquire(s.available, s.workers, lost).rest
    requires s'.workers == s.workers - (Members(s.available) - Members(s'.available)
                                        - (if found.Some? then {found.value} else {}))
    requires s'.size == s.size && s'.nextPid == s.nextPid
    requires s'.tasks == s.tasks[i := s.tasks[i].(pc := if found.Some? then Holding(found.value) else NeedWorker)]
    ensures NextBy(s, s', AcquireStep(i, lost))
  {
    var kept := Members(s'.available) + (if found.Some? then {found.value} else {});
    assert Members(s.available) - kept
        == Members(s.available) - Members(s'.available) - (if found.Some? then {found.value} else {});
  }

  /** What `Release` leaves is a release step. */
  lemma ReleaseIsStep(s: State, s': State, i: nat, p: Pid, outcome: RunResult)
    requires i < |s.tasks| && s.tasks[i].pc == Releasing(p, outcome) && p in s.workers
    requires if s.workers[p].state.Ready? && |s.available| < s.size
             then s'.available == s.available + [p] && s'.workers == s.workers
             else s'.available == s.available && s'.workers == s.workers - {p}
    requires s'.size == s.size && s'.nextPid == s.nextPid
    requires s'.tasks == s.tasks[i := s.tasks[i].(pc := Refilling(outcome))]
    ensures NextBy(s, s', ReleaseStep(i))
  {
  }

  /** What `EnsureWorkers` leaves is a refill step. */
  lemma RefillIsStep(s: State, s': State, i: nat, spawned: nat)
    requires i < |s.tasks| && s.tasks[i].pc.Refilling? && (spawned == 0 || |s.available| + spawned <= s.size)
    requires s' == AddWorkers(s.(tasks := s.tasks[i := s.tasks[i].(pc := Finished(s.tasks[i].pc.outcome))]), spawned)
    ensures NextBy(s, s', RefillStep(i, spawned))
  {
  }
}
