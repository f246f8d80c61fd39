/**
 Running tests in fresh pytest subprocesses (crates/rpytest-daemon/src/executor.rs, `PythonExecutor`):
 chunking and the semaphore that bounds concurrency.
 */
module Executor {
  import opened Seqs
  import opened Models
  import opened BatchOutput

  // ----- Chunks

  function Chunks(ids: seq<string>, size: nat): (chunks: seq<seq<string>>)
    requires size > 0
  {
    if ids == [] then []
    else if |ids| <= size then [ids]
    else [ids[..size]] + Chunks(ids[size..], size)
  }

  lemma {:induction false} FlattenCons<T>(head: seq<T>, tail: seq<seq<T>>)
    ensures Flatten([head] + tail) == head + Flatten(tail)
  {
    if tail == [] {
      assert [head] + tail == [head];
      assert Flatten([head][..0]) == [];
    } else {
      var init := tail[..|tail| - 1];
      FlattenCons(head, init);
      assert ([head] + tail)[..|tail|] == [head] + init;
      Associate(head, Flatten(init), tail[|tail| - 1]);
    }
  }

  lemma {:induction false} ChunksFlatten(ids: seq<string>, size: nat)
    requires size > 0
    ensures Flatten(Chunks(ids, size)) == ids
  {
    if ids != [] {
      if |ids| <= size {
        FlattenCons(ids, []);
        assert [ids] + [] == [ids];
      } else {
        ChunksFlatten(ids[size..], size);
        FlattenCons(ids[..size], Chunks(ids[size..], size));
      }
    }
  }

  /** Every chunk but the last is full, and the last is not empty. */
  lemma {:induction false} ChunkSizes(ids: seq<string>, size: nat)
    requires size > 0
    ensures var chunks := Chunks(ids, size);
            && (forall b :: 0 <= b < |chunks| - 1 ==> |chunks[b]| == size)
            && (chunks != [] ==> 0 < |chunks[|chunks| - 1]| <= size)
            && (chunks == [] <==> ids == [])
  {
    if |ids| > size {
      ChunkSizes(ids[size..], size);
    }
  }

  // ----- The parallel branch: a task per chunk, each holding a permit while it runs

  /** `spawned` chunks have been started, in order; `finished` holds the results of those that ended. */
  datatype Run = Run(permits: nat, spawned: nat, running: set<nat>, finished: map<nat, seq<TestResult>>)

  ghost predicate Begins(r: Run, workers: nat) {
    r == Run(workers, 0, {}, map[])
  }

  /** The output of every chunk's subprocess is part of the environment. */
  ghost predicate StepTo(r: Run, r': Run, chunks: seq<seq<string>>, outputs: seq<string>)
    requires |outputs| == |chunks|
  {
    || (r.permits > 0 && r.spawned < |chunks|
        && r' == r.(permits := r.permits - 1, spawned := r.spawned + 1, running := r.running + {r.spawned}))
    || (exists b: nat :: b < |chunks| && b in r.running && r' == Completed(r, b, Parsed(chunks[b], outputs[b])))
  }

  /** Chunk `b` ends, its results are kept for its handle and its permit comes back. */
  function Completed(r: Run, b: nat, results: seq<TestResult>): Run {
    r.(permits := r.permits + 1, running := r.running - {b}, finished := r.finished[b := results])
  }

  ghost predicate RunOk(r: Run, workers: nat, chunks: seq<seq<string>>, outputs: seq<string>)
    requires |outputs| == |chunks|
  {
    && |r.running| + r.permits == workers
    && r.spawned <= |chunks|
    && (forall b :: b in r.running ==> b < r.spawned && b !in r.finished)
    && (forall b :: 0 <= b < r.spawned ==> b in r.running || b in r.finished)
    && (forall b :: b in r.finished ==> b < r.spawned && r.finished[b] == Parsed(chunks[b], outputs[b]))
  }

  ghost predicate IsTrace(trace: seq<Run>, workers: nat, chunks: seq<seq<string>>, outputs: seq<string>)
    requires |outputs| == |chunks|
  {
    && trace != [] && Begins(trace[0], workers)
    && forall k :: 0 <= k < |trace| - 1 ==> StepTo(trace[k], trace[k + 1], chunks, outputs)
  }

  lemma {:induction false} TraceOk(trace: seq<Run>, k: nat, workers: nat, chunks: seq<seq<string>>,
                                   outputs: seq<string>)
    requires |outputs| == |chunks| && IsTrace(trace, workers, chunks, outputs) && k < |trace|
    ensures RunOk(trace[k], workers, chunks, outputs)
  {
    if k > 0 {
      TraceOk(trace, k - 1, workers, chunks, outputs);
      assert StepTo(trace[k - 1], trace[k - 1 + 1], chunks, outputs);
    }
  }

  /** Never more chunks in flight than workers; and while chunks are left, some step is possible. */
  lemma BoundedAndLive(trace: seq<Run>, k: nat, workers: nat, chunks: seq<seq<string>>, outputs: seq<string>)
    requires |outputs| == |chunks| && IsTrace(trace, workers, chunks, outputs) && k < |trace| && workers >= 1
    ensures |trace[k].running| <= workers
    ensures trace[k].running != {} || trace[k].spawned < |chunks| ==>
              exists r' :: StepTo(trace[k], r', chunks, outputs)
  {
    TraceOk(trace, k, workers, chunks, outputs);
    var r := trace[k];
    if r.running != {} {
      var b :| b in r.running;
      var r' := Completed(r, b, Parsed(chunks[b], outputs[b]));
      assert StepTo(r, r', chunks, outputs);
    } else if r.spawned < |chunks| {
      var r' := r.(permits := r.permits - 1, spawned := r.spawned + 1, running := r.running + {r.spawned});
      assert StepTo(r, r', chunks, outputs);
    }
  }

  /** Each step starts a chunk or ends one. */
  lemma {:induction false} StepsCounted(trace: seq<Run>, k: nat, workers: nat, chunks: seq<seq<string>>,
                                        outputs: seq<string>)
    requires |outputs| == |chunks| && IsTrace(trace, workers, chunks, outputs) && k < |trace|
    ensures trace[k].spawned + |trace[k].finished| == k
  {
    if k > 0 {
      StepsCounted(trace, k - 1, workers, chunks, outputs);
      TraceOk(trace, k - 1, workers, chunks, outputs);
      assert StepTo(trace[k - 1], trace[k - 1 + 1], chunks, outputs);
      StepCounts(trace[k - 1], trace[k], workers, chunks, outputs);
    }
  }

  lemma StepCounts(r: Run, r': Run, workers: nat, chunks: seq<seq<string>>, outputs: seq<string>)
    requires |outputs| == |chunks| && RunOk(r, workers, chunks, outputs) && StepTo(r, r', chunks, outputs)
    ensures r'.spawned + |r'.finished| == r.spawned + |r.finished| + 1
  {
    if r'.spawned == r.spawned {
      var b: nat :| b < |chunks| && b in r.running && r' == Completed(r, b, Parsed(chunks[b], outputs[b]));
      KeyAdded(r.finished, b, Parsed(chunks[b], outputs[b]));
    }
  }

  lemma KeyAdded<T>(m: map<nat, T>, k: nat, x: T)
    requires k !in m
    ensures |m[k := x]| == |m| + 1
  {
    assert m[k := x].Keys == m.Keys + {k};
    assert |m[k := x]| == |m[k := x].Keys| && |m| == |m.Keys|;
  }

  lemma {:induction false} KeysBelow(s: set<nat>, n: nat)
    requires forall b :: b in s ==> b < n
    ensures |s| <= n
  {
    if n > 0 {
      KeysBelow(s - {n - 1}, n - 1);
    } else {
      assert s == {};
    }
  }

  /** So no run takes more than two steps per chunk, and one that can go no further has ended every chunk. */
  lemma EveryRunEnds(trace: seq<Run>, workers: nat, chunks: seq<seq<string>>, outputs: seq<string>)
    requires |outputs| == |chunks| && IsTrace(trace, workers, chunks, outputs) && workers >= 1
    ensures |trace| <= 2 * |chunks| + 1
    ensures var last := trace[|trace| - 1];
            (forall r' :: !StepTo(last, r', chunks, outputs)) ==>
              last.running == {} && last.spawned == |chunks| && |trace| == 2 * |chunks| + 1
  {
    var k := |trace| - 1;
    var last := trace[k];
    StepsCounted(trace, k, workers, chunks, outputs);
    TraceOk(trace, k, workers, chunks, outputs);
    assert |last.finished| == |last.finished.Keys|;
    KeysBelow(last.finished.Keys, last.spawned);
    BoundedAndLive(trace, k, workers, chunks, outputs);
    if last.running == {} && last.spawned == |chunks| {
      AllBelow(last.finished.Keys, |chunks|);
    }
  }

  lemma {:induction false} AllBelow(s: set<nat>, n: nat)
    requires forall b: nat :: b < n ==> b in s
    ensures |s| >= n
  {
    if n > 0 {
      AllBelow(s - {n - 1}, n - 1);
    }
  }

  /** Joining the handles in order. */
  function Gather(finished: map<nat, seq<TestResult>>, n: nat): seq<TestResult>
    requires forall b: nat :: b < n ==> b in finished
  {
    if n == 0 then [] else Gather(finished, n - 1) + finished[n - 1]
  }

  /** The sequential branch. */
  function Sequential(chunks: seq<seq<string>>, outputs: seq<string>, n: nat): seq<TestResult>
    requires |outputs| == |chunks| && n <= |chunks|
  {
    if n == 0 then [] else Sequential(chunks, outputs, n - 1) + Parsed(chunks[n - 1], outputs[n - 1])
  }

  /** The sequential branch as a loop. */
  method RunSequentially(chunks: seq<seq<string>>, outputs: seq<string>) returns (results: seq<TestResult>)
    requires |outputs| == |chunks|
    ensures results == Sequential(chunks, outputs, |chunks|)
  {
    results := [];
    for b := 0 to |chunks|
      invariant results == Sequential(chunks, outputs, b)
    {
      var batch := ParseBatchOutput(chunks[b], outputs[b]);
      results := results + batch;
    }
  }

  lemma {:induction false} GatherIsSequential(r: Run, workers: nat, chunks: seq<seq<string>>,
                                              outputs: seq<string>, n: nat)
    requires |outputs| == |chunks| && RunOk(r, workers, chunks, outputs)
    requires r.running == {} && n <= r.spawned
    ensures forall b: nat :: b < n ==> b in r.finished
    ensures Gather(r.finished, n) == Sequential(chunks, outputs, n)
  {
    if n > 0 {
      GatherIsSequential(r, workers, chunks, outputs, n - 1);
    }
  }

  lemma {:induction false} SequentialIds(chunks: seq<seq<string>>, outputs: seq<string>, n: nat)
    requires |outputs| == |chunks| && n <= |chunks|
    ensures NodeIds(Sequential(chunks, outputs, n)) == Flatten(chunks[..n])
  {
    if n > 0 {
      SequentialIds(chunks, outputs, n - 1);
      assert chunks[..n][..n - 1] == chunks[..n - 1];
      var a, b := Sequential(chunks, outputs, n - 1), Parsed(chunks[n - 1], outputs[n - 1]);
      assert NodeIds(a + b) == NodeIds(a) + NodeIds(b);
      assert NodeIds(b) == chunks[n - 1];
    }
  }

  /** The sequential branch returns one result per requested id, in the requested order. */
  lemma SequentialReturnsAll(ids: seq<string>, size: nat, outputs: seq<string>)
    requires size > 0 && |outputs| == |Chunks(ids, size)|
    ensures NodeIds(Sequential(Chunks(ids, size), outputs, |outputs|)) == ids
  {
    SequentialIds(Chunks(ids, size), outputs, |outputs|);
    ChunksFlatten(ids, size);
    assert Chunks(ids, size)[..|outputs|] == Chunks(ids, size);
  }

  /**
   However the chunks are interleaved, a completed parallel run returns what the sequential branch
   returns for the same outputs: one result per requested id, in the requested order.
   */
  lemma ParallelIsSequential(ids: seq<string>, size: nat, workers: nat, outputs: seq<string>, trace: seq<Run>, k: nat)
    requires size > 0 && |outputs| == |Chunks(ids, size)|
    requires IsTrace(trace, workers, Chunks(ids, size), outputs) && k < |trace|
    requires trace[k].running == {} && trace[k].spawned == |Chunks(ids, size)|
    ensures forall b: nat :: b < |outputs| ==> b in trace[k].finished
    ensures Gather(trace[k].finished, |outputs|) == Sequential(Chunks(ids, size), outputs, |outputs|)
    ensures NodeIds(Gather(trace[k].finished, |outputs|)) == ids
  {
    var chunks := Chunks(ids, size);
    TraceOk(trace, k, workers, chunks, outputs);
    GatherIsSequential(trace[k], workers, chunks, outputs, |outputs|);
    SequentialReturnsAll(ids, size, outputs);
  }
}
