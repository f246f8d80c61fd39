# rpytest verification

A Dafny model of the algorithms and protocols at the heart of rpytest, a test runner whose daemon
collects Python tests, splits them over workers, runs them on warm processes and keeps their history,
together with proofs of what they promise. Check everything with `dafny verify dfyconfig.toml`.

The project follows the program's structure: one module per component, and a class or a loop where
the Rust code has mutable state or a loop. A method is proved equal to a specification function, and
the theorems are about that function, or about every run of a state machine.

- **Load balancing** (`Lpt`, `Scheduler`, `StableSort`, `Estimates`, `Floats`). `split_balanced` sorts by estimated
  duration and assigns greedily. No optimum is defined: Graham's 4/3 - 1/(3m) bound is proved against
  the makespan of *every* assignment of the same tests to the same number of workers. The argument
  follows the job whose placement fixes the makespan: if it is at most a third of the rival's makespan,
  the batches are averaged; otherwise durations are mapped to weights 0, 1 and 2, no worker of the rival
  can carry weight above 2, and every greedy batch that the job could not join carries at least 2. The
  estimates are computed in doubles, as in the source, and shown to be the exact averages in any realistic
  range.
- **Warm workers** (`WorkerProtocol`, `WorkerPlugin`, `Pool`, `PoolSafety`, `WorkerPools`,
  `PooledExecutor`). Two-party
  request and reply between Rust and the embedded Python loop, under a pool shared by any number of
  concurrent batches. An inductive invariant gives, for every run and every interleaving: lockstep of
  the two sides, unique ownership, the size bound and legality of every state change. Every result is
  traced to a line that answers exactly its batch, and a run conserves its tests exactly when no test
  fails in its teardown.
- **Flakiness** (`Flakiness`). The tracker keeps a bounded window and counters; the specification is a
  function of the unbounded history. The two agree exactly when the window holds at least one outcome,
  and what the legacy heuristic says about the window is stated in terms of the history too.
- **Collection and matching** (`Expressions`, `Nodes`, `Parametrize`, `DedupIds`, `Inheritance`,
  `ShellWords`). The keyword evaluator is given a meaning on every text and inverts the printing of
  trees, stacked parametrize is mixed-radix enumeration, inherited tests come from one class, and quoting
  is undone by splitting.
- **Stores and accounting** (`InventoryStore`, `BatchOutput`, `Executor`, `Context`,
  `Nodes`). Isolation of contexts in
  a shared key space, result conservation in the subprocess executor, histories that stay in step over
  any sequence of runs, and the drift of a mean that is truncated after every update.
- `Seqs`, `Arithmetic` and `Models` hold the shared vocabulary.

Where a natural claim is false of the code, an input shows it and the exact condition under which it
holds is proved:

- Recent failures do not always run first (`Scheduler.FailedFirstExample`); they do exactly when each
  outranks every other test by estimate and boost (`Scheduler.FailedFirstExactly`).
- A tracker with an empty window, which the derived `Default` gives, misses every flip and never finds a
  test flaky (`Flakiness.WindowRefinesExactly`, `Flakiness.EmptyWindowNeverFlaky`).
- A confirmed verdict can outlive every pass and failure in the window (`Flakiness.ConfirmedOutlivesWindow`);
  the legacy heuristic agrees with a flaky verdict exactly when the window holds three outcomes and still
  shows a pass and a failure (`Flakiness.FlakyAgreesExactly`).
- A pooled run can report a test twice (`WorkerPlugin.TeardownExample`) or lose tests
  (`WorkerPlugin.NothingRunExample`). As long as none is missing from its batch's results, it names every
  test once exactly when the lines its own batches have read do (`PoolSafety.ParallelRunExactly`; two
  wrong batches can make up for each other, `PoolSafety.SwappedExample`). When pytest's runner has run
  each test of a batch, none is missing, and the condition is that no teardown fails
  (`PooledExecutor.PooledRunExactly`).
- The subprocess executor can report a failing or erroring test as passed (`BatchOutput.SpacedIdExample`,
  `BatchOutput.ErrorExample`). Status lines of ids without white space are read back exactly when no later
  line speaks about an earlier test (`BatchOutput.ReadBackExactly`); other ids get what the summary
  suggests (`BatchOutput.SpacedIdFallsBack`), and an error is reported exactly when nothing speaks about
  the test and the summary says so (`BatchOutput.ErrorExactly`).
- Deduplicated ids can repeat (`DedupIds.ClashExample`, `DedupIds.DistinctExactly`).
- The inheritance walk does not end when base names reach a cycle (`Inheritance.CycleExample`,
  `Inheritance.WalkEndsExactly`, `Inheritance.FileWalksEndExactly`).
- Contexts can read each other's nodes (`InventoryStore.ColonExample`); they are isolated exactly when
  neither id, closed by a colon, begins the other (`InventoryStore.IsolationExactly`,
  `InventoryStore.ClearIsolationExactly`).
- Saving does not delete nodes that the new inventory lacks (`InventoryStore.OverlayExample`); loading
  returns what was saved exactly when there are none (`InventoryStore.SaveRestoresExactly`).
- Quoting and splitting loses exactly the empty words (`ShellWords.RoundTripExactly`), and a space
  separates two texts exactly when the first ends outside quotes with no escape pending
  (`ShellWords.SpaceSeparatesExactly`).

Where comments and code differ, the model does what the code does. `deduplicate_ids` and failed-first
ordering promise more than holds, as said above; the list of worker transitions omits edges that
`transition_to` accepts (a ready or busy worker may die); the "moving average" of a test's duration is a
running mean over all runs. The expression grammar is the code's own: `not` takes everything after it and
`or` binds tighter than `and`, unlike in pytest, and only blanks, not other white space, delimit the
operators.

## Model

| member | source | states |
|---|---|---|
| Scheduler.SplitWithinGraham | crates/rpytest-daemon/src/scheduler.rs:128-159 | For m = max(1, worker count) and any assignment of the same tests to m workers with makespan c, every returned batch satisfies 3m·load <= (4m-1)·c |
| Scheduler.SplitPartition | crates/rpytest-daemon/src/scheduler.rs:128-159 | The batches hold exactly the requested tests as a multiset |
| Scheduler.SplitShape | crates/rpytest-daemon/src/scheduler.rs:128-159 | One worker, or no test, gives the request as the only batch; there are never more batches than max(1, worker count) |
| Scheduler.SplitIsPrefix | crates/rpytest-daemon/src/scheduler.rs:139-158 | Past the shortcut, dropping empty batches removes a suffix: the kept ones are the first min(m, n, positives + 1) workers in order |
| Scheduler.SplitCount | crates/rpytest-daemon/src/scheduler.rs:139-158 | Past the one-worker and empty-list shortcut: the exact number of batches, min(n, m) when all estimates are positive |
| Scheduler.SplitOrder | crates/rpytest-daemon/src/scheduler.rs:133-158 | Past the shortcut, which keeps the requested order in one batch, no batch is empty and each is in non-increasing estimate order |
| Scheduler.SplitBalance | crates/rpytest-daemon/src/scheduler.rs:139-158 | Past the shortcut a batch without its last test is at most every one of the m totals, the unused workers' zero totals included |
| Lpt.GrahamBound | crates/rpytest-daemon/src/scheduler.rs:139-155 | Graham's bound for longest-first greedy placement, against every assignment |
| Lpt.ListBound | crates/rpytest-daemon/src/scheduler.rs:139-155 | The list-scheduling bound 2 - 1/m for greedy placement in any order |
| Lpt.LongCriticalJob | crates/rpytest-daemon/src/scheduler.rs:139-155 | If the last, shortest job exceeds a third of the rival's makespan, it and the least greedy total fit into that makespan |
| Lpt.GreedyBalanced | crates/rpytest-daemon/src/scheduler.rs:139-155 | Every batch without its last job is at most every total |
| Lpt.GreedyInUse | crates/rpytest-daemon/src/scheduler.rs:139-155 | Which batches greedy placement starts, zero durations included |
| Lpt.TotalsBounded | crates/rpytest-daemon/src/scheduler.rs:140-155 | No running total exceeds the sum of all estimates, so no total overflows when that sum fits |
| Scheduler.FirstMinimum | crates/rpytest-daemon/src/scheduler.rs:143-150 | The first index of the least total |
| Scheduler.AssignGreedily | crates/rpytest-daemon/src/scheduler.rs:139-155 | The loop over `batches` and `batch_durations` computes greedy placement |
| Scheduler.TestScheduler.SplitBalanced | crates/rpytest-daemon/src/scheduler.rs:128-159 | From its own estimates: the split the theorems are about, the request itself for one worker or no test, and never more batches than max(1, worker count) |
| Scheduler.TestScheduler.Schedule | crates/rpytest-daemon/src/scheduler.rs:81-119 | The order is a stable sort of the requested ids, longest estimate first, where with failed-first a recent failure counts 1,000,000 ms longer |
| Scheduler.SortIds | crates/rpytest-daemon/src/scheduler.rs:93-118 | Sorting records by stored priority sorts the ids by the priority of each id |
| StableSort.SortDescIsStableSort | crates/rpytest-daemon/src/scheduler.rs:116 | The sort is a permutation, descending, and keeps the order of equal keys |
| StableSort.StableSortUnique | crates/rpytest-daemon/src/scheduler.rs:116 | There is only one such order, so any stable sort computes it |
| Scheduler.FailedFirstExactly | crates/rpytest-daemon/src/scheduler.rs:81-119 | Recent failures all come first if and only if each outranks every other test by estimate and boost, or by position on a tie |
| Scheduler.FailedFirstExample | crates/rpytest-daemon/src/scheduler.rs:81-119 | A test of 1,002,000 ms runs before a recent failure estimated at the default 1,000 ms |
| Scheduler.FailedFirstBelowBoost | crates/rpytest-daemon/src/scheduler.rs:81-119 | With estimates in doubles, they come first whenever the default and all retained durations are below 1,000,000 ms |
| Scheduler.TestScheduler.UpdateDuration | crates/rpytest-daemon/src/scheduler.rs:30-41 | The history becomes the last ten of itself and the new duration; no other test's history changes, and none exceeds ten |
| Scheduler.TestScheduler.GetEstimatedDuration | crates/rpytest-daemon/src/scheduler.rs:44-70 | Default without history, a single duration as it is, otherwise the average computed in doubles; it is the exact halving-weight average for at most ten durations below 2^43 ms |
| Estimates.WeightedAverage | crates/rpytest-daemon/src/scheduler.rs:57-69 | Without rounding, for durations of any size and number, the loop with weights 0.5^(k-1-i) computes floor(sum d_i·2^i / (2^k - 1)) |
| Floats.WeightedAverageInFloats | crates/rpytest-daemon/src/scheduler.rs:57-69 | The same loop in doubles, each product, sum and quotient rounded and the result truncated, computes the exact average for at most ten durations below 2^43 ms |
| Floats.FloatsAreExact | crates/rpytest-daemon/src/scheduler.rs:57-69 | Every product and sum of the loop is exact in doubles, and the rounded quotient truncates to the exact average |
| Floats.NearestTruncates | crates/rpytest-daemon/src/scheduler.rs:69 | A double nearest to a quotient below 2^43 with a denominator below 1024 truncates to the quotient's floor |
| Estimates.EstimateBetween | crates/rpytest-daemon/src/scheduler.rs:44-70 | The estimate lies between the least and the greatest retained duration |
| Estimates.OlderRun | crates/rpytest-daemon/src/scheduler.rs:57-69 | An older run in front adds its duration once and doubles the weight of all later runs |
| Estimates.AverageOfTwo | crates/rpytest-daemon/src/scheduler.rs:57-69 | Two runs a and then b average to floor((a + 2b) / 3) |
| WorkerPools.WarmWorker.RunTests | crates/rpytest-daemon/src/pool.rs:385-476 | A done line gives its log, counts the run and leaves the worker Ready, or Recycling at 100 runs; an error line gives its message and leaves it Recycling; no line does too; a worker that is not ready is untouched; all its state changes so far are legal edges |
| WorkerPools.WarmWorker.IsAlive | crates/rpytest-daemon/src/pool.rs:486-506 | False exactly when dead or no longer running, in which case the state becomes Dead, legally |
| WorkerPools.WarmWorker.Shutdown | crates/rpytest-daemon/src/pool.rs:517-543 | A worker already recycling is left alone, any other ends Dead, through legal edges only |
| WorkerPools.WorkerPool.constructor | crates/rpytest-daemon/src/pool.rs:562-580 | A new pool is an initial state of the concurrent model |
| WorkerPools.WorkerPool.EnsureWorkers | crates/rpytest-daemon/src/pool.rs:583-600 | Adds one fresh worker per successful spawn and never exceeds the size |
| WorkerPools.WorkerPool.Acquire | crates/rpytest-daemon/src/pool.rs:606-632 | The popping loop finds and drops what the model's acquire step finds and drops |
| WorkerPools.WorkerPool.Release | crates/rpytest-daemon/src/pool.rs:637-653 | A ready worker goes to the back while there is room; any other worker is dropped |
| WorkerPools.AcquireIsStep | crates/rpytest-daemon/src/pool.rs:606-632 | What `Acquire` leaves, with its task moved on, is an acquire step of the concurrent model |
| WorkerPools.ReleaseIsStep | crates/rpytest-daemon/src/pool.rs:637-653 | What `Release` leaves is a release step |
| WorkerPools.RefillIsStep | crates/rpytest-daemon/src/pool.rs:583-600 | What `EnsureWorkers` leaves is a refill step |
| WorkerProtocol.TransitionsExactly | crates/rpytest-daemon/src/pool.rs:248-277 | The accepted edges by target: anything but Dead to Dead, Spawning and Busy to Ready, Ready to Busy, Ready and Busy to Recycling |
| Pool.AcquireDropsOnlyTheGone | crates/rpytest-daemon/src/pool.rs:606-632 | With pooled workers ready and in lockstep, only workers whose process is gone are dropped, and a live one is found if there is any |
| Pool.AddWorkersInv | crates/rpytest-daemon/src/pool.rs:583-600 | Refilling keeps the pool invariant |
| Pool.StepInv | crates/rpytest-daemon/src/pool.rs:583-751 | Every step of every task, process or death keeps the pool invariant |
| Pool.RunInv | crates/rpytest-daemon/src/pool.rs:560-751 | The invariant holds in every state of every run |
| PoolSafety.EveryStateSafe | crates/rpytest-daemon/src/pool.rs:583-712 | In every state of every run: at most `size` pooled; each worker owned once, by the pool or one task; pooled workers Ready with run count below 100; live workers at most size plus batches in flight; ready workers in lockstep with an empty pipe; busy workers face only their own reply |
| PoolSafety.EveryTransitionLegal | crates/rpytest-daemon/src/pool.rs:248-277 | Every state change of a surviving worker in any run is an edge `transition_to` accepts |
| PoolSafety.AcquireBranchesUnreachable | crates/rpytest-daemon/src/pool.rs:617-628 | In no run does acquire reach its recycling or unexpected-state branch, and it finds a worker exactly when a live one is pooled |
| PoolSafety.LiveWorkers | crates/rpytest-daemon/src/pool.rs:583-712 | Live workers are at most size plus batches in flight |
| PoolSafety.OneOwner | crates/rpytest-daemon/src/pool.rs:606-653 | A live worker has one place in the pool or one owning task, not both |
| PoolSafety.OutcomeForever | crates/rpytest-daemon/src/pool.rs:656-739 | Once a batch has its outcome, its tests, outcome and being finished never change in the rest of the run |
| PoolSafety.ResultsAreDelivered | crates/rpytest-daemon/src/pool.rs:431-476 | Provenance, for any run: the results of a non-empty batch are the log of a done line that this batch read from its worker and that carries exactly its tests |
| PoolSafety.ReadAnswers | crates/rpytest-daemon/src/pool.rs:431-476 | Reading a done line gives the batch its log, reading an error line the error `Worker error: ` with its message |
| PoolSafety.FailureAnswers | crates/rpytest-daemon/src/pool.rs:661-706 | Failing to spawn or to shake hands is `Worker pool exhausted: ` with the reason, failing later `Worker error: ` |
| PoolSafety.EmptyBatchIsFree | crates/rpytest-daemon/src/pool.rs:657-659 | An empty batch finishes at once and leaves the pool alone |
| PoolSafety.BatchCanSucceed | crates/rpytest-daemon/src/pool.rs:656-712 | For any batch and any reports there is a run in which it returns their log and its worker then waits in the pool |
| PoolSafety.FailedBatchErrs | crates/rpytest-daemon/src/pool.rs:669-706 | A failed batch contributes one Error of 0 ms per test, in order, with a message that says whether the pool was exhausted or the worker erred |
| PoolSafety.BatchConservesExactly | crates/rpytest-daemon/src/pool.rs:656-712 | A finished batch names each of its tests once if and only if the done line it read, if any, does |
| PoolSafety.ParallelRunConserves | crates/rpytest-daemon/src/pool.rs:715-739 | Results collected over the handles, each joined at its own time, name every test of every batch once, under any interleaving and failures, if the done lines read by these batches do; other callers' lines do not matter |
| PoolSafety.ParallelRunExactly | crates/rpytest-daemon/src/pool.rs:715-739 | As long as no batch comes back with a test missing, it names every test once if and only if each of these lines does |
| PoolSafety.SwappedExample | crates/rpytest-daemon/src/pool.rs:715-739 | Two batches that report each other's test make up for each other |
| PoolSafety.ParallelRunUnderPytest | crates/rpytest-daemon/src/pool.rs:715-739 | Under pytest's runner no test is missing, and each is named once if and only if no teardown fails |
| PoolSafety.PassingRun | crates/rpytest-daemon/src/pool.rs:715-739 | A call in which no batch fails and every test passes returns only Passed |
| WorkerPlugin.Plugin.LogReport | crates/rpytest-daemon/src/pool.rs:34-55 | A report adds one result for the call with its verdict, Skipped for a skipped setup, Error for a failed setup or teardown, and nothing otherwise |
| WorkerPlugin.SessionResults | crates/rpytest-daemon/src/pool.rs:34-55 | A session logs for each test the outcome, duration and message of its setup or call, and after it an Error when its teardown fails |
| WorkerPlugin.ResultOfEach | crates/rpytest-daemon/src/pool.rs:34-55 | When every teardown succeeds, entry i is test i: Error or Skipped by its setup, else Passed, Failed or Skipped by its call |
| WorkerPlugin.EachOnceExactly | crates/rpytest-daemon/src/pool.rs:34-55 | For tests run by setup, call and teardown, the log names each once if and only if every teardown succeeds, and never misses one |
| WorkerPlugin.TeardownExample | crates/rpytest-daemon/src/pool.rs:34-55 | A test that passes and whose teardown fails is logged twice |
| WorkerPlugin.NothingRunExample | crates/rpytest-daemon/src/pool.rs:34-55 | When pytest makes no report, because one id is unknown, every test of the batch is lost |
| PooledExecutor.PooledRunConserves | crates/rpytest-daemon/src/executor.rs:645-682 | From requested list to returned list: each requested test is named as often as it was asked for, if the done lines read for this call name each test once |
| PooledExecutor.PooledRunExactly | crates/rpytest-daemon/src/executor.rs:645-682 | Under pytest's runner, if and only if no test of the run fails in its teardown |
| PooledExecutor.BatchesOfFifty | crates/rpytest-daemon/src/executor.rs:645-682 | Up to 50 tests are one batch in the requested order; more make at most one batch per started fifty and per worker |
| PooledExecutor.WorkersNeeded | crates/rpytest-daemon/src/executor.rs:645-682 | Past 50 tests with positive estimates all workers are used, or enough for fifties |
| Flakiness.WindowRefinesHistory | crates/rpytest-daemon/src/flakiness.rs:151-224 | Replaying updates on a bounded window of at least one gives, for any history, the last outcomes, true-predecessor stability, flip count, longest suffixes, total and last message of the full history |
| Flakiness.WindowRefinesExactly | crates/rpytest-daemon/src/flakiness.rs:115-126 | That holds for all histories if and only if the window is at least one |
| Flakiness.EmptyWindowNeverFlaky | crates/rpytest-daemon/src/flakiness.rs:115-126 | A tracker without a window never counts a flip and never reports a test flaky |
| Flakiness.SummaryNext | crates/rpytest-daemon/src/flakiness.rs:151-224 | One incremental update of a summary is the summary of the longer history |
| Flakiness.RecordKeepsReplays | crates/rpytest-daemon/src/flakiness.rs:151-224 | Over interleaved recordings of any tests, with any window, every record stays the replay of its own test's history |
| Flakiness.Update | crates/rpytest-daemon/src/flakiness.rs:166-223 | The field updates, in source order, compute the incremental step |
| Flakiness.FlakinessTracker.RecordOutcome | crates/rpytest-daemon/src/flakiness.rs:151-224 | With any window, extends the test's history by the event, keeps every record its history's replay, and marks the tracker dirty |
| Flakiness.FlakinessTracker.GetRecord | crates/rpytest-daemon/src/flakiness.rs:227-229 | The record is the replay of the full history, and its summary when the window holds an outcome |
| Flakiness.FlakinessTracker.IsFlaky | crates/rpytest-daemon/src/flakiness.rs:232-236 | With a window the verdict is that of the state machine over the full history, without one it is always no; a flaky verdict implies two flips |
| Flakiness.ReachableStates | crates/rpytest-daemon/src/flakiness.rs:14-111 | What each state says about the history: run lengths, the alternation behind Flaky 1 and 2, four alternating outcomes behind ConfirmedFlaky, and a last outcome that neither passes nor fails behind Unknown |
| Flakiness.ConfirmedExactly | crates/rpytest-daemon/src/flakiness.rs:14-111 | Confirmed flaky if and only if four alternating outcomes with a pass have not been followed by two passes or two failures in a row |
| Flakiness.CountedExactly | crates/rpytest-daemon/src/flakiness.rs:14-111 | The number in Stable and Unstable is the length of the current streak, less one when its first outcome was taken as a flip |
| Flakiness.ErrorsCountAsFailures | crates/rpytest-daemon/src/flakiness.rs:14-224 | Replacing every Error by Failed changes neither stability nor flips nor streaks |
| Flakiness.FlakyMeansFlips | crates/rpytest-daemon/src/flakiness.rs:14-111 | A flaky state implies at least two flips in the history |
| Flakiness.LegacyExactly | crates/rpytest-daemon/src/flakiness.rs:246-256 | What the legacy heuristic on the window says about the full history, exactly |
| Flakiness.FlakyAgreesExactly | crates/rpytest-daemon/src/flakiness.rs:232-256 | For a flaky state the legacy heuristic agrees if and only if the window holds three outcomes and the last pass and the last failure are both inside it |
| Flakiness.TwoFlipsMeanLegacyFlaky | crates/rpytest-daemon/src/flakiness.rs:246-256 | Flaky with streak 2 satisfies the legacy heuristic if and only if the window holds three outcomes |
| Flakiness.ConfirmedOutlivesWindow | crates/rpytest-daemon/src/flakiness.rs:80-111 | Any confirmed test, after as many skips as the window holds, is still confirmed while its window shows neither pass nor failure and the legacy heuristic denies it |
| Flakiness.AlternationConfirms | crates/rpytest-daemon/src/flakiness.rs:14-111 | Pass, o, pass, o is confirmed flaky if and only if o is Failed or Error |
| Expressions.EvaluatorOnEveryText | crates/rpytest-core/src/inventory/nodes.rs:187-245 | On every text the evaluator computes the algorithm on its words and the white space between them; blank text is an atom |
| Expressions.EvaluatorOnPhrase | crates/rpytest-core/src/inventory/nodes.rs:187-245 | So it does for any words with any white space between and around them |
| Expressions.EvaluatorInvertsPrinting | crates/rpytest-core/src/inventory/nodes.rs:187-245 | Evaluating any text that spells a tree, with any number of blanks, evaluates the tree |
| Expressions.EvaluatorOnPrinted | crates/rpytest-core/src/inventory/nodes.rs:187-245 | In particular, evaluating the printed tree gives the tree's value |
| Expressions.EvaluatorOnFlat | crates/rpytest-core/src/inventory/nodes.rs:187-245 | Every parenthesis-free expression spells exactly one tree, and its text evaluates to that tree's value |
| Expressions.OneTree | crates/rpytest-core/src/inventory/nodes.rs:187-211 | Parsing the words of a tree gives back the tree |
| Expressions.OrBindsTighter | crates/rpytest-core/src/inventory/nodes.rs:187-245 | `x or not y and z` means (x or not y) and z |
| Expressions.NotTakesAll | crates/rpytest-core/src/inventory/nodes.rs:187-245 | `not x and y` means not (x and y) |
| Expressions.WordIsAtom | crates/rpytest-core/src/inventory/nodes.rs:187-245 | A single word, whatever it is, is an atom |
| Expressions.WhiteSpaceIs | crates/rpytest-core/src/inventory/nodes.rs:188 | Trimming removes the 25 characters of Unicode White_Space |
| Expressions.ParseExpr | crates/rpytest-core/src/inventory/nodes.rs:187-211 | The tree that a flat word list spells prints back to that list |
| Nodes.KeywordReadsTree | crates/rpytest-core/src/inventory/nodes.rs:187-211 | `matches_keyword` on a text that spells a tree evaluates it with case-folded substring atoms |
| Nodes.MarkerReadsTree | crates/rpytest-core/src/inventory/nodes.rs:214-245 | `matches_marker` on a text that spells a tree evaluates it with exact marker membership |
| Nodes.KeywordSelectsExactly | crates/rpytest-core/src/inventory/nodes.rs:205-211 | A plain keyword selects a node if and only if, up to case, some keyword of it or its id contains it |
| Nodes.MarkerSelectsExactly | crates/rpytest-core/src/inventory/nodes.rs:214-245 | A plain marker selects a node if and only if it is one of its markers |
| Nodes.MeanDrift | crates/rpytest-core/src/inventory/nodes.rs:248-254 | After n runs of total S, S - n(n-1)/2 <= n·mean <= S |
| Nodes.MeanWithinRange | crates/rpytest-core/src/inventory/nodes.rs:248-254 | The truncating mean stays between the least and greatest recorded duration |
| Nodes.TestNode.RecordDuration | crates/rpytest-core/src/inventory/nodes.rs:248-254 | The stored count and mean are those of all durations recorded so far |
| Parametrize.ProductEnumerates | crates/rpytest-daemon/src/collector.rs:1932-1962 | Entry k of the product is the combination picked by the mixed-radix digits of k |
| Parametrize.EntryClosedForm | crates/rpytest-daemon/src/collector.rs:1932-1962 | Entry k takes from decorator j its names and the value at index (k div later sizes) mod n_j |
| Parametrize.DigitClosedForm | crates/rpytest-daemon/src/collector.rs:1942-1959 | Digit j of k is (k div later sizes) mod n_j |
| Parametrize.DigitsOfValue | crates/rpytest-daemon/src/collector.rs:1942-1959 | Every digit list is the digits of its value |
| Parametrize.ValueOfDigits | crates/rpytest-daemon/src/collector.rs:1942-1959 | Every index is the value of its digits |
| Parametrize.EveryCombinationOnce | crates/rpytest-daemon/src/collector.rs:1932-1962 | Each choice of one value per decorator occurs, at exactly one index |
| Parametrize.ComputeCartesian | crates/rpytest-daemon/src/collector.rs:1932-1962 | The recursion with its result vector computes the product of the remaining decorators |
| Parametrize.GenerateCartesianProduct | crates/rpytest-daemon/src/collector.rs:1902-1929 | Nothing for no decorator; the one-decorator shortcut and the recursion both give the product |
| DedupIds.DeduplicateIds | crates/rpytest-daemon/src/collector.rs:926-952 | Same length; an id occurring once is kept; the r-th occurrence of a repeated id gets suffix r |
| DedupIds.FinalIdExactly | crates/rpytest-daemon/src/collector.rs:937-949 | An id that occurs once is kept, one that occurs more often becomes id, underscore and the number of its earlier occurrences |
| DedupIds.DecimalDenotes | crates/rpytest-daemon/src/collector.rs:943 | The printed number is read back by its digits and has no superfluous zero |
| DedupIds.DistinctExactly | crates/rpytest-daemon/src/collector.rs:926-952 | The output is pairwise distinct if and only if no once-occurring id equals a suffixed occurrence of a repeated one |
| DedupIds.SuffixedInjective | crates/rpytest-daemon/src/collector.rs:943 | Id and rank can be read back from a suffixed id |
| DedupIds.DecimalInjective | crates/rpytest-daemon/src/collector.rs:943 | Decimal printing is injective |
| DedupIds.ClashExample | crates/rpytest-daemon/src/collector.rs:926-952 | `a`, `a`, `a_0` is not made distinct |
| Inheritance.WalkEndsExactly | crates/rpytest-daemon/src/collector.rs:1697-1715 | The walk from a class ends if and only if following base names from it never returns to a class, and then within the length of the file |
| Inheritance.FileWalksEndExactly | crates/rpytest-daemon/src/collector.rs:1069-1112 | The walks of a whole file all end if and only if no collected class reaches a cycle |
| Inheritance.CycleExample | crates/rpytest-daemon/src/collector.rs:1697-1715 | A class that names itself as its base reaches a cycle |
| Inheritance.WalkSameDeeper | crates/rpytest-daemon/src/collector.rs:1697-1715 | The walk does not depend on the bound used to describe it |
| Inheritance.OneClassProvides | crates/rpytest-daemon/src/collector.rs:1069-1112 | In an acyclic file, for every test name a class's nodes come from one class: itself, or the first in depth-first preorder of its bases that offers any; diamonds add nothing |
| Inheritance.AddAllNamed | crates/rpytest-daemon/src/collector.rs:1643-1716 | Walking any list of base classes adds, per test name, the first offer, and only if there were no nodes yet |
| Inheritance.OtherStatement | crates/rpytest-daemon/src/collector.rs:1044-1116 | A statement that does not collect a class of that name leaves the class's nodes alone |
| Inheritance.DefNodesExactly | crates/rpytest-daemon/src/collector.rs:1174-1240 | A test function or method yields one node per suffix in their order, anything else none |
| Inheritance.OwnNodesExactly | crates/rpytest-daemon/src/collector.rs:1119-1171 | The own nodes of a class are those of its test methods and of the test classes nested in it |
| Inheritance.InheritedNodesExactly | crates/rpytest-daemon/src/collector.rs:1643-1696 | From a base come the nodes of its `test_` methods whose names are not taken |
| Inheritance.FunctionNodesExactly | crates/rpytest-daemon/src/collector.rs:1036-1116 | The nodes without a class are those of the file's test functions |
| Inheritance.FindClassIsFirst | crates/rpytest-daemon/src/collector.rs:1627-1641 | A base name means the first class of that name |
| Inheritance.Collector.ExtractStmtItems | crates/rpytest-daemon/src/collector.rs:1036-1116 | On an acyclic file the loop appends exactly the specified nodes to the shared vector |
| Inheritance.Collector.CollectInheritedTests | crates/rpytest-daemon/src/collector.rs:1643-1716 | The recursion pushes what folding over the depth-first preorder adds |
| InventoryStore.EachContextShowsItsOwn | crates/rpytest-core/src/inventory/store.rs:164-270 | After any saves and clears by a context and by contexts apart from it, it stores exactly the overlay of what was saved for it since its last clear |
| InventoryStore.IsolationExactly | crates/rpytest-core/src/inventory/store.rs:164-194 | No save for one context changes what another shows if and only if neither id, closed by a colon, begins the other |
| InventoryStore.ClearIsolationExactly | crates/rpytest-core/src/inventory/store.rs:248-270 | Nor does any clear, if and only if the same holds |
| InventoryStore.ColonFreeApart | crates/rpytest-core/src/inventory/store.rs:164-270 | Different ids without colons are apart |
| InventoryStore.PrefixConfusion | crates/rpytest-core/src/inventory/store.rs:229-236 | A scan for one context can meet a key of another if and only if one id with a colon is a prefix of the other with a colon |
| InventoryStore.ColonExample | crates/rpytest-core/src/inventory/store.rs:164-245 | Loading `x` returns a node that was saved for `x:y` |
| InventoryStore.SaveShowsOverlay | crates/rpytest-core/src/inventory/store.rs:164-194 | Saving puts the inventory on top of what the context showed; nothing is deleted |
| InventoryStore.SaveRestoresExactly | crates/rpytest-core/src/inventory/store.rs:164-245 | Saving and loading returns the saved nodes if and only if the new inventory has every node that was there before |
| InventoryStore.OverlayExample | crates/rpytest-core/src/inventory/store.rs:164-245 | Saving `t`, then saving `u`, then loading returns both |
| InventoryStore.SaveElsewhere | crates/rpytest-core/src/inventory/store.rs:164-194 | Saving for one context changes nothing that a context apart from it shows |
| InventoryStore.ClearShowsEmpty | crates/rpytest-core/src/inventory/store.rs:248-270 | Clearing leaves the context empty |
| InventoryStore.ClearElsewhere | crates/rpytest-core/src/inventory/store.rs:248-270 | Clearing one context changes nothing that a context apart from it shows |
| InventoryStore.Storage.Save | crates/rpytest-core/src/inventory/store.rs:164-194 | Writes the nodes, the metadata and the schema version, and no other key |
| InventoryStore.SavedKeys | crates/rpytest-core/src/inventory/store.rs:164-194 | The keys and values spelled out: `inv:context:id`, `ctx:context:_meta` and version 1 under `_schema_version` |
| InventoryStore.Storage.ClearStorage | crates/rpytest-core/src/inventory/store.rs:248-270 | Removes exactly the keys under the context's prefix and its metadata |
| InventoryStore.Storage.Load | crates/rpytest-core/src/inventory/store.rs:197-245 | On any store: another schema version and undecodable metadata or nodes give their errors, otherwise the decoded nodes under the prefix, each under its own id, with metadata and count |
| InventoryStore.LoadReturnsShown | crates/rpytest-core/src/inventory/store.rs:197-245 | Loading a context returns exactly the nodes and metadata it shows, with the count set |
| InventoryStore.LoadRefuses | crates/rpytest-core/src/inventory/store.rs:197-245 | Which stores are refused, and with which error |
| InventoryStore.LoadEmpty | crates/rpytest-core/src/inventory/store.rs:197-245 | An empty store loads as an empty inventory with default metadata |
| ShellWords.SplitWords | crates/rpytest/src/config/loader.rs:268-313 | The character loop computes the state machine that the theorems are about |
| ShellWords.SplitUndoesWriting | crates/rpytest/src/config/loader.rs:268-313 | However words are written, bare, in single or double quotes, with backslashes or mixed, and whatever blanks, tabs and line feeds stand around them, splitting returns the non-empty words |
| ShellWords.UnclosedQuote | crates/rpytest/src/config/loader.rs:268-313 | After such a line an unclosed quote is an error and a final backslash is dropped |
| ShellWords.SplitUndoesQuoting | crates/rpytest/src/config/loader.rs:268-313 | Quoting words with escapes, joining and splitting returns the non-empty words |
| ShellWords.RoundTripExactly | crates/rpytest/src/config/loader.rs:268-313 | The round trip is exact if and only if no word is empty |
| ShellWords.SplitAfterClean | crates/rpytest/src/config/loader.rs:268-313 | After a text that ends clean, splitting distributes over a space, errors included |
| ShellWords.SpaceSeparatesExactly | crates/rpytest/src/config/loader.rs:268-313 | It distributes for every continuation if and only if the first text ends clean |
| BatchOutput.ParseBatchOutput | crates/rpytest-daemon/src/executor.rs:411-504 | From the output text: one pass over its lines and one lookup per test give one result per id in order, each the outcome of the last line that mentions the test, with the summary phrases as fallback |
| BatchOutput.ReadBackExactly | crates/rpytest-daemon/src/executor.rs:411-504 | For ids without white space, a text with one status line per test is read back test by test whatever the outcomes, errors aside, if and only if no later line repeats an id or has it after its last `::` |
| BatchOutput.SpacedIdFallsBack | crates/rpytest-daemon/src/executor.rs:411-504 | A test with white space in its id, and in what follows the first `::` of it, is never found in any output and gets what the summary suggests |
| BatchOutput.SpacedIdExample | crates/rpytest-daemon/src/executor.rs:411-504 | The failing test `m::t[a b]` is read as passed beside a passing one |
| BatchOutput.ErrorExample | crates/rpytest-daemon/src/executor.rs:411-504 | The only test of a run, failing in its setup, is read as passed |
| BatchOutput.ErrorExactly | crates/rpytest-daemon/src/executor.rs:463-490 | A test is an error if and only if no line mentions it, the summary shows errors, and passes and failures are both or neither shown |
| BatchOutput.FallbackExactly | crates/rpytest-daemon/src/executor.rs:455-491 | What a test gets of which no line speaks, by the literal summary phrases in the text |
| BatchOutput.StatusWordExactly | crates/rpytest-daemon/src/executor.rs:428-442 | A status word starts with PASSED, FAILED, SKIPPED, XFAIL or XPASS |
| BatchOutput.AfterFirstExactly | crates/rpytest-daemon/src/executor.rs:469-474 | A test's short name is what follows the first `::` of its id |
| BatchOutput.AfterLastExactly | crates/rpytest-daemon/src/executor.rs:444-452 | A line's short name is what follows the last `::` of its first word |
| Executor.BoundedAndLive | crates/rpytest-daemon/src/executor.rs:240-255 | Never more chunks in flight than workers, and the run can always go on until all are done |
| Executor.EveryRunEnds | crates/rpytest-daemon/src/executor.rs:240-266 | No run takes more than two steps per chunk, and one that can go no further has ended every chunk |
| Executor.ParallelIsSequential | crates/rpytest-daemon/src/executor.rs:225-277 | In any interleaving a completed parallel run returns the sequential result, one per id in input order |
| Executor.SequentialReturnsAll | crates/rpytest-daemon/src/executor.rs:268-276 | The sequential branch returns one result per id in input order |
| Executor.RunSequentially | crates/rpytest-daemon/src/executor.rs:268-276 | The sequential loop computes the sequential results |
| Executor.ChunksFlatten | crates/rpytest-daemon/src/executor.rs:230-234 | Chunking loses, adds and reorders nothing |
| Executor.ChunkSizes | crates/rpytest-daemon/src/executor.rs:230-234 | Every chunk but the last is full and none is empty |
| Context.AccountingBalances | crates/rpytest-daemon/src/context.rs:433-492 | Each counter is the number of results with its outcome, skipped also the tests not run; the total is the number of requested ids and the sum of the counters and the xfail and xpass results |
| Context.SummaryTallies | crates/rpytest-daemon/src/context.rs:466-490 | Passed, failed, skipped and errors are the numbers of results with that outcome, skipped also counting the tests not run |
| Context.SubprocessAccounting | crates/rpytest-daemon/src/context.rs:420-492 | With the parallel branch of the subprocess executor the summary balances, however its chunks interleave |
| Context.SequentialAccounting | crates/rpytest-daemon/src/context.rs:420-492 | With its sequential branch the summary balances |
| Context.PooledAccounting | crates/rpytest-daemon/src/context.rs:420-492 | With the pooled executor the summary balances under any interleaving and any worker failures, if the done lines read for this run name each test once |
| Context.EveryIdOnce | crates/rpytest-daemon/src/context.rs:375-396 | Every requested id is run as often as it was asked for, or, marked as skipped, counted as often and not run |
| Context.RunnableInOrder | crates/rpytest-daemon/src/context.rs:375-396 | The ids that are run keep the requested order |
| Context.AfterAllInStep | crates/rpytest-daemon/src/context.rs:433-474 | Any results keep the histories in step: the context's window is the last ten durations, the scheduler's the last ten it was told, both with the same tests and latest duration, and the outcome history is the tracker's |
| Context.DurationsAppend | crates/rpytest-daemon/src/context.rs:439-447 | Each duration history grows by exactly the test's results, in order |
| Context.EventsAppend | crates/rpytest-daemon/src/context.rs:449-464 | Each event history grows by exactly the test's results, in order |
| Context.RunTells | crates/rpytest-daemon/src/context.rs:399-474 | In every run the scheduler hears the latest duration of a known test once more before its new results |
| Context.IdleTestForgotten | crates/rpytest-daemon/src/context.rs:399-474 | After ten runs without a known test its scheduler window is ten copies of its last duration, which is then the estimate |
| Context.RepoContext.RefreshScheduler | crates/rpytest-daemon/src/context.rs:399-415 | Every known test's latest duration is pushed once more onto the scheduler's window |
| Context.RepoContext.ProcessResults | crates/rpytest-daemon/src/context.rs:433-474 | The loop over the results leaves the histories and counters the specification gives |
| Context.RepoContext.RunTests | crates/rpytest-daemon/src/context.rs:358-493 | Whatever the executor returns for the runnable ids, all histories become those of one more run, every counter of the summary is the number of results with its outcome, and with one result per runnable id the summary balances |

## Left out

- Overflow of u64 and usize: numbers are naturals; `Lpt.TotalsBounded` gives the bound under which no total overflows.
- Estimates.WeightedAverage: leaves out rounding, which `Floats.WeightedAverageInFloats` adds.
- Floats.WeightedAverageInFloats: doubles have no exponent limits here, and nothing is said for durations of 2^43 ms and more.
- Rust's `sort_by` is a library function; it is modelled as insertion into a sorted list, and the result is shown to be the only stable one.
- A worker in the concurrent model is a value in a map, since Rust moves it between pool and task; `WorkerPools` has the objects, whose process arrives as arguments.
- Request and reply numbers in `WorkerProtocol` are labels, not on the wire; the exit code in a reply, worker ids and the `ping` command are omitted.
- Timeouts, read and write errors, unreadable lines and stray bytes on the protocol pipe appear only as a failing run or handshake; error texts are shortened.
- A panicking or cancelled batch task is not modelled, nor is a fair scheduler: pool results are about finished batches, not about every batch finishing.
- pytest is not part of this model: its reports are arbitrary, except where a theorem names its runner, which is taken to run each test of a batch once, as setup, call if setup passes, and teardown.
- Executor.BoundedAndLive: a batch size of zero panics in the source and is excluded by the chunk size being positive; what a subprocess prints is an arbitrary text.
- Unicode case folding in `matches_keyword` is an arbitrary function `lower`.
- Inheritance.Collector.CollectInheritedTests: takes a bound on the depth of the walk, which exists exactly when `Inheritance.WalkEndsExactly` says; on cyclic names the source does not return.
- Inheritance.OneClassProvides: assumes that no other statement of the file records nodes under the derived class's name; two methods of one name in a body both yield nodes, as in the source.
- Markers, fixtures, docstrings and parameter formatting of collected tests; a method stands for the id suffixes of its nodes.
- Parsing Python, decorator syntax and the generation of the ids that `deduplicate_ids` receives.
- Storage keys are strings instead of UTF-8 bytes, serialisation is an inverse pair, a stored schema value shorter than four bytes is an undecodable value, and storage I/O errors are not modelled.
- The flakiness tracker's report lists, failure rate, saving and loading.
- `RepoContext` creation from stored state, collection, `save_state`, timing of a run and the executor's configuration; what its executor returns is a parameter of `RunTests`.
- The embedded executor, `run_test` for a single id, and reading durations and messages from pytest output.
- The daemon's own life cycle, file watching, fixture reuse, message framing, the dependency graph, merging of configuration files, the editor server and the command line.
