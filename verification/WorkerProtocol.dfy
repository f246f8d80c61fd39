/**
 One warm worker: the Rust side, the Python loop and the two pipes between them
 (crates/rpytest-daemon/src/pool.rs).

 Requests carry a number and replies repeat it together with the tests they answer. Neither is on the
 wire: they label lines so that "this reply answers that request" can be said. A `done` line stands for
 the plugin's log of the reports in it.
 */
module WorkerProtocol {
  import opened Models
  import opened WorkerPlugin

  const MAX_RUNS: nat := 100

  datatype RecycleReason = MaxRunsReached | Unhealthy | ExplicitShutdown

  datatype WorkerState = Spawning | Ready | Busy | Recycling(reason: RecycleReason) | Dead

  /** The edges `transition_to` accepts. */
  predicate TransitionOk(from: WorkerState, next: WorkerState) {
    match from
    case Spawning => next.Ready? || next.Dead?
    case Ready => next.Busy? || next.Recycling? || next.Dead?
    case Busy => next.Ready? || next.Recycling? || next.Dead?
    case Recycling(_) => next.Dead?
    case Dead => false
  }

  /** Read by where they lead, five kinds of edges. */
  lemma TransitionsExactly(from: WorkerState, next: WorkerState)
    ensures TransitionOk(from, next) <==>
            || (from != Dead && next == Dead)
            || (from == Spawning && next == Ready)
            || (from == Ready && next == Busy)
            || (from == Busy && next == Ready)
            || ((from == Ready || from == Busy) && next.Recycling?)
  {
  }

  datatype Request = Run(no: nat, tests: seq<string>) | Shutdown

  datatype Reply =
    | ReadyLine
    | DoneLine(no: nat, tests: seq<string>, reports: seq<Report>)
    | ErrorLine(no: nat, tests: seq<string>, message: string)
    | ShutdownLine

  /** Where the Python script is. `Replied` lies between sending `done` and counting the run. */
  datatype Python =
    | Starting
    | Importing
    | Waiting(runs: nat)
    | Running(runs: nat, no: nat, tests: seq<string>)
    | Replied(runs: nat)
    | Leaving
    | Exited

  /** `batch` is the argument of the run in progress, meaningful while the worker is busy. */
  datatype Worker = Worker(
    state: WorkerState, runCount: nat, batch: seq<string>,
    python: Python, alive: bool, toPython: seq<Request>, toRust: seq<Reply>)

  // ----- The Python side

  ghost predicate PythonStep(w: Worker, w': Worker) {
    && w.alive
    && match w.python
       case Starting => w' == w.(python := Importing, toRust := w.toRust + [ReadyLine])
       case Importing => w' == w.(python := Waiting(0))
       case Waiting(runs) =>
         && w.toPython != []
         && (match w.toPython[0]
             case Run(no, tests) => w' == w.(python := Running(runs, no, tests), toPython := w.toPython[1..])
             case Shutdown => w' == w.(python := Leaving, toPython := w.toPython[1..]))
       case Running(runs, no, tests) =>
         || (exists reports :: w' == AfterDone(w, reports))
         || (exists message :: w' == AfterError(w, message))
       case Replied(runs) =>
         w' == w.(python := if runs + 1 < MAX_RUNS then Waiting(runs + 1) else Leaving)
       case Leaving => w' == w.(python := Exited, toRust := w.toRust + [ShutdownLine])
       case Exited => false
  }

  /** pytest has run and made these reports, of which the plugin keeps its log. */
  function AfterDone(w: Worker, reports: seq<Report>): Worker
    requires w.python.Running?
  {
    w.(python := Replied(w.python.runs), toRust := w.toRust + [DoneLine(w.python.no, w.python.tests, reports)])
  }

  function AfterError(w: Worker, message: string): Worker
    requires w.python.Running?
  {
    w.(python := Waiting(w.python.runs), toRust := w.toRust + [ErrorLine(w.python.no, w.python.tests, message)])
  }

  // ----- The Rust side

  function Spawn(): Worker {
    Worker(Spawning, 0, [], Starting, true, [], [])
  }

  /** `wait_ready` accepts only the ready line. */
  predicate HandshakeOk(w: Worker) {
    w.toRust != [] && w.toRust[0].ReadyLine?
  }

  function Handshaken(w: Worker): Worker
    requires HandshakeOk(w)
  {
    w.(state := Ready, toRust := w.toRust[1..])
  }

  predicate NeedsRecycle(w: Worker) {
    w.runCount >= MAX_RUNS
  }

  /** Ready becomes busy and the request is written, or lost when the write fails. */
  function BeginRun(w: Worker, tests: seq<string>, written: bool): Worker {
    w.(state := Busy, batch := tests,
       toPython := if written then w.toPython + [Run(w.runCount, tests)] else w.toPython)
  }

  datatype RunResult = Ok(results: seq<TestResult>) | Err(message: string)

  /** Every status other than `error` counts as success, whatever line it was. */
  function LineResult(line: Reply): RunResult {
    match line
    case ErrorLine(_, _, message) => Err(message)
    case DoneLine(_, _, reports) => Ok(Logged(reports))
    case ReadyLine => Ok([])
    case ShutdownLine => Ok([])
  }

  /** The next line is read and judged, and the state set by the outcome and the run count. */
  function EndRun(w: Worker): (r: (RunResult, Worker))
    requires w.toRust != []
  {
    var result := LineResult(w.toRust[0]);
    var w1 := w.(toRust := w.toRust[1..]);
    if result.Err? then (result, FailRun(w1))
    else
      var w2 := w1.(runCount := w.runCount + 1);
      (result, w2.(state := if NeedsRecycle(w2) then Recycling(MaxRunsReached) else Ready))
  }

  /** Write error, end of file, timeout or an unreadable line. */
  function FailRun(w: Worker): Worker {
    w.(state := Recycling(Unhealthy))
  }

  // ----- Lockstep

  /** Python is on its way to reading its `n`-th request, with nothing left to say before it. */
  predicate Idle(python: Python, n: nat) {
    || (python.Importing? && n == 0)
    || python == Waiting(n)
    || (n > 0 && python == Replied(n - 1))
  }

  /** The two sides agree on where they are, whatever the Rust state. */
  ghost predicate Lockstep(w: Worker) {
    match w.state
    case Spawning =>
      && w.runCount == 0 && w.toPython == []
      && ((w.python.Starting? && w.toRust == []) || (Idle(w.python, 0) && w.toRust == [ReadyLine]))
    case Ready =>
      w.runCount < MAX_RUNS && w.toPython == [] && w.toRust == [] && Idle(w.python, w.runCount)
    case Busy => w.runCount < MAX_RUNS && InRun(w)
    case Recycling(_) => true
    case Dead => true
  }

  /** The five stages of a run, as the pipes and the Python position show them. */
  ghost predicate InRun(w: Worker) {
    var n := w.runCount;
    || (w.toPython == [] && w.toRust == [] && Idle(w.python, n))
    || (w.toPython == [Run(n, w.batch)] && w.toRust == [] && Idle(w.python, n))
    || (w.toPython == [] && w.toRust == [] && w.python == Running(n, n, w.batch))
    || (w.toPython == [] && |w.toRust| == 1 && IsErrorFor(w.toRust[0], n, w.batch) && w.python == Waiting(n))
    || (&& w.toPython == [] && w.toRust != [] && IsDoneFor(w.toRust[0], n, w.batch)
        && ((|w.toRust| == 1 && (Idle(w.python, n + 1) && (w.python.Waiting? ==> n + 1 < MAX_RUNS)))
            || (n + 1 == MAX_RUNS && |w.toRust| == 1 && w.python.Leaving?)
            || (n + 1 == MAX_RUNS && |w.toRust| == 2 && w.python.Exited?)))
  }

  predicate IsDoneFor(line: Reply, n: nat, tests: seq<string>) {
    line.DoneLine? && line.no == n && line.tests == tests
  }

  predicate IsErrorFor(line: Reply, n: nat, tests: seq<string>) {
    line.ErrorLine? && line.no == n && line.tests == tests
  }

  lemma PythonKeepsLockstep(w: Worker, w': Worker)
    requires Lockstep(w) && PythonStep(w, w')
    ensures Lockstep(w')
  {
  }

  lemma HandshakeLockstep(w: Worker)
    requires w.state.Spawning? && Lockstep(w) && HandshakeOk(w)
    ensures Lockstep(Handshaken(w)) && TransitionOk(w.state, Handshaken(w).state)
  {
  }

  lemma BeginRunLockstep(w: Worker, tests: seq<string>, written: bool)
    requires w.state.Ready? && Lockstep(w)
    ensures Lockstep(BeginRun(w, tests, written)) && TransitionOk(w.state, BeginRun(w, tests, written).state)
  {
  }

  /** A busy worker reads nothing but the reply to its own request. */
  lemma ReplyIsOwn(w: Worker)
    requires w.state.Busy? && Lockstep(w) && w.toRust != []
    ensures IsDoneFor(w.toRust[0], w.runCount, w.batch) || IsErrorFor(w.toRust[0], w.runCount, w.batch)
  {
  }

  lemma EndRunLockstep(w: Worker)
    requires w.state.Busy? && Lockstep(w) && w.toRust != []
    ensures Lockstep(EndRun(w).1) && TransitionOk(w.state, EndRun(w).1.state)
    ensures EndRun(w).1.state.Ready? || EndRun(w).1.state.Recycling?
  {
    ReplyIsOwn(w);
  }
}
