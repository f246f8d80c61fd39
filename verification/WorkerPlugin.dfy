/**
 What the pytest plugin inside a worker records (crates/rpytest-daemon/src/pool.rs, the embedded
 script), and when that names each test of a batch once.
 */
module WorkerPlugin {
  import opened Seqs
  import opened Models

  datatype Phase = Setup | Call | Teardown

  datatype Verdict = PassedPhase | FailedPhase | SkippedPhase

  /** How one phase of one test went. */
  datatype Ran = Ran(verdict: Verdict, durationMs: nat, message: Option<string>)

  datatype Report = Report(nodeId: string, phase: Phase, ran: Ran)

  function OutcomeOf(verdict: Verdict): Outcome {
    match verdict
    case PassedPhase => Passed
    case FailedPhase => Failed
    case SkippedPhase => Skipped
  }

  /** What one report is recorded as, if anything. */
  function Recorded(phase: Phase, verdict: Verdict): Option<Outcome> {
    if phase.Call? then Some(OutcomeOf(verdict))
    else if phase.Setup? && verdict.SkippedPhase? then Some(Skipped)
    else if verdict.FailedPhase? then Some(Error)
    else None
  }

  function Entry(r: Report, outcome: Outcome): TestResult {
    TestResult(r.nodeId, outcome, r.ran.durationMs, r.ran.message)
  }

  function Logged(reports: seq<Report>): seq<TestResult> {
    if reports == [] then [] else WithEntry(Logged(reports[..|reports| - 1]), reports[|reports| - 1])
  }

  function WithEntry(results: seq<TestResult>, r: Report): seq<TestResult> {
    match Recorded(r.phase, r.ran.verdict)
    case None => results
    case Some(outcome) => results + [Entry(r, outcome)]
  }

  /** One row for the call, whatever its outcome, for a skipped setup, and for a failed setup or teardown. */
  function Row(r: Report): seq<TestResult> {
    var id, ms, text := r.nodeId, r.ran.durationMs, r.ran.message;
    match (r.phase, r.ran.verdict)
    case (Call, PassedPhase) => [TestResult(id, Passed, ms, text)]
    case (Call, FailedPhase) => [TestResult(id, Failed, ms, text)]
    case (Call, SkippedPhase) => [TestResult(id, Skipped, ms, text)]
    case (Setup, SkippedPhase) => [TestResult(id, Skipped, ms, text)]
    case (Setup, FailedPhase) => [TestResult(id, Error, ms, text)]
    case (Teardown, FailedPhase) => [TestResult(id, Error, ms, text)]
    case (Setup, PassedPhase) => []
    case (Teardown, PassedPhase) => []
    case (Teardown, SkippedPhase) => []
  }

  lemma RowAdded(reports: seq<Report>, r: Report)
    ensures Logged(reports + [r]) == Logged(reports) + Row(r)
  {
    LoggedNext(reports, r);
  }

  class Plugin {
    var results: seq<TestResult>
    /** Every report received so far. */
    ghost var reports: seq<Report>

    ghost predicate Valid()
      reads this
    {
      results == Logged(reports)
    }

    constructor ()
      ensures Valid() && reports == []
    {
      results, reports := [], [];
    }

    method LogReport(r: Report)
      requires Valid()
      modifies this
      ensures Valid() && reports == old(reports) + [r]
      ensures results == old(results) + Row(r)
    {
      LoggedNext(reports, r);
      reports := reports + [r];
      if r.phase == Call {
        results := results + [Entry(r, OutcomeOf(r.ran.verdict))];
      } else if r.phase == Setup && r.ran.verdict == SkippedPhase {
        results := results + [Entry(r, Skipped)];
      } else if r.ran.verdict == FailedPhase {
        results := results + [Entry(r, Error)];
      }
    }
  }

  lemma LoggedNext(reports: seq<Report>, r: Report)
    ensures Logged(reports + [r]) == WithEntry(Logged(reports), r)
  {
    assert (reports + [r])[..|reports|] == reports;
  }

  // ----- pytest's runner: setup, then the call if setup passed, then always teardown

  datatype Item = Item(nodeId: string, setup: Ran, call: Ran, teardown: Ran)

  function BeforeTeardown(item: Item): seq<Report> {
    var setup := Report(item.nodeId, Setup, item.setup);
    if item.setup.verdict.PassedPhase? then [setup, Report(item.nodeId, Call, item.call)] else [setup]
  }

  function ReportsOf(item: Item): seq<Report> {
    BeforeTeardown(item) + [Report(item.nodeId, Teardown, item.teardown)]
  }

  function Session(items: seq<Item>): seq<Report> {
    if items == [] then [] else Session(items[..|items| - 1]) + ReportsOf(items[|items| - 1])
  }

  function Ids(items: seq<Item>): seq<string> {
    seq(|items|, i requires 0 <= i < |items| => items[i].nodeId)
  }

  predicate TornDown(item: Item) {
    !item.teardown.verdict.FailedPhase?
  }

  /** The tests whose teardown fails. */
  function NotTornDown(items: seq<Item>): seq<string> {
    if items == [] then []
    else if TornDown(items[|items| - 1]) then NotTornDown(items[..|items| - 1])
    else NotTornDown(items[..|items| - 1]) + [items[|items| - 1].nodeId]
  }

  /** The ids that one item's reports leave behind. */
  function IdsOf(item: Item): seq<string> {
    if TornDown(item) then [item.nodeId] else [item.nodeId, item.nodeId]
  }

  lemma IdsAfter(reports: seq<Report>, r: Report)
    ensures Recorded(r.phase, r.ran.verdict).Some? ==>
              NodeIds(Logged(reports + [r])) == NodeIds(Logged(reports)) + [r.nodeId]
    ensures Recorded(r.phase, r.ran.verdict).None? ==> NodeIds(Logged(reports + [r])) == NodeIds(Logged(reports))
  {
    LoggedNext(reports, r);
  }

  /** Whatever setup did, the test is recorded once before its teardown. */
  lemma RecordedBeforeTeardown(reports: seq<Report>, item: Item)
    ensures NodeIds(Logged(reports + BeforeTeardown(item))) == NodeIds(Logged(reports)) + [item.nodeId]
  {
    var setup, call := Report(item.nodeId, Setup, item.setup), Report(item.nodeId, Call, item.call);
    IdsAfter(reports, setup);
    if item.setup.verdict.PassedPhase? {
      IdsAfter(reports + [setup], call);
      assert reports + [setup] + [call] == reports + BeforeTeardown(item);
    }
  }

  /** Every item is recorded once for its setup or its call, and once more when its teardown fails. */
  lemma ItemRecorded(reports: seq<Report>, item: Item)
    ensures NodeIds(Logged(reports + ReportsOf(item))) == NodeIds(Logged(reports)) + IdsOf(item)
  {
    RecordedBeforeTeardown(reports, item);
    TeardownRecorded(reports + BeforeTeardown(item), item);
    TwiceIsBoth(NodeIds(Logged(reports)), item.nodeId);
    Associate(reports, BeforeTeardown(item), [Report(item.nodeId, Teardown, item.teardown)]);
  }

  lemma TeardownRecorded(reports: seq<Report>, item: Item)
    ensures var ids := NodeIds(Logged(reports + [Report(item.nodeId, Teardown, item.teardown)]));
            && (TornDown(item) ==> ids == NodeIds(Logged(reports)))
            && (!TornDown(item) ==> ids == NodeIds(Logged(reports)) + [item.nodeId])
  {
    IdsAfter(reports, Report(item.nodeId, Teardown, item.teardown));
  }

  lemma TwiceIsBoth(ids: seq<string>, id: string)
    ensures ids + [id] + [id] == ids + [id, id]
  {
  }

  /** The ids that a whole session leaves behind. */
  function Trail(items: seq<Item>): seq<string> {
    if items == [] then [] else Trail(items[..|items| - 1]) + IdsOf(items[|items| - 1])
  }

  lemma {:induction false} SessionTrail(items: seq<Item>)
    ensures NodeIds(Logged(Session(items))) == Trail(items)
  {
    if items == [] {
      assert NodeIds([]) == [];
    } else {
      SessionTrail(items[..|items| - 1]);
      ItemRecorded(Session(items[..|items| - 1]), items[|items| - 1]);
    }
  }

  lemma {:induction false} TrailCounts(items: seq<Item>)
    ensures multiset(Trail(items)) == multiset(Ids(items)) + multiset(NotTornDown(items))
  {
    if items == [] {
      assert Ids(items) == [];
    } else {
      var init, last := items[..|items| - 1], items[|items| - 1];
      TrailCounts(init);
      IdsNext(items);
      CountItem(Trail(init), Ids(init), NotTornDown(init), last);
    }
  }

  lemma IdsNext(items: seq<Item>)
    requires items != []
    ensures Ids(items) == Ids(items[..|items| - 1]) + [items[|items| - 1].nodeId]
  {
  }

  lemma CountItem(recorded: seq<string>, ids: seq<string>, torn: seq<string>, item: Item)
    requires multiset(recorded) == multiset(ids) + multiset(torn)
    ensures TornDown(item) ==>
              multiset(recorded + IdsOf(item)) == multiset(ids + [item.nodeId]) + multiset(torn)
    ensures !TornDown(item) ==>
              multiset(recorded + IdsOf(item)) == multiset(ids + [item.nodeId]) + multiset(torn + [item.nodeId])
  {
  }

  lemma {:induction false} NoneFails(items: seq<Item>)
    ensures NotTornDown(items) == [] <==> forall i :: 0 <= i < |items| ==> TornDown(items[i])
  {
    if items != [] {
      NoneFails(items[..|items| - 1]);
    }
  }

  /** A session over the tests of a batch names each of them once exactly when every teardown succeeds. */
  lemma EachOnceExactly(items: seq<Item>, tests: seq<string>)
    requires multiset(Ids(items)) == multiset(tests)
    ensures Names(Logged(Session(items)), tests) <==> forall i :: 0 <= i < |items| ==> TornDown(items[i])
    ensures AtLeastNames(Logged(Session(items)), tests)
  {
    SessionTrail(items);
    TrailCounts(items);
    NoneFails(items);
    assert |multiset(NotTornDown(items))| == |NotTornDown(items)|;
  }

  // ----- Which outcome a test gets

  /** The result of a test by its setup and call. */
  function Decided(item: Item): TestResult {
    match item.setup.verdict
    case FailedPhase => TestResult(item.nodeId, Error, item.setup.durationMs, item.setup.message)
    case SkippedPhase => TestResult(item.nodeId, Skipped, item.setup.durationMs, item.setup.message)
    case PassedPhase =>
      match item.call.verdict
      case PassedPhase => TestResult(item.nodeId, Passed, item.call.durationMs, item.call.message)
      case FailedPhase => TestResult(item.nodeId, Failed, item.call.durationMs, item.call.message)
      case SkippedPhase => TestResult(item.nodeId, Skipped, item.call.durationMs, item.call.message)
  }

  /** The results of a session: one for each test, and an error after it when its teardown fails. */
  function Results(items: seq<Item>): seq<TestResult> {
    if items == [] then []
    else
      var last := items[|items| - 1];
      var before := Results(items[..|items| - 1]) + [Decided(last)];
      if TornDown(last) then before
      else before + [TestResult(last.nodeId, Error, last.teardown.durationMs, last.teardown.message)]
  }

  lemma DecidedBeforeTeardown(reports: seq<Report>, item: Item)
    ensures Logged(reports + BeforeTeardown(item)) == Logged(reports) + [Decided(item)]
  {
    var setup, call := Report(item.nodeId, Setup, item.setup), Report(item.nodeId, Call, item.call);
    RowAdded(reports, setup);
    if item.setup.verdict.PassedPhase? {
      RowAdded(reports + [setup], call);
      assert reports + [setup] + [call] == reports + BeforeTeardown(item);
    }
  }

  lemma ItemResults(reports: seq<Report>, item: Item)
    ensures var decided := Logged(reports) + [Decided(item)];
            var error := TestResult(item.nodeId, Error, item.teardown.durationMs, item.teardown.message);
            && (TornDown(item) ==> Logged(reports + ReportsOf(item)) == decided)
            && (!TornDown(item) ==> Logged(reports + ReportsOf(item)) == decided + [error])
  {
    var teardown := Report(item.nodeId, Teardown, item.teardown);
    DecidedBeforeTeardown(reports, item);
    RowAdded(reports + BeforeTeardown(item), teardown);
    Associate(reports, BeforeTeardown(item), [teardown]);
  }

  /** What a session leaves in the log, outcomes included. */
  lemma {:induction false} SessionResults(items: seq<Item>)
    ensures Logged(Session(items)) == Results(items)
  {
    if items != [] {
      SessionResults(items[..|items| - 1]);
      ItemResults(Session(items[..|items| - 1]), items[|items| - 1]);
    }
  }

  /** When every teardown succeeds, entry i is the outcome, duration and message of test i. */
  lemma {:induction false} ResultOfEach(items: seq<Item>)
    requires forall i :: 0 <= i < |items| ==> TornDown(items[i])
    ensures |Logged(Session(items))| == |items|
    ensures forall i :: 0 <= i < |items| ==> Logged(Session(items))[i] == Decided(items[i])
  {
    SessionResults(items);
    if items != [] {
      SessionResults(items[..|items| - 1]);
      ResultOfEach(items[..|items| - 1]);
    }
  }

  predicate Passes(item: Item) {
    item.setup.verdict.PassedPhase? && item.call.verdict.PassedPhase? && TornDown(item)
  }

  lemma AllPassing(items: seq<Item>)
    requires forall i :: 0 <= i < |items| ==> Passes(items[i])
    ensures forall r :: r in Logged(Session(items)) ==> r.outcome == Passed
  {
    ResultOfEach(items);
  }

  ghost predicate TeardownsSucceed(reports: seq<Report>) {
    forall k :: 0 <= k < |reports| && reports[k].phase.Teardown? ==> !reports[k].ran.verdict.FailedPhase?
  }

  lemma {:induction false} SessionTeardowns(items: seq<Item>)
    ensures TeardownsSucceed(Session(items)) <==> NotTornDown(items) == []
  {
    if items != [] {
      SessionTeardowns(items[..|items| - 1]);
      TeardownsConcat(Session(items[..|items| - 1]), ReportsOf(items[|items| - 1]));
      ItemTeardown(items[|items| - 1]);
    }
  }

  lemma TeardownsConcat(a: seq<Report>, b: seq<Report>)
    ensures TeardownsSucceed(a + b) <==> TeardownsSucceed(a) && TeardownsSucceed(b)
  {
    if TeardownsSucceed(a + b) {
      forall k | 0 <= k < |a| && a[k].phase.Teardown?
        ensures !a[k].ran.verdict.FailedPhase?
      {
        assert (a + b)[k] == a[k];
      }
      forall k | 0 <= k < |b| && b[k].phase.Teardown?
        ensures !b[k].ran.verdict.FailedPhase?
      {
        assert (a + b)[|a| + k] == b[k];
      }
    }
  }

  lemma ItemTeardown(item: Item)
    ensures TeardownsSucceed(ReportsOf(item)) <==> TornDown(item)
  {
    var reports := ReportsOf(item);
    assert reports[|reports| - 1] == Report(item.nodeId, Teardown, item.teardown);
  }

  /** pytest's runner has run each of `tests` once and made these reports. */
  ghost predicate FromRunner(reports: seq<Report>, tests: seq<string>) {
    exists items :: reports == Session(items) && multiset(Ids(items)) == multiset(tests)
  }

  /** The plugin's log then names each test at least once, and just once exactly when no teardown fails. */
  lemma RunnerExactly(reports: seq<Report>, tests: seq<string>)
    requires FromRunner(reports, tests)
    ensures AtLeastNames(Logged(reports), tests)
    ensures Names(Logged(reports), tests) <==> TeardownsSucceed(reports)
  {
    var items :| reports == Session(items) && multiset(Ids(items)) == multiset(tests);
    EachOnceExactly(items, tests);
    NoneFails(items);
    SessionTeardowns(items);
  }

  /** A test that passes and whose teardown fails is recorded twice. */
  lemma TeardownExample()
    ensures var ok, bad := Ran(PassedPhase, 0, None), Ran(FailedPhase, 0, None);
            var item := Item("test_a", ok, ok, bad);
            NodeIds(Logged(Session([item]))) == ["test_a", "test_a"] && !Names(Logged(Session([item])), ["test_a"])
  {
    var ok, bad := Ran(PassedPhase, 0, None), Ran(FailedPhase, 0, None);
    var item := Item("test_a", ok, ok, bad);
    assert [item][..0] == [];
    ItemRecorded([], item);
    assert NodeIds(Logged([])) == [];
    assert |multiset(["test_a", "test_a"])| == 2;
  }

  /** When one id of a request is unknown, pytest runs nothing: no report is made and every test is lost. */
  lemma NothingRunExample()
    ensures Logged([]) == [] && !AtLeastNames(Logged([]), ["test_a", "test_gone"])
  {
    assert NodeIds([]) == [];
    assert multiset(["test_a", "test_gone"])["test_a"] > 0;
  }
}
