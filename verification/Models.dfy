/** Values shared by the daemon's components (crates/rpytest-daemon/src/models.rs). */
module Models {

  datatype Option<+T> = None | Some(value: T)

  datatype Outcome = Passed | Failed | Skipped | Error | Xfail | Xpass {
    predicate IsFail() {
      Failed? || Error?
    }
  }

  datatype TestResult = TestResult(nodeId: string, outcome: Outcome, durationMs: nat, message: Option<string>)

  function NodeIds(results: seq<TestResult>): seq<string> {
    seq(|results|, i requires 0 <= i < |results| => results[i].nodeId)
  }

  /** `results` name each of `tests` once. */
  ghost predicate Names(results: seq<TestResult>, tests: seq<string>) {
    multiset(NodeIds(results)) == multiset(tests)
  }

  /** `results` name each of `tests` at least once. */
  ghost predicate AtLeastNames(results: seq<TestResult>, tests: seq<string>) {
    multiset(tests) <= multiset(NodeIds(results))
  }

  lemma NodeIdsConcat(a: seq<TestResult>, b: seq<TestResult>)
    ensures NodeIds(a + b) == NodeIds(a) + NodeIds(b)
  {
  }
}
