/**
 Flakiness tracking with a bounded outcome window (crates/rpytest-daemon/src/flakiness.rs).

 The tracker keeps the last `maxOutcomes` outcomes and a few counters. The specification is a
 function of the whole, unbounded history of a test.
 */
module Flakiness {
  import opened Seqs
  import opened Models

  datatype Stability =
    | Unknown
    | Stable(consecutivePasses: nat)
    | Unstable(consecutiveFailures: nat)
    | Flaky(streakCount: nat)
    | ConfirmedFlaky
  {
    predicate IsFlaky() {
      (Flaky? && streakCount >= 2) || ConfirmedFlaky?
    }
  }

  function Settle(outcome: Outcome, n: nat): Stability {
    if outcome.Passed? then Stable(n) else if outcome.IsFail() then Unstable(n) else Unknown
  }

  /** One step of the stability state machine. */
  function Transition(s: Stability, outcome: Outcome, prev: Option<Outcome>): Stability {
    match s
    case Unknown => Settle(outcome, 1)
    case Stable(n) =>
      if outcome.Passed? then Stable(n + 1) else if outcome.IsFail() then Flaky(1) else Unknown
    case Unstable(n) =>
      if outcome.Passed? then Flaky(1) else if outcome.IsFail() then Unstable(n + 1) else Unknown
    case Flaky(k) =>
      var isFlip := prev.Some? && prev.value.IsFail() != outcome.IsFail();
      if isFlip then (if k + 1 >= 3 then ConfirmedFlaky else Flaky(k + 1)) else Settle(outcome, 1)
    case ConfirmedFlaky =>
      if outcome.Passed? then
        (if prev.Some? && prev.value.Passed? then Stable(2) else ConfirmedFlaky)
      else if outcome.IsFail() then
        (if prev.Some? && prev.value.IsFail() then Unstable(2) else ConfirmedFlaky)
      else ConfirmedFlaky
  }

  datatype Event = Event(outcome: Outcome, message: Option<string>)

  datatype Record = Record(
    nodeId: string,
    outcomes: seq<Outcome>,
    consecutiveFailures: nat,
    consecutivePasses: nat,
    flakyStreak: nat,
    totalRuns: nat,
    lastFailureMessage: Option<string>,
    stability: Stability)

  // ----- Specification over the full history

  function LastOf(h: seq<Outcome>): Option<Outcome> {
    if h == [] then None else Some(h[|h| - 1])
  }

  function Outcomes(h: seq<Event>): seq<Outcome> {
    seq(|h|, i requires 0 <= i < |h| => h[i].outcome)
  }

  /** The state machine folded over the history, every step told its true predecessor. */
  function StabilityOf(h: seq<Outcome>): Stability {
    if h == [] then Unknown
    else Transition(StabilityOf(h[..|h| - 1]), h[|h| - 1], LastOf(h[..|h| - 1]))
  }

  /** How often neighbours in the history disagree on failing. */
  function Flips(h: seq<Outcome>): nat {
    if |h| < 2 then 0
    else Flips(h[..|h| - 1]) + (if IsFailing(h[|h| - 2]) != IsFailing(h[|h| - 1]) then 1 else 0)
  }

  /** Length of the longest suffix of outcomes that satisfy `p`. */
  function Suffix(p: Outcome -> bool, h: seq<Outcome>): nat {
    if h == [] || !p(h[|h| - 1]) then 0 else 1 + Suffix(p, h[..|h| - 1])
  }

  /** Errors count as failures. */
  predicate IsFailing(o: Outcome) {
    o == Failed || o == Error
  }

  predicate IsPassing(o: Outcome) {
    o.Passed?
  }

  function LastFailureMessage(h: seq<Event>): Option<string> {
    if h == [] then None
    else if IsFailing(h[|h| - 1].outcome) then h[|h| - 1].message
    else LastFailureMessage(h[..|h| - 1])
  }

  /** The record a tracker with window `max` must hold for a test with history `h`. */
  function Summary(id: string, max: nat, h: seq<Event>): Record {
    var o := Outcomes(h);
    Record(id, LastN(o, max), Suffix(IsFailing, o), Suffix(IsPassing, o), Flips(o), |h|,
           LastFailureMessage(h), StabilityOf(o))
  }

  // ----- One recording step, from the record alone

  function Fresh(id: string): Record {
    Record(id, [], 0, 0, 0, 0, None, Unknown)
  }

  /** The update `record_outcome` makes; the predecessor is read from the (truncated) window. */
  function Recorded(r: Record, max: nat, outcome: Outcome, message: Option<string>): Record {
    var prev := LastOf(r.outcomes);
    var flip := prev.Some? && prev.value.IsFail() != outcome.IsFail();
    Record(
      r.nodeId,
      LastN(r.outcomes + [outcome], max),
      if outcome.IsFail() then r.consecutiveFailures + 1 else 0,
      if outcome.Passed? then r.consecutivePasses + 1 else 0,
      if flip then r.flakyStreak + 1 else r.flakyStreak,
      r.totalRuns + 1,
      if outcome.IsFail() then message else r.lastFailureMessage,
      Transition(r.stability, outcome, prev))
  }

  function Replay(id: string, max: nat, h: seq<Event>): Record {
    if h == [] then Fresh(id)
    else Recorded(Replay(id, max, h[..|h| - 1]), max, h[|h| - 1].outcome, h[|h| - 1].message)
  }

  lemma HistoryNext(o: seq<Outcome>, x: Outcome)
    ensures StabilityOf(o + [x]) == Transition(StabilityOf(o), x, LastOf(o))
    ensures Flips(o + [x]) == Flips(o) + (if LastOf(o).Some? && LastOf(o).value.IsFail() != x.IsFail() then 1 else 0)
    ensures forall p :: Suffix(p, o + [x]) == if p(x) then Suffix(p, o) + 1 else 0
  {
    assert (o + [x])[..|o|] == o;
  }

  lemma WindowSeesPredecessor(o: seq<Outcome>, max: nat)
    requires max >= 1
    ensures LastOf(LastN(o, max)) == LastOf(o)
  {
  }

  lemma EventNext(h: seq<Event>, e: Event)
    ensures Outcomes(h + [e]) == Outcomes(h) + [e.outcome]
    ensures LastFailureMessage(h + [e]) == if e.outcome.IsFail() then e.message else LastFailureMessage(h)
  {
    assert (h + [e])[..|h|] == h;
  }

  lemma SummaryNext(id: string, max: nat, h: seq<Event>, e: Event)
    requires max >= 1
    ensures Recorded(Summary(id, max, h), max, e.outcome, e.message) == Summary(id, max, h + [e])
  {
    EventNext(h, e);
    HistoryNext(Outcomes(h), e.outcome);
    LastNPush(Outcomes(h), max, e.outcome);
    WindowSeesPredecessor(Outcomes(h), max);
  }

  /** A window of at least one outcome loses nothing the full history would have told. */
  lemma {:induction false} WindowRefinesHistory(id: string, max: nat, h: seq<Event>)
    requires max >= 1
    ensures Replay(id, max, h) == Summary(id, max, h)
  {
    if h != [] {
      var h', e := h[..|h| - 1], h[|h| - 1];
      assert h == h' + [e];
      WindowRefinesHistory(id, max, h');
      SummaryNext(id, max, h', e);
    }
  }

  /**
   And only such a window: with `maxOutcomes = 0`, which is what the derived `Default` gives, the
   tracker never sees a predecessor and misses every flip.
   */
  lemma WindowRefinesExactly(id: string, max: nat)
    ensures (forall h :: Replay(id, max, h) == Summary(id, max, h)) <==> max >= 1
  {
    if max == 0 {
      var p, f := Event(Passed, None), Event(Failed, None);
      var h := [p, f];
      assert h[..1] == [p] && [p][..0] == [];
      assert Outcomes(h) == [Passed, Failed];
      assert Replay(id, 0, [p]) == Recorded(Fresh(id), 0, Passed, None);
      assert Replay(id, 0, h) == Recorded(Replay(id, 0, [p]), 0, Failed, None);
      assert Flips([Passed, Failed]) == 1 by { assert Flips([Passed, Failed][..1]) == 0; }
    } else {
      forall h
        ensures Replay(id, max, h) == Summary(id, max, h)
      {
        WindowRefinesHistory(id, max, h);
      }
    }
  }

  // ----- Reachable states

  predicate FlipAt(h: seq<Outcome>, i: int) {
    1 <= i < |h| && IsFailing(h[i - 1]) != IsFailing(h[i])
  }

  /** Both neighbours pass, or both fail: the only way out of ConfirmedFlaky. */
  predicate AgreeAt(h: seq<Outcome>, i: int) {
    1 <= i < |h| && ((h[i - 1].Passed? && h[i].Passed?) || (IsFailing(h[i - 1]) && IsFailing(h[i])))
  }

  /** Four alternating outcomes end at `i`, a pass among them, and no two neighbours have agreed after that. */
  ghost predicate ConfirmedSince(h: seq<Outcome>, i: int) {
    && FlipAt(h, i - 2) && FlipAt(h, i - 1) && FlipAt(h, i)
    && (h[i - 3].Passed? || h[i - 2].Passed?)
    && forall j :: i < j < |h| ==> !AgreeAt(h, j)
  }

  /** What the state after history `h` says about `h`. */
  ghost predicate Explains(s: Stability, h: seq<Outcome>) {
    match s
    case Unknown => h == [] || !(h[|h| - 1].Passed? || IsFailing(h[|h| - 1]))
    case Stable(n) => 1 <= n <= Suffix(IsPassing, h)
    case Unstable(n) => 1 <= n <= Suffix(IsFailing, h)
    case Flaky(k) =>
      && (k == 1 || k == 2)
      && FlipAt(h, |h| - 1)
      && (k == 1 ==> h[|h| - 2].Passed? || h[|h| - 1].Passed?)
      && (k == 2 ==> FlipAt(h, |h| - 2) && (h[|h| - 3].Passed? || h[|h| - 2].Passed?))
    case ConfirmedFlaky => exists i :: ConfirmedSince(h, i)
  }

  lemma {:induction false} ReachableStates(h: seq<Outcome>)
    ensures Explains(StabilityOf(h), h)
  {
    if h != [] {
      var h', o := h[..|h| - 1], h[|h| - 1];
      ReachableStates(h');
      var s := StabilityOf(h');
      match s
      case Unknown =>
      case Stable(n) => SuffixLast(IsPassing, h');
      case Unstable(n) => SuffixLast(IsFailing, h');
      case Flaky(k) =>
        if FlipAt(h, |h| - 1) && k == 2 {
          assert ConfirmedSince(h, |h| - 1);
        }
      case ConfirmedFlaky =>
        var i :| ConfirmedSince(h', i);
        if StabilityOf(h).ConfirmedFlaky? {
          assert !AgreeAt(h, |h| - 1);
          forall j | i < j < |h|
            ensures !AgreeAt(h, j)
          {
            assert j < |h'| ==> !AgreeAt(h', j);
          }
          assert ConfirmedSince(h, i);
        } else {
          SuffixLast(IsPassing, h');
          SuffixLast(IsFailing, h');
        }
    }
  }

  /** Flaky with a streak of at least `k`, or confirmed. */
  predicate FlakyAtLeast(s: Stability, k: nat) {
    (s.Flaky? && s.streakCount >= k) || s.ConfirmedFlaky?
  }

  /** A flip between a pass and a failure, whatever came before. */
  lemma FlipStarts(h: seq<Outcome>)
    requires FlipAt(h, |h| - 1) && (h[|h| - 2].Passed? || h[|h| - 1].Passed?)
    ensures FlakyAtLeast(StabilityOf(h), 1)
  {
    var init := h[..|h| - 1];
    ReachableStates(init);
    SuffixLast(IsPassing, init);
    SuffixLast(IsFailing, init);
  }

  /** A further flip. */
  lemma FlipGoesOn(h: seq<Outcome>, k: nat)
    requires FlipAt(h, |h| - 1) && FlakyAtLeast(StabilityOf(h[..|h| - 1]), k)
    ensures FlakyAtLeast(StabilityOf(h), k + 1)
    ensures k >= 2 ==> StabilityOf(h).ConfirmedFlaky?
  {
  }

  /** The four alternating outcomes confirm, whatever came before. */
  lemma FlipsConfirm(h: seq<Outcome>, i: int)
    requires FlipAt(h, i - 2) && FlipAt(h, i - 1) && FlipAt(h, i) && (h[i - 3].Passed? || h[i - 2].Passed?)
    ensures StabilityOf(h[..i + 1]).ConfirmedFlaky?
  {
    var a, b, c := h[..i - 1], h[..i], h[..i + 1];
    assert b[..i - 1] == a && c[..i] == b;
    FlipStarts(a);
    FlipGoesOn(b, 1);
    FlipGoesOn(c, 2);
  }

  lemma {:induction false} ConfirmedStays(h: seq<Outcome>, i: nat, n: nat)
    requires i < n <= |h| && StabilityOf(h[..i + 1]).ConfirmedFlaky?
    requires forall j :: i < j < |h| ==> !AgreeAt(h, j)
    ensures StabilityOf(h[..n]).ConfirmedFlaky?
  {
    if i + 1 < n {
      ConfirmedStays(h, i, n - 1);
      assert h[..n][..n - 1] == h[..n - 1];
      assert !AgreeAt(h, n - 1);
    }
  }

  /** Confirmed exactly when four alternating outcomes have not been followed by two that agree. */
  lemma ConfirmedExactly(h: seq<Outcome>)
    ensures StabilityOf(h).ConfirmedFlaky? <==> exists i :: ConfirmedSince(h, i)
  {
    ReachableStates(h);
    if i :| ConfirmedSince(h, i) {
      FlipsConfirm(h, i);
      ConfirmedStays(h, i, |h|);
      assert h[..|h|] == h;
    }
  }

  lemma SuffixLast(p: Outcome -> bool, h: seq<Outcome>)
    ensures Suffix(p, h) >= 1 <==> h != [] && p(h[|h| - 1])
  {
  }

  /** The history up to the first outcome of its longest suffix that satisfies `p`. */
  function UpToStreak(p: Outcome -> bool, h: seq<Outcome>): seq<Outcome>
    requires Suffix(p, h) >= 1
  {
    SuffixAtMost(p, h);
    h[..|h| - Suffix(p, h) + 1]
  }

  lemma {:induction false} SuffixAtMost(p: Outcome -> bool, h: seq<Outcome>)
    ensures Suffix(p, h) <= |h|
  {
    if h != [] && p(h[|h| - 1]) {
      SuffixAtMost(p, h[..|h| - 1]);
    }
  }

  /** How many outcomes of the current streak count: all, but the first when it was taken as a flip. */
  function Counted(p: Outcome -> bool, h: seq<Outcome>): int
    requires Suffix(p, h) >= 1
  {
    Suffix(p, h) - (if StabilityOf(UpToStreak(p, h)).Flaky? then 1 else 0)
  }

  lemma StreakGoesOn(p: Outcome -> bool, h: seq<Outcome>)
    requires h != [] && Suffix(p, h[..|h| - 1]) >= 1 && p(h[|h| - 1])
    ensures Suffix(p, h) == Suffix(p, h[..|h| - 1]) + 1
    ensures UpToStreak(p, h) == UpToStreak(p, h[..|h| - 1])
  {
    SuffixAtMost(p, h[..|h| - 1]);
  }

  lemma StreakStarts(p: Outcome -> bool, h: seq<Outcome>)
    requires h != [] && Suffix(p, h[..|h| - 1]) == 0 && p(h[|h| - 1])
    ensures Suffix(p, h) == 1 && UpToStreak(p, h) == h
  {
    assert h[..|h|] == h;
  }

  /** The streak in a flaky or confirmed state is one outcome long. */
  lemma FlakyStreakIsNew(p: Outcome -> bool, h: seq<Outcome>)
    requires p == IsPassing || p == IsFailing
    requires (StabilityOf(h).Flaky? || StabilityOf(h).ConfirmedFlaky?) && Suffix(p, h) >= 1
    ensures Suffix(p, h) == 1 && UpToStreak(p, h) == h
  {
    ReachableStates(h);
    SuffixLast(p, h);
    if StabilityOf(h).ConfirmedFlaky? {
      var i :| ConfirmedSince(h, i);
      assert i < |h| - 1 ==> !AgreeAt(h, |h| - 1);
    }
    SuffixLast(p, h[..|h| - 1]);
    StreakStarts(p, h);
  }

  /** The number in Stable and in Unstable, exactly. */
  lemma {:induction false} CountedExactly(h: seq<Outcome>)
    ensures StabilityOf(h).Stable? ==>
              Suffix(IsPassing, h) >= 1 && StabilityOf(h).consecutivePasses == Counted(IsPassing, h)
    ensures StabilityOf(h).Unstable? ==>
              Suffix(IsFailing, h) >= 1 && StabilityOf(h).consecutiveFailures == Counted(IsFailing, h)
  {
    if h != [] {
      CountedExactly(h[..|h| - 1]);
      if StabilityOf(h).Stable? {
        PassesNext(h);
      }
      if StabilityOf(h).Unstable? {
        FailuresNext(h);
      }
    }
  }

  lemma PassesNext(h: seq<Outcome>)
    requires h != [] && StabilityOf(h).Stable? && IsPassing(h[|h| - 1])
    requires var s := StabilityOf(h[..|h| - 1]);
             s.Stable? ==> Suffix(IsPassing, h[..|h| - 1]) >= 1
                           && s.consecutivePasses == Counted(IsPassing, h[..|h| - 1])
    ensures Suffix(IsPassing, h) >= 1 && StabilityOf(h).consecutivePasses == Counted(IsPassing, h)
  {
    var init := h[..|h| - 1];
    ReachableStates(init);
    SuffixLast(IsPassing, init);
    if Suffix(IsPassing, init) == 0 {
      StreakStarts(IsPassing, h);
    } else {
      StreakGoesOn(IsPassing, h);
      if StabilityOf(init).Flaky? || StabilityOf(init).ConfirmedFlaky? {
        FlakyStreakIsNew(IsPassing, init);
      }
    }
  }

  lemma FailuresNext(h: seq<Outcome>)
    requires h != [] && StabilityOf(h).Unstable? && IsFailing(h[|h| - 1])
    requires var s := StabilityOf(h[..|h| - 1]);
             s.Unstable? ==> Suffix(IsFailing, h[..|h| - 1]) >= 1
                             && s.consecutiveFailures == Counted(IsFailing, h[..|h| - 1])
    ensures Suffix(IsFailing, h) >= 1 && StabilityOf(h).consecutiveFailures == Counted(IsFailing, h)
  {
    var init := h[..|h| - 1];
    ReachableStates(init);
    SuffixLast(IsFailing, init);
    if Suffix(IsFailing, init) == 0 {
      StreakStarts(IsFailing, h);
    } else {
      StreakGoesOn(IsFailing, h);
      if StabilityOf(init).Flaky? || StabilityOf(init).ConfirmedFlaky? {
        FlakyStreakIsNew(IsFailing, init);
      }
    }
  }

  // ----- Errors are failures

  /** Every error replaced by a failure. */
  function ErrorsAsFailures(h: seq<Outcome>): seq<Outcome> {
    seq(|h|, i requires 0 <= i < |h| => if h[i] == Error then Failed else h[i])
  }

  lemma ErrorsAsFailuresNext(h: seq<Outcome>)
    requires h != []
    ensures var g, last := ErrorsAsFailures(h), h[|h| - 1];
            g[..|g| - 1] == ErrorsAsFailures(h[..|h| - 1]) && g[|g| - 1] == if last == Error then Failed else last
  {
  }

  /** Nothing in the record tells an error from a failure, except the outcomes themselves. */
  lemma {:induction false} ErrorsCountAsFailures(h: seq<Outcome>)
    ensures StabilityOf(ErrorsAsFailures(h)) == StabilityOf(h) && Flips(ErrorsAsFailures(h)) == Flips(h)
    ensures Suffix(IsFailing, ErrorsAsFailures(h)) == Suffix(IsFailing, h)
    ensures Suffix(IsPassing, ErrorsAsFailures(h)) == Suffix(IsPassing, h)
  {
    if h != [] {
      ErrorsAsFailuresNext(h);
      ErrorsCountAsFailures(h[..|h| - 1]);
      if |h| >= 2 {
        ErrorsAsFailuresNext(h[..|h| - 1]);
      }
    }
  }

  lemma {:induction false} FlipsAtLeastTwo(h: seq<Outcome>, i: int, j: int)
    requires i < j && FlipAt(h, i) && FlipAt(h, j)
    ensures Flips(h) >= 2
  {
    var h' := h[..|h| - 1];
    if j < |h'| {
      FlipsAtLeastTwo(h', i, j);
    } else {
      FlipsAtLeastOne(h', i);
    }
  }

  lemma {:induction false} FlipsAtLeastOne(h: seq<Outcome>, i: int)
    requires FlipAt(h, i)
    ensures Flips(h) >= 1
  {
    var h' := h[..|h| - 1];
    if i < |h'| {
      FlipsAtLeastOne(h', i);
    }
  }

  /** The legacy heuristic over a record. */
  predicate CheckIsFlaky(r: Record) {
    && |r.outcomes| >= 3
    && (exists i :: 0 <= i < |r.outcomes| && r.outcomes[i].Passed?)
    && (exists i :: 0 <= i < |r.outcomes| && r.outcomes[i].IsFail())
    && r.flakyStreak >= 2
  }

  /** A test reported flaky has flipped at least twice in its history. */
  lemma FlakyMeansFlips(h: seq<Outcome>)
    requires StabilityOf(h).IsFlaky()
    ensures Flips(h) >= 2
  {
    ReachableStates(h);
    if StabilityOf(h).ConfirmedFlaky? {
      var i :| ConfirmedSince(h, i);
      FlipsAtLeastTwo(h, i - 1, i);
    } else {
      FlipsAtLeastTwo(h, |h| - 2, |h| - 1);
    }
  }

  // ----- Agreement with the legacy heuristic

  /** The number of outcomes after the last one that satisfies `p`. */
  function Age(p: Outcome -> bool, h: seq<Outcome>): (n: nat)
    ensures n <= |h|
  {
    if h == [] || p(h[|h| - 1]) then 0 else 1 + Age(p, h[..|h| - 1])
  }

  lemma AgeNext(p: Outcome -> bool, h: seq<Outcome>, o: Outcome)
    ensures Age(p, h + [o]) == if p(o) then 0 else Age(p, h) + 1
  {
    assert (h + [o])[..|h|] == h;
  }

  /** Some outcome satisfies `p`. */
  ghost predicate Shows(p: Outcome -> bool, h: seq<Outcome>) {
    exists i :: 0 <= i < |h| && p(h[i])
  }

  lemma {:induction false} AgeFinds(p: Outcome -> bool, h: seq<Outcome>)
    ensures Shows(p, h) <==> Age(p, h) < |h|
    ensures Age(p, h) < |h| ==> p(h[|h| - 1 - Age(p, h)])
    ensures forall i :: |h| - Age(p, h) <= i < |h| ==> !p(h[i])
  {
    if h != [] && !p(h[|h| - 1]) {
      AgeFinds(p, h[..|h| - 1]);
      if i :| 0 <= i < |h| && p(h[i]) {
        assert h[..|h| - 1][i] == h[i];
      }
    }
  }

  lemma {:induction false} SuffixShows(p: Outcome -> bool, h: seq<Outcome>, cut: nat)
    requires cut <= |h|
    ensures Shows(p, h[cut..]) <==> Age(p, h) < |h| - cut
  {
    if cut < |h| {
      var last := |h| - 1;
      assert h[cut..][last - cut] == h[last];
      if !p(h[last]) {
        SuffixShows(p, h[..last], cut);
        ShowsBefore(p, h[cut..]);
        assert h[cut..][..last - cut] == h[..last][cut..];
      }
    }
  }

  lemma ShowsBefore(p: Outcome -> bool, h: seq<Outcome>)
    requires h != [] && !p(h[|h| - 1])
    ensures Shows(p, h) <==> Shows(p, h[..|h| - 1])
  {
    var init := h[..|h| - 1];
    if i :| 0 <= i < |h| && p(h[i]) {
      assert init[i] == h[i];
    }
  }

  /** A window shows what is young enough. */
  lemma WindowShows(p: Outcome -> bool, h: seq<Outcome>, max: nat)
    ensures Shows(p, LastN(h, max)) <==> Age(p, h) < |h| && Age(p, h) < max
  {
    SuffixShows(p, h, if |h| <= max then 0 else |h| - max);
    assert h[0..] == h;
  }

  /** What the legacy heuristic says about the full history. */
  lemma LegacyExactly(id: string, max: nat, h: seq<Event>)
    ensures var o := Outcomes(h);
            CheckIsFlaky(Summary(id, max, h)) <==>
            && max >= 3 && |o| >= 3 && Flips(o) >= 2
            && Age(IsPassing, o) < |o| && Age(IsPassing, o) < max
            && Age(IsFailing, o) < |o| && Age(IsFailing, o) < max
  {
    var o := Outcomes(h);
    var w := LastN(o, max);
    WindowShows(IsPassing, o, max);
    WindowShows(IsFailing, o, max);
    assert Shows(IsPassing, w) <==> exists i :: 0 <= i < |w| && w[i].Passed?;
    assert Shows(IsFailing, w) <==> exists i :: 0 <= i < |w| && w[i].IsFail();
  }

  lemma ShownIsYoung(p: Outcome -> bool, h: seq<Outcome>, i: nat)
    requires i < |h| && p(h[i])
    ensures Age(p, h) <= |h| - 1 - i
  {
    AgeFinds(p, h);
  }

  /** Behind every flaky verdict there are at least three outcomes, a pass and a failure. */
  lemma FlakyShowsBoth(h: seq<Outcome>)
    requires StabilityOf(h).IsFlaky()
    ensures |h| >= 3 && Age(IsPassing, h) < |h| && Age(IsFailing, h) < |h|
    ensures StabilityOf(h) == Flaky(2) ==> Age(IsPassing, h) < 3 && Age(IsFailing, h) < 3
  {
    ReachableStates(h);
    var i := |h| - 1;
    if StabilityOf(h).ConfirmedFlaky? {
      i :| ConfirmedSince(h, i);
      ShownIsYoung(IsPassing, h, if h[i - 3].Passed? then i - 3 else i - 2);
    } else {
      ShownIsYoung(IsPassing, h, if h[i - 2].Passed? then i - 2 else i - 1);
    }
    ShownIsYoung(IsFailing, h, if h[i - 1].IsFail() then i - 1 else i);
  }

  /**
   The legacy heuristic confirms a flaky verdict exactly when the window holds three outcomes and
   still shows both a pass and a failure.
   */
  lemma FlakyAgreesExactly(id: string, max: nat, h: seq<Event>)
    requires StabilityOf(Outcomes(h)).IsFlaky()
    ensures var o := Outcomes(h);
            CheckIsFlaky(Summary(id, max, h)) <==> max >= 3 && Age(IsPassing, o) < max && Age(IsFailing, o) < max
  {
    FlakyShowsBoth(Outcomes(h));
    FlakyMeansFlips(Outcomes(h));
    LegacyExactly(id, max, h);
  }

  /** Two flips in a row are always recent enough. */
  lemma TwoFlipsMeanLegacyFlaky(id: string, max: nat, h: seq<Event>)
    requires StabilityOf(Outcomes(h)) == Flaky(2)
    ensures CheckIsFlaky(Summary(id, max, h)) <==> max >= 3
  {
    FlakyShowsBoth(Outcomes(h));
    FlakyAgreesExactly(id, max, h);
  }

  function WithSkips(h: seq<Event>, n: nat): seq<Event> {
    if n == 0 then h else WithSkips(h, n - 1) + [Event(Skipped, None)]
  }

  /**
   A confirmed state has no such bound: skips neither confirm nor refute it, so whatever the history,
   it outlives every pass and every failure in the window, and the legacy heuristic then disagrees.
   */
  lemma ConfirmedOutlivesWindow(id: string, max: nat, h: seq<Event>, n: nat)
    requires StabilityOf(Outcomes(h)).ConfirmedFlaky? && n >= max
    ensures var r := Summary(id, max, WithSkips(h, n));
            && r.stability == ConfirmedFlaky
            && !Shows(IsPassing, r.outcomes) && !Shows(IsFailing, r.outcomes) && !CheckIsFlaky(r)
  {
    var o := Outcomes(WithSkips(h, n));
    SkipsAge(h, n);
    WindowShows(IsPassing, o, max);
    WindowShows(IsFailing, o, max);
    FlakyAgreesExactly(id, max, WithSkips(h, n));
  }

  lemma {:induction false} SkipsAge(h: seq<Event>, n: nat)
    requires StabilityOf(Outcomes(h)).ConfirmedFlaky?
    ensures var o := Outcomes(WithSkips(h, n));
            StabilityOf(o) == ConfirmedFlaky && Age(IsPassing, o) >= n && Age(IsFailing, o) >= n
  {
    if n > 0 {
      SkipsAge(h, n - 1);
      EventNext(WithSkips(h, n - 1), Event(Skipped, None));
      OneMoreSkip(Outcomes(WithSkips(h, n - 1)));
    }
  }

  lemma OneMoreSkip(o: seq<Outcome>)
    requires StabilityOf(o).ConfirmedFlaky?
    ensures StabilityOf(o + [Skipped]).ConfirmedFlaky?
    ensures Age(IsPassing, o + [Skipped]) == Age(IsPassing, o) + 1
    ensures Age(IsFailing, o + [Skipped]) == Age(IsFailing, o) + 1
  {
    HistoryNext(o, Skipped);
    AgeNext(IsPassing, o, Skipped);
    AgeNext(IsFailing, o, Skipped);
  }

  /** Passes alternating with an outcome confirm when that outcome is a failure or an error, and only then. */
  lemma AlternationConfirms(o: Outcome)
    ensures StabilityOf([Passed, o, Passed, o]) == ConfirmedFlaky <==> o == Failed || o == Error
  {
    HistoryNext([], Passed);
    HistoryNext([Passed], o);
    HistoryNext([Passed, o], Passed);
    HistoryNext([Passed, o, Passed], o);
    assert [] + [Passed] == [Passed] && [Passed] + [o] == [Passed, o];
    assert [Passed, o] + [Passed] == [Passed, o, Passed];
    assert [Passed, o, Passed] + [o] == [Passed, o, Passed, o];
  }

  // ----- The tracker object

  const MAX_OUTCOMES: nat := 20

  /** The field updates of `record_outcome`, in the order in which the source makes them. */
  method Update(before: Record, max: nat, outcome: Outcome, message: Option<string>) returns (record: Record)
    ensures record == Recorded(before, max, outcome, message)
  {
    record := before;
    var prevOutcome := LastOf(record.outcomes);
    record := record.(outcomes := record.outcomes + [outcome]);
    if |record.outcomes| > max {
      record := record.(outcomes := record.outcomes[|record.outcomes| - max..]);
    }
    record := record.(totalRuns := record.totalRuns + 1);
    record := record.(stability := Transition(record.stability, outcome, prevOutcome));
    if outcome.IsFail() {
      record := record.(consecutiveFailures := record.consecutiveFailures + 1,
                        consecutivePasses := 0, lastFailureMessage := message);
    } else if outcome.Passed? {
      record := record.(consecutivePasses := record.consecutivePasses + 1, consecutiveFailures := 0);
    } else {
      record := record.(consecutiveFailures := 0, consecutivePasses := 0);
    }
    if prevOutcome.Some? && prevOutcome.value.IsFail() != outcome.IsFail() {
      record := record.(flakyStreak := record.flakyStreak + 1);
    }
  }

  /** Every record is the replay of everything ever recorded for its test. */
  ghost predicate Replays(records: map<string, Record>, histories: map<string, seq<Event>>, max: nat) {
    && records.Keys == histories.Keys
    && forall id :: id in records ==> histories[id] != [] && records[id] == Replay(id, max, histories[id])
  }

  function HistoryIn(histories: map<string, seq<Event>>, id: string): seq<Event> {
    if id in histories then histories[id] else []
  }

  function RecordIn(records: map<string, Record>, id: string): Record {
    if id in records then records[id] else Fresh(id)
  }

  function Extended(histories: map<string, seq<Event>>, id: string, e: Event): map<string, seq<Event>> {
    histories[id := HistoryIn(histories, id) + [e]]
  }

  lemma ReplayNext(id: string, max: nat, h: seq<Event>, e: Event)
    ensures Replay(id, max, h + [e]) == Recorded(Replay(id, max, h), max, e.outcome, e.message)
  {
    assert (h + [e])[..|h|] == h;
  }

  lemma RecordKeepsReplays(records: map<string, Record>, histories: map<string, seq<Event>>, max: nat,
                           id: string, e: Event, r: Record)
    requires Replays(records, histories, max)
    requires r == Recorded(RecordIn(records, id), max, e.outcome, e.message)
    ensures Replays(records[id := r], Extended(histories, id, e), max)
  {
    RecordIsReplay(records, histories, max, id);
    ReplayNext(id, max, HistoryIn(histories, id), e);
    EntryKeepsReplays(records, histories, max, id, r, HistoryIn(histories, id) + [e]);
  }

  lemma RecordIsReplay(records: map<string, Record>, histories: map<string, seq<Event>>, max: nat, id: string)
    requires Replays(records, histories, max)
    ensures RecordIn(records, id) == Replay(id, max, HistoryIn(histories, id))
  {
  }

  lemma EntryKeepsReplays(records: map<string, Record>, histories: map<string, seq<Event>>, max: nat,
                          id: string, r: Record, h: seq<Event>)
    requires Replays(records, histories, max) && h != [] && r == Replay(id, max, h)
    ensures Replays(records[id := r], histories[id := h], max)
  {
  }

  /** The entry of one test is updated in place, or inserted. */
  method UpdateEntry(records: map<string, Record>, max: nat, nodeId: string, outcome: Outcome, message: Option<string>,
                     ghost histories: map<string, seq<Event>>)
    returns (records': map<string, Record>)
    requires Replays(records, histories, max)
    ensures Replays(records', Extended(histories, nodeId, Event(outcome, message)), max)
  {
    var record := Update(RecordIn(records, nodeId), max, outcome, message);
    RecordKeepsReplays(records, histories, max, nodeId, Event(outcome, message), record);
    records' := records[nodeId := record];
  }

  /** Without a window no flip is ever seen. */
  lemma {:induction false} EmptyWindowNeverFlaky(id: string, h: seq<Event>)
    ensures var r := Replay(id, 0, h);
            r.outcomes == [] && r.flakyStreak == 0 && !r.stability.IsFlaky() && !CheckIsFlaky(r)
            && (r.stability.Flaky? ==> r.stability.streakCount == 1)
  {
    if h != [] {
      EmptyWindowNeverFlaky(id, h[..|h| - 1]);
    }
  }

  class FlakinessTracker {
    var records: map<string, Record>
    const maxOutcomes: nat
    var dirty: bool
    /** Everything ever recorded, per test. */
    ghost var histories: map<string, seq<Event>>

    ghost predicate Valid()
      reads this
    {
      Replays(records, histories, maxOutcomes)
    }

    constructor ()
      ensures Valid() && maxOutcomes == 20 && histories == map[] && !dirty
    {
      records, maxOutcomes, dirty := map[], MAX_OUTCOMES, false;
      histories := map[];
    }

    /** The derived default has no window at all. */
    constructor Default()
      ensures Valid() && maxOutcomes == 0 && histories == map[] && !dirty
    {
      records, maxOutcomes, dirty := map[], 0, false;
      histories := map[];
    }

    ghost function History(id: string): seq<Event>
      reads this
    {
      HistoryIn(histories, id)
    }

    method RecordOutcome(nodeId: string, outcome: Outcome, message: Option<string>)
      requires Valid()
      modifies this
      ensures Valid() && dirty
      ensures histories == Extended(old(histories), nodeId, Event(outcome, message))
    {
      records := UpdateEntry(records, maxOutcomes, nodeId, outcome, message, histories);
      histories := Extended(histories, nodeId, Event(outcome, message));
      dirty := true;
    }

    /** What is known of a test is a fact about everything recorded for it. */
    method GetRecord(nodeId: string) returns (record: Option<Record>)
      requires Valid()
      ensures record.None? <==> nodeId !in histories
      ensures record.Some? ==> record.value == Replay(nodeId, maxOutcomes, History(nodeId))
      ensures record.Some? && maxOutcomes >= 1 ==> record.value == Summary(nodeId, maxOutcomes, History(nodeId))
    {
      record := if nodeId in records then Some(records[nodeId]) else None;
      if maxOutcomes >= 1 {
        WindowRefinesHistory(nodeId, maxOutcomes, History(nodeId));
      }
    }

    /** So is a flaky verdict; a tracker without a window never gives one. */
    method IsFlaky(nodeId: string) returns (flaky: bool)
      requires Valid()
      ensures flaky <==> maxOutcomes >= 1 && StabilityOf(Outcomes(History(nodeId))).IsFlaky()
      ensures flaky ==> Flips(Outcomes(History(nodeId))) >= 2
    {
      flaky := nodeId in records && records[nodeId].stability.IsFlaky();
      if maxOutcomes >= 1 {
        WindowRefinesHistory(nodeId, maxOutcomes, History(nodeId));
      } else {
        EmptyWindowNeverFlaky(nodeId, History(nodeId));
      }
      if flaky {
        FlakyMeansFlips(Outcomes(History(nodeId)));
      }
    }
  }
}
