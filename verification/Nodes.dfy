/**
 A test node: expression matching and the running mean of its duration
 (crates/rpytest-core/src/inventory/nodes.rs).
 */
module Nodes {
  import opened Models
  import opened Expressions
  import opened Arithmetic

  /** A plain keyword matches as a case-folded substring of a keyword or of the node id. */
  function KeywordAtom(lower: string -> string, keywords: seq<string>, nodeId: string): string -> bool {
    w => || (exists i :: 0 <= i < |keywords| && Contains(lower(keywords[i]), lower(w)))
         || Contains(lower(nodeId), lower(w))
  }

  /** A plain marker matches exactly. */
  function MarkerAtom(markers: seq<string>): string -> bool {
    w => w in markers
  }

  function Sum(ds: seq<nat>): nat {
    if ds == [] then 0 else Sum(ds[..|ds| - 1]) + ds[|ds| - 1]
  }

  /** One update of the mean: run number `n` takes `d`, the mean before it was `m`. */
  function NextMean(m: nat, n: nat, d: nat): nat
    requires n > 0
  {
    Quotient(m * (n - 1) + d, n)
  }

  /** The mean that is rounded down after every run. */
  function RunningMean(ds: seq<nat>): nat {
    if ds == [] then 0 else NextMean(RunningMean(ds[..|ds| - 1]), |ds|, ds[|ds| - 1])
  }

  lemma MeanNext(ds: seq<nat>, d: nat)
    ensures RunningMean(ds + [d]) == NextMean(RunningMean(ds), |ds| + 1, d)
  {
    assert (ds + [d])[..|ds|] == ds;
  }

  function Triangle(n: nat): nat {
    n * (n - 1) / 2
  }

  lemma TriangleNext(n: nat)
    ensures Triangle(n + 1) == Triangle(n) + n
  {
    assert (n + 1) * n == n * (n - 1) + 2 * n;
  }

  /**
   How far repeated truncation can drift: after n runs of total S, n times the stored mean is at most
   S and at least S - n(n-1)/2.
   */
  lemma {:induction false} MeanDrift(ds: seq<nat>)
    ensures Sum(ds) - Triangle(|ds|) <= |ds| * RunningMean(ds) <= Sum(ds)
  {
    if ds != [] {
      var n := |ds|;
      var ds', d := ds[..n - 1], ds[n - 1];
      MeanDrift(ds');
      TriangleNext(n - 1);
      DriftStep(RunningMean(ds'), n, d, Sum(ds'), Triangle(n - 1));
    }
  }

  lemma DriftStep(m: nat, n: nat, d: nat, s: nat, t: nat)
    requires n > 0 && s - t <= (n - 1) * m <= s
    ensures s + d - (t + (n - 1)) <= n * NextMean(m, n, d) <= s + d
  {
    NextMeanRange(m, n, d);
    Commute(m, n - 1);
  }

  lemma NextMeanRange(m: nat, n: nat, d: nat)
    requires n > 0
    ensures m * (n - 1) + d - (n - 1) <= n * NextMean(m, n, d) <= m * (n - 1) + d
  {
    var a := m * (n - 1) + d;
    QuotientRange(a, n);
    assert NextMean(m, n, d) == Quotient(a, n);
  }

  /** And the mean never leaves the range of the recorded durations. */
  lemma {:induction false} MeanWithinRange(ds: seq<nat>, lo: nat, hi: nat)
    requires ds != [] && forall i :: 0 <= i < |ds| ==> lo <= ds[i] <= hi
    ensures lo <= RunningMean(ds) <= hi
  {
    var n := |ds|;
    var ds', d := ds[..n - 1], ds[n - 1];
    var m := RunningMean(ds');
    if n == 1 {
      assert m * 0 + d == d;
    } else {
      MeanWithinRange(ds', lo, hi);
      MeanOfTwo(m, d, n, lo, hi);
    }
  }

  lemma MeanOfTwo(m: nat, d: nat, n: nat, lo: nat, hi: nat)
    requires n >= 1 && lo <= m <= hi && lo <= d <= hi
    ensures lo <= NextMean(m, n, d) <= hi
  {
    Monotone(lo, m, n - 1);
    Monotone(m, hi, n - 1);
    LastFactor(lo, n);
    LastFactor(hi, n);
    QuotientBetween(m * (n - 1) + d, n, lo, hi);
  }

  class TestNode {
    const nodeId: string
    var markers: seq<string>
    var keywords: seq<string>
    var avgDurationMs: Option<nat>
    var runCount: nat
    /** Every duration recorded so far. */
    ghost var durations: seq<nat>

    constructor (nodeId: string)
      ensures Valid() && durations == [] && markers == [] && keywords == [] && this.nodeId == nodeId
    {
      this.nodeId, markers, keywords, avgDurationMs, runCount, durations := nodeId, [], [], None, 0, [];
    }

    ghost predicate Valid()
      reads this
    {
      && runCount == |durations|
      && avgDurationMs == if durations == [] then None else Some(RunningMean(durations))
    }

    method RecordDuration(durationMs: nat)
      requires Valid()
      modifies this`runCount, this`avgDurationMs, this`durations
      ensures Valid() && durations == old(durations) + [durationMs]
    {
      runCount := runCount + 1;
      var currentAvg := if avgDurationMs.Some? then avgDurationMs.value else 0;
      MeanNext(durations, durationMs);
      avgDurationMs := Some(NextMean(currentAvg, runCount, durationMs));
      durations := durations + [durationMs];
    }

    predicate MatchesKeyword(lower: string -> string, expr: string)
      reads this
    {
      Matches(KeywordAtom(lower, keywords, nodeId), expr)
    }

    predicate MatchesMarker(expr: string)
      reads this
    {
      Matches(MarkerAtom(markers), expr)
    }
  }

  /** A keyword expression selects a node by the tree it spells, whatever the node's keywords. */
  lemma KeywordReadsTree(node: TestNode, lower: string -> string, e: Expr, p: Phrase, x: string)
    requires ProperExpr(e) && IsPhrase(p) && Spells(p, ExprWords(e)) && Trim(x) == Text(p)
    ensures node.MatchesKeyword(lower, x)
            == EvalExpr(KeywordAtom(lower, node.keywords, node.nodeId), e)
  {
    EvaluatorInvertsPrinting(KeywordAtom(lower, node.keywords, node.nodeId), e, p, x);
  }

  lemma MarkerReadsTree(node: TestNode, e: Expr, p: Phrase, x: string)
    requires ProperExpr(e) && IsPhrase(p) && Spells(p, ExprWords(e)) && Trim(x) == Text(p)
    ensures node.MatchesMarker(x) == EvalExpr(MarkerAtom(node.markers), e)
  {
    EvaluatorInvertsPrinting(MarkerAtom(node.markers), e, p, x);
  }

  /** A plain keyword selects a node when some keyword of it, or its id, contains it up to case. */
  lemma KeywordSelectsExactly(node: TestNode, lower: string -> string, w: string)
    requires IsWord(w)
    ensures node.MatchesKeyword(lower, w) <==>
            exists t, a, b :: (t in node.keywords || t == node.nodeId) && lower(t) == a + lower(w) + b
  {
    WordIsAtom(KeywordAtom(lower, node.keywords, node.nodeId), w);
    forall t
      ensures Contains(lower(t), lower(w)) <==> exists a, b :: lower(t) == a + lower(w) + b
    {
      ContainsExactly(lower(t), lower(w));
    }
    if t, a, b :| (t in node.keywords || t == node.nodeId) && lower(t) == a + lower(w) + b {
      assert Contains(lower(t), lower(w));
      if t in node.keywords {
        var i :| 0 <= i < |node.keywords| && node.keywords[i] == t;
      }
    }
  }

  /** A plain marker selects a node when it is one of its markers. */
  lemma MarkerSelectsExactly(node: TestNode, w: string)
    requires IsWord(w)
    ensures node.MatchesMarker(w) <==> exists i :: 0 <= i < |node.markers| && node.markers[i] == w
  {
    WordIsAtom(MarkerAtom(node.markers), w);
  }
}
