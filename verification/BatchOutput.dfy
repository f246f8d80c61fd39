/**
 Reading outcomes off the output of a batch (crates/rpytest-daemon/src/executor.rs, `parse_batch_output`):
 what the parser does on any text, and which reports it reads back.
 */
module BatchOutput {
  import opened Models
  import opened Expressions

  // ----- Lines and words

  /** The text before and after the first line feed. */
  function CutLine(s: string): (r: Option<(string, string)>)
    ensures r.Some? ==> |r.value.1| < |s|
  {
    SplitOnce(s, "\n")
  }

  function WithoutReturn(line: string): string {
    if line != [] && line[|line| - 1] == '\r' then line[..|line| - 1] else line
  }

  /** Line feeds end lines, with a carriage return before them or not; the last one is optional. */
  function Lines(s: string): seq<string>
    decreases |s|
  {
    if s == [] then []
    else match CutLine(s)
         case None => [s]
         case Some((line, rest)) => [WithoutReturn(line)] + Lines(rest)
  }

  /** The longest runs of characters that are not white space. */
  function Words(s: string): seq<string>
    decreases |s|
  {
    if s == [] then []
    else if IsSpace(s[0]) then Words(s[1..])
    else [s[..Prefix(s, false)]] + Words(s[Prefix(s, false)..])
  }

  function WordsPerLine(lines: seq<string>): seq<seq<string>> {
    seq(|lines|, k requires 0 <= k < |lines| => Words(lines[k]))
  }

  predicate SummaryHas(text: string, what: string) {
    Contains(text, " " + what + "]") || Contains(text, " " + what + " in")
  }

  // ----- Reading the output

  /** The output as the parser sees it: words per line, and which summary phrases occur anywhere. */
  datatype Output = Output(
    lines: seq<seq<string>>, summaryPassed: bool, summaryFailed: bool, summarySkipped: bool, hasErrors: bool)

  function Read(text: string): Output {
    Output(WordsPerLine(Lines(text)),
           SummaryHas(text, "passed"), SummaryHas(text, "failed"), SummaryHas(text, "skipped"),
           Contains(text, " error]") || Contains(text, " errors in"))
  }

  function StatusWord(word: string): Option<Outcome> {
    if "PASSED" <= word then Some(Passed)
    else if "FAILED" <= word then Some(Failed)
    else if "SKIPPED" <= word then Some(Skipped)
    else if "XFAIL" <= word then Some(Xfail)
    else if "XPASS" <= word then Some(Xpass)
    else None
  }

  /** A status word starts with one of the five statuses. */
  lemma StatusWordExactly(word: string)
    ensures StatusWord(word) == Some(Passed) <==> exists rest :: word == "PASSED" + rest
    ensures StatusWord(word) == Some(Failed) <==> exists rest :: word == "FAILED" + rest
    ensures StatusWord(word) == Some(Skipped) <==> exists rest :: word == "SKIPPED" + rest
    ensures StatusWord(word) == Some(Xfail) <==> exists rest :: word == "XFAIL" + rest
    ensures StatusWord(word) == Some(Xpass) <==> exists rest :: word == "XPASS" + rest
  {
    StartsWith("PASSED", word);
    StartsWith("FAILED", word);
    StartsWith("SKIPPED", word);
    StartsWith("XFAIL", word);
    StartsWith("XPASS", word);
    assert "PASSED"[0] == 'P' && "FAILED"[0] == 'F' && "SKIPPED"[0] == 'S';
    assert "XFAIL"[0] == 'X' && "XPASS"[0] == 'X' && "XFAIL"[1] == 'F' && "XPASS"[1] == 'P';
  }

  lemma StartsWith(start: string, word: string)
    ensures start <= word <==> exists rest :: word == start + rest
  {
    if start <= word {
      assert word == start + word[|start|..];
    }
  }

  /** The first status word of a line. */
  function FirstStatus(words: seq<string>): Option<Outcome> {
    if words == [] then None
    else if StatusWord(words[0]).Some? then StatusWord(words[0])
    else FirstStatus(words[1..])
  }

  function LineOutcome(words: seq<string>): Option<Outcome> {
    if words == [] then None else FirstStatus(words[1..])
  }

  /** What follows the first `::`. */
  function AfterFirst(s: string): Option<string> {
    if |s| < 2 then None else if s[..2] == "::" then Some(s[2..]) else AfterFirst(s[1..])
  }

  /** What follows the last `::`. */
  function AfterLast(s: string): Option<string> {
    if |s| < 2 then None
    else if AfterLast(s[1..]).Some? then AfterLast(s[1..])
    else if s[..2] == "::" then Some(s[2..])
    else None
  }

  /** What follows the first `::`: there is none before it. */
  lemma {:induction false} AfterFirstExactly(a: string, t: string)
    requires !Contains(a + ":", "::")
    ensures AfterFirst(a + ("::" + t)) == Some(t)
  {
    var s := a + ("::" + t);
    FindIsOccurrence(a + ":", "::");
    if a == "" {
      assert s[..2] == "::" && s[2..] == t;
    } else {
      assert s[1..] == a[1..] + ("::" + t);
      NoColonsHere(a);
      assert s[..2] == (a + ":")[..2];
      AfterFirstExactly(a[1..], t);
    }
  }

  lemma NoColonsHere(a: string)
    requires a != "" && !Contains(a + ":", "::")
    ensures (a + ":")[..2] != "::" && !Contains(a[1..] + ":", "::")
  {
    assert (a + ":")[1..] == a[1..] + ":";
    assert "::" <= a + ":" <==> (a + ":")[..2] == "::";
  }

  /** What follows the last `::`: there is none after it. */
  lemma {:induction false} AfterLastExactly(a: string, t: string)
    requires !Contains(":" + t, "::")
    ensures AfterLast(a + ("::" + t)) == Some(t)
  {
    var s := a + ("::" + t);
    if a == "" {
      assert s[1..] == ":" + t && s[..2] == "::" && s[2..] == t;
      NoneAfter(":" + t);
    } else {
      assert s[1..] == a[1..] + ("::" + t);
      AfterLastExactly(a[1..], t);
    }
  }

  lemma {:induction false} NoneAfter(s: string)
    ensures AfterLast(s).None? <==> !Contains(s, "::")
    ensures AfterFirst(s).None? <==> !Contains(s, "::")
  {
    FindIsOccurrence(s, "::");
    if |s| >= 2 {
      NoneAfter(s[1..]);
      assert "::" <= s <==> s[..2] == "::";
    }
  }

  /** A line speaks about its first word and about what follows the last `::` in it. */
  predicate Mentions(words: seq<string>, key: string) {
    LineOutcome(words).Some? && (words[0] == key || AfterLast(words[0]) == Some(key))
  }

  /** The outcome on the last line that speaks about `key`. */
  function LastMention(lines: seq<seq<string>>, key: string): Option<Outcome> {
    if lines == [] then None
    else if Mentions(lines[|lines| - 1], key) then LineOutcome(lines[|lines| - 1])
    else LastMention(lines[..|lines| - 1], key)
  }

  /** What is assumed about a test that no line speaks about. */
  function Fallback(o: Output): Outcome {
    if o.summaryPassed && !o.summaryFailed then Passed
    else if o.summaryFailed && !o.summaryPassed then Failed
    else if o.hasErrors then Error
    else if o.summarySkipped then Skipped
    else Passed
  }

  function Verdict(o: Output, id: string): Outcome {
    if LastMention(o.lines, id).Some? then LastMention(o.lines, id).value
    else if AfterFirst(id).Some? && LastMention(o.lines, AfterFirst(id).value).Some?
         then LastMention(o.lines, AfterFirst(id).value).value
    else Fallback(o)
  }

  /** One result per requested test, in the requested order. */
  function Parsed(ids: seq<string>, text: string): seq<TestResult> {
    seq(|ids|, i requires 0 <= i < |ids| => TestResult(ids[i], Verdict(Read(text), ids[i]), 0, None))
  }

  lemma {:induction false} LastMentionIsNoError(lines: seq<seq<string>>, key: string)
    ensures LastMention(lines, key) != Some(Error)
  {
    if lines != [] {
      var words := lines[|lines| - 1];
      if words != [] {
        FirstStatusIsNoError(words[1..]);
      }
      LastMentionIsNoError(lines[..|lines| - 1], key);
    }
  }

  lemma {:induction false} FirstStatusIsNoError(words: seq<string>)
    ensures FirstStatus(words) != Some(Error)
  {
    if words != [] {
      FirstStatusIsNoError(words[1..]);
    }
  }

  /** A test is reported as an error exactly when nothing speaks about it and the summary says so. */
  lemma ErrorExactly(o: Output, id: string)
    ensures Verdict(o, id) == Error <==>
            && LastMention(o.lines, id).None?
            && (AfterFirst(id).Some? ==> LastMention(o.lines, AfterFirst(id).value).None?)
            && o.hasErrors && o.summaryPassed == o.summaryFailed
  {
    LastMentionIsNoError(o.lines, id);
    if AfterFirst(id).Some? {
      LastMentionIsNoError(o.lines, AfterFirst(id).value);
    }
  }

  /** What a test gets of which no line speaks, by the summary phrases in the text. */
  lemma FallbackExactly(text: string, id: string)
    requires LastMention(Read(text).lines, id).None?
    requires AfterFirst(id).Some? ==> LastMention(Read(text).lines, AfterFirst(id).value).None?
    ensures var passed := Contains(text, " passed]") || Contains(text, " passed in");
            var failed := Contains(text, " failed]") || Contains(text, " failed in");
            var skipped := Contains(text, " skipped]") || Contains(text, " skipped in");
            var errors := Contains(text, " error]") || Contains(text, " errors in");
            && (Verdict(Read(text), id) == Failed <==> failed && !passed)
            && (Verdict(Read(text), id) == Error <==> passed == failed && errors)
            && (Verdict(Read(text), id) == Skipped <==> passed == failed && !errors && skipped)
            && (Verdict(Read(text), id) == Passed <==> (passed && !failed) || (passed == failed && !errors && !skipped))
  {
    SummaryPhrases();
  }

  lemma SummaryPhrases()
    ensures " " + "passed" + "]" == " passed]" && " " + "passed" + " in" == " passed in"
    ensures " " + "failed" + "]" == " failed]" && " " + "failed" + " in" == " failed in"
    ensures " " + "skipped" + "]" == " skipped]" && " " + "skipped" + " in" == " skipped in"
  {
  }

  /** The lookup table after the single pass over the lines. */
  method LineOutcomes(lines: seq<string>) returns (outcomes: map<string, Outcome>)
    ensures forall key ::
              (if key in outcomes then Some(outcomes[key]) else None) == LastMention(WordsPerLine(lines), key)
  {
    outcomes := map[];
    ghost var read := WordsPerLine(lines);
    for k := 0 to |lines|
      invariant forall key :: (if key in outcomes then Some(outcomes[key]) else None) == LastMention(read[..k], key)
    {
      var words := Words(lines[k]);
      assert read[..k + 1][..k] == read[..k] && read[k] == words;
      if words == [] {
        continue;
      }
      var outcome := FirstStatus(words[1..]);
      if outcome.Some? {
        outcomes := outcomes[words[0] := outcome.value];
        var name := AfterLast(words[0]);
        if name.Some? {
          outcomes := outcomes[name.value := outcome.value];
        }
      }
    }
    assert read[..|lines|] == read;
  }

  /** The source's single pass over the lines, then one lookup per test. */
  method ParseBatchOutput(ids: seq<string>, text: string) returns (results: seq<TestResult>)
    ensures results == Parsed(ids, text)
  {
    var lineOutcomes := LineOutcomes(Lines(text));
    results := [];
    for k := 0 to |ids|
      invariant results == Parsed(ids[..k], text)
    {
      var outcome := LookUp(lineOutcomes, ids[k], text);
      results := results + [TestResult(ids[k], outcome, 0, None)];
    }
    assert ids[..|ids|] == ids;
  }

  /** By full id, by what follows its first `::`, and else by the summary. */
  method LookUp(lineOutcomes: map<string, Outcome>, id: string, text: string) returns (outcome: Outcome)
    requires forall key :: (if key in lineOutcomes then Some(lineOutcomes[key]) else None)
                           == LastMention(Read(text).lines, key)
    ensures outcome == Verdict(Read(text), id)
  {
    LastMentionIsNoError(Read(text).lines, id);
    outcome := Error;
    if id in lineOutcomes {
      outcome := lineOutcomes[id];
    } else {
      var name := AfterFirst(id);
      if name.Some? {
        LastMentionIsNoError(Read(text).lines, name.value);
        if name.value in lineOutcomes {
          outcome := lineOutcomes[name.value];
        }
      }
    }
    if outcome == Error {
      outcome := FallbackIn(text);
    }
  }

  /** The summary's verdict. */
  method FallbackIn(text: string) returns (outcome: Outcome)
    ensures outcome == Fallback(Read(text))
  {
    var passed, failed, skipped := SummaryHas(text, "passed"), SummaryHas(text, "failed"), SummaryHas(text, "skipped");
    var errors := Contains(text, " error]") || Contains(text, " errors in");
    if passed && !failed {
      outcome := Passed;
    } else if failed && !passed {
      outcome := Failed;
    } else if errors {
      outcome := Error;
    } else if skipped {
      outcome := Skipped;
    } else {
      outcome := Passed;
    }
  }

  // ----- Reading back a report

  function PhraseWords(p: Phrase): seq<string> {
    match p case Word(w) => [w] case More(w, _, r) => [w] + PhraseWords(r)
  }

  lemma {:induction false} WordFirst(w: string, t: string)
    requires IsWord(w) && (t != [] ==> IsSpace(t[0]))
    ensures Prefix(w + t, false) == |w|
  {
    assert w[0] in w && (w + t)[1..] == w[1..] + t;
    if |w| > 1 {
      forall c | c in w[1..]
        ensures !IsSpace(c)
      {
        assert c in w;
      }
      WordFirst(w[1..], t);
    } else {
      assert w[1..] + t == t;
    }
  }

  lemma {:induction false} WordsSkipGap(g: string, t: string)
    requires AllSpace(g)
    ensures Words(g + t) == Words(t)
  {
    if g == [] {
      assert g + t == t;
    } else {
      assert g[0] in g && (g + t)[1..] == g[1..] + t;
      WordsSkipGap(g[1..], t);
    }
  }

  /** The words of a text are the words it was put together from. */
  lemma {:induction false} WordsOfText(p: Phrase)
    requires IsPhrase(p)
    ensures Words(Text(p)) == PhraseWords(p)
  {
    match p
    case Word(w) =>
      WordFirst(w, []);
      assert w + [] == w && w[0] in w && w[|w|..] == [];
    case More(w, g, r) =>
      assert g[0] in g && w[0] in w;
      WordFirst(w, g + Text(r));
      assert (w + (g + Text(r)))[..|w|] == w && (w + (g + Text(r)))[|w|..] == g + Text(r);
      WordsSkipGap(g, Text(r));
      WordsOfText(r);
  }

  /** Every line followed by a line feed. */
  function Ended(lines: seq<string>): string {
    if lines == [] then [] else lines[0] + ("\n" + Ended(lines[1..]))
  }

  predicate IsLine(line: string) {
    '\n' !in line && (line != [] ==> line[|line| - 1] != '\r')
  }

  lemma {:induction false} FindLineFeed(line: string, rest: string)
    requires '\n' !in line
    ensures Find(line + ("\n" + rest), "\n") == Some(|line|)
  {
    var s := line + ("\n" + rest);
    if line == [] {
      assert s == "\n" + rest;
    } else {
      assert s[0] == line[0] && line[0] in line && s[1..] == line[1..] + ("\n" + rest);
      FindLineFeed(line[1..], rest);
    }
  }

  lemma LineCut(line: string, rest: string)
    requires '\n' !in line
    ensures Lines(line + ("\n" + rest)) == [WithoutReturn(line)] + Lines(rest)
  {
    FindLineFeed(line, rest);
    CutAtLineFeed(line, rest);
  }

  lemma LineFirst(line: string, rest: string)
    requires IsLine(line)
    ensures Lines(line + ("\n" + rest)) == [line] + Lines(rest)
  {
    LineCut(line, rest);
  }

  /** A carriage return before the line feed belongs to neither line. */
  lemma ReturnDropped(line: string, rest: string)
    requires '\n' !in line
    ensures Lines(line + ['\r'] + ("\n" + rest)) == [line] + Lines(rest)
  {
    LineCut(line + ['\r'], rest);
  }

  lemma CutAtLineFeed(line: string, rest: string)
    ensures var s := line + ("\n" + rest); s[..|line|] == line && s[|line| + 1..] == rest
  {
  }

  lemma {:induction false} LinesOfEnded(lines: seq<string>)
    requires forall k :: 0 <= k < |lines| ==> IsLine(lines[k])
    ensures Lines(Ended(lines)) == lines
  {
    if lines != [] {
      LineFirst(lines[0], Ended(lines[1..]));
      LinesOfEnded(lines[1..]);
    }
  }

  function StatusText(o: Outcome): string
    requires o != Error
  {
    match o
    case Passed => "PASSED"
    case Failed => "FAILED"
    case Skipped => "SKIPPED"
    case Xfail => "XFAIL"
    case Xpass => "XPASS"
  }

  /** One line per test: its id and its status. */
  function Report(ids: seq<string>, outcomes: seq<Outcome>): seq<string>
    requires |ids| == |outcomes| && Error !in outcomes
  {
    seq(|ids|, k requires 0 <= k < |ids| => ids[k] + (" " + StatusText(outcomes[k])))
  }

  lemma StatusIsWord(o: Outcome)
    requires o != Error
    ensures IsWord(StatusText(o)) && StatusWord(StatusText(o)) == Some(o)
  {
    var w := StatusText(o);
    assert w[0] == if o == Passed then 'P' else if o == Failed then 'F' else if o == Skipped then 'S' else 'X';
    assert o == Xfail ==> w[1] == 'F';
    assert o == Xpass ==> w[1] == 'P';
    assert "PASSED"[0] == 'P' && "FAILED"[0] == 'F' && "SKIPPED"[0] == 'S' && "XFAIL"[1] == 'F' && "XPASS"[1] == 'P';
  }

  lemma ReportLineRead(id: string, o: Outcome)
    requires IsWord(id) && o != Error
    ensures Words(id + (" " + StatusText(o))) == [id, StatusText(o)]
    ensures LineOutcome([id, StatusText(o)]) == Some(o)
    ensures IsLine(id + (" " + StatusText(o)))
  {
    StatusIsWord(o);
    WordsOfText(More(id, " ", Word(StatusText(o))));
    assert PhraseWords(More(id, " ", Word(StatusText(o)))) == [id, StatusText(o)];
    assert [id, StatusText(o)][1..] == [StatusText(o)];
    NoLineFeed(id, StatusText(o));
  }

  lemma NoLineFeed(id: string, status: string)
    requires IsWord(id) && IsWord(status)
    ensures IsLine(id + (" " + status))
  {
    var line := id + (" " + status);
    assert line[|line| - 1] == status[|status| - 1] && status[|status| - 1] in status;
    assert IsSpace('\n') && IsSpace('\r');
  }

  function ReportWords(ids: seq<string>, outcomes: seq<Outcome>): seq<seq<string>>
    requires |ids| == |outcomes| && Error !in outcomes
  {
    seq(|ids|, k requires 0 <= k < |ids| => [ids[k], StatusText(outcomes[k])])
  }

  lemma ReportLineMentions(id: string, o: Outcome, key: string)
    requires IsWord(id) && o != Error
    ensures Mentions([id, StatusText(o)], key) <==> id == key || AfterLast(id) == Some(key)
  {
    ReportLineRead(id, o);
  }

  /** The line of test `j` also speaks about test `i`. */
  predicate Covers(ids: seq<string>, j: nat, i: nat)
    requires j < |ids| && i < |ids|
  {
    ids[j] == ids[i] || AfterLast(ids[j]) == Some(ids[i])
  }

  predicate AllWords(ids: seq<string>) {
    forall k :: 0 <= k < |ids| ==> IsWord(ids[k])
  }

  lemma LastLine(ids: seq<string>, outcomes: seq<Outcome>, i: nat, n: nat)
    requires |ids| == |outcomes| && Error !in outcomes && i < |ids| && 0 < n <= |ids| && AllWords(ids)
    ensures LastMention(ReportWords(ids, outcomes)[..n], ids[i])
            == if Covers(ids, n - 1, i) then Some(outcomes[n - 1])
               else LastMention(ReportWords(ids, outcomes)[..n - 1], ids[i])
  {
    assert ReportWords(ids, outcomes)[..n][..n - 1] == ReportWords(ids, outcomes)[..n - 1];
    ReportLineRead(ids[n - 1], outcomes[n - 1]);
    ReportLineMentions(ids[n - 1], outcomes[n - 1], ids[i]);
  }

  /** Without a later line that covers it, a test's own line decides. */
  lemma {:induction false} OwnLineDecides(ids: seq<string>, outcomes: seq<Outcome>, i: nat, n: nat)
    requires |ids| == |outcomes| && Error !in outcomes && i < n <= |ids| && AllWords(ids)
    requires forall j :: i < j < n ==> !Covers(ids, j, i)
    ensures LastMention(ReportWords(ids, outcomes)[..n], ids[i]) == Some(outcomes[i])
  {
    LastLine(ids, outcomes, i, n);
    if i < n - 1 {
      OwnLineDecides(ids, outcomes, i, n - 1);
    }
  }

  /** With one, some later line does. */
  lemma {:induction false} LaterLineDecides(ids: seq<string>, outcomes: seq<Outcome>, i: nat, j: nat, n: nat)
    requires |ids| == |outcomes| && Error !in outcomes && i < j < n <= |ids| && AllWords(ids)
    requires Covers(ids, j, i) && forall k :: i < k < |ids| ==> outcomes[k] == Failed
    ensures LastMention(ReportWords(ids, outcomes)[..n], ids[i]) == Some(Failed)
  {
    LastLine(ids, outcomes, i, n);
    if j < n - 1 {
      LaterLineDecides(ids, outcomes, i, j, n - 1);
    }
  }

  /** What is read of a report is what its lines say. */
  lemma ReportIsRead(ids: seq<string>, outcomes: seq<Outcome>)
    requires |ids| == |outcomes| && Error !in outcomes && AllWords(ids)
    ensures Read(Ended(Report(ids, outcomes))).lines == ReportWords(ids, outcomes)
    ensures ReportWords(ids, outcomes)[..|ids|] == ReportWords(ids, outcomes)
  {
    var lines := Report(ids, outcomes);
    forall k | 0 <= k < |lines|
      ensures IsLine(lines[k]) && WordsPerLine(lines)[k] == ReportWords(ids, outcomes)[k]
    {
      ReportLineRead(ids[k], outcomes[k]);
    }
    LinesOfEnded(lines);
  }

  /** Every test of the report gets the outcome on its line. */
  ghost predicate ReadBack(ids: seq<string>, outcomes: seq<Outcome>)
    requires |ids| == |outcomes| && Error !in outcomes
  {
    forall i :: 0 <= i < |ids| ==> Verdict(Read(Ended(Report(ids, outcomes))), ids[i]) == outcomes[i]
  }

  ghost predicate NoLaterCover(ids: seq<string>) {
    forall i, j :: 0 <= i < j < |ids| ==> !Covers(ids, j, i)
  }

  lemma NoCoverReadsBack(ids: seq<string>, outcomes: seq<Outcome>)
    requires |ids| == |outcomes| && Error !in outcomes && AllWords(ids) && NoLaterCover(ids)
    ensures ReadBack(ids, outcomes)
  {
    ReportIsRead(ids, outcomes);
    forall i | 0 <= i < |ids|
      ensures Verdict(Read(Ended(Report(ids, outcomes))), ids[i]) == outcomes[i]
    {
      OwnLineDecides(ids, outcomes, i, |ids|);
    }
  }

  /** Test `i` passes and all others fail. */
  function OnePass(n: nat, i: nat): (outcomes: seq<Outcome>)
    ensures |outcomes| == n && Error !in outcomes
  {
    seq(n, k => if k == i then Passed else Failed)
  }

  lemma CoverMisreads(ids: seq<string>, i: nat, j: nat)
    requires AllWords(ids) && i < j < |ids| && Covers(ids, j, i)
    ensures !ReadBack(ids, OnePass(|ids|, i))
  {
    var outcomes := OnePass(|ids|, i);
    ReportIsRead(ids, outcomes);
    LaterLineDecides(ids, outcomes, i, j, |ids|);
    assert Verdict(Read(Ended(Report(ids, outcomes))), ids[i]) == Failed;
  }

  /**
   A report with one status line per test is read back, whatever the outcomes, exactly when no line
   repeats an earlier id or ends in it after its last `::`.
   */
  lemma ReadBackExactly(ids: seq<string>)
    requires AllWords(ids)
    ensures (forall outcomes :: |outcomes| == |ids| && Error !in outcomes ==> ReadBack(ids, outcomes))
            <==> NoLaterCover(ids)
  {
    if NoLaterCover(ids) {
      forall outcomes | |outcomes| == |ids| && Error !in outcomes
        ensures ReadBack(ids, outcomes)
      {
        NoCoverReadsBack(ids, outcomes);
      }
    } else {
      var i, j :| 0 <= i < j < |ids| && Covers(ids, j, i);
      CoverMisreads(ids, i, j);
    }
  }

  // ----- Ids with white space, and errors

  predicate HasSpace(s: string) {
    exists i :: 0 <= i < |s| && IsSpace(s[i])
  }

  lemma {:induction false} WordsHaveNoSpace(s: string)
    ensures forall w :: w in Words(s) ==> !HasSpace(w)
    decreases |s|
  {
    if s != [] {
      if IsSpace(s[0]) {
        WordsHaveNoSpace(s[1..]);
      } else {
        PrefixIs(s, false);
        WordsHaveNoSpace(s[Prefix(s, false)..]);
      }
    }
  }

  lemma {:induction false} TailHasNoSpace(s: string)
    requires !HasSpace(s)
    ensures AfterLast(s).Some? ==> !HasSpace(AfterLast(s).value)
  {
    if |s| >= 2 {
      forall i | 0 <= i < |s| - 1
        ensures !IsSpace(s[1..][i])
      {
        assert s[1..][i] == s[i + 1];
      }
      TailHasNoSpace(s[1..]);
      if s[..2] == "::" {
        forall i | 0 <= i < |s| - 2
          ensures !IsSpace(s[2..][i])
        {
          assert s[2..][i] == s[i + 2];
        }
      }
    }
  }

  lemma {:induction false} SpacedKeyUnmentioned(lines: seq<seq<string>>, key: string)
    requires forall k, w :: 0 <= k < |lines| && w in lines[k] ==> !HasSpace(w)
    requires HasSpace(key)
    ensures LastMention(lines, key).None?
  {
    if lines != [] {
      var words := lines[|lines| - 1];
      if words != [] {
        assert words[0] in words;
        TailHasNoSpace(words[0]);
      }
      SpacedKeyUnmentioned(lines[..|lines| - 1], key);
    }
  }

  /**
   A test with white space in its id, and in what follows the first `::` of it, is never found in the
   output: whatever its line says, it gets what the summary suggests.
   */
  lemma SpacedIdFallsBack(text: string, id: string)
    requires HasSpace(id) && (AfterFirst(id).Some? ==> HasSpace(AfterFirst(id).value))
    ensures Verdict(Read(text), id) == Fallback(Read(text))
  {
    var lines := Read(text).lines;
    forall k, w | 0 <= k < |lines| && w in lines[k]
      ensures !HasSpace(w)
    {
      WordsHaveNoSpace(Lines(text)[k]);
    }
    SpacedKeyUnmentioned(lines, id);
    if AfterFirst(id).Some? {
      SpacedKeyUnmentioned(lines, AfterFirst(id).value);
    }
  }

  lemma OccurrenceHas(s: string, pat: string, i: nat, c: char)
    requires i <= |s| && pat <= s[i..] && c in pat
    ensures c in s
  {
    var k :| 0 <= k < |pat| && pat[k] == c;
    assert s[i..][k] == c && s[i + k] in s;
  }

  /** A pattern with a character that the text does not have is not in it. */
  lemma ContainsNeeds(s: string, pat: string, c: char)
    requires c in pat && c !in s
    ensures !Contains(s, pat)
  {
    FindIsOccurrence(s, pat);
    if Find(s, pat).Some? {
      OccurrenceHas(s, pat, Find(s, pat).value, c);
    }
  }

  lemma OccurrenceAt(a: string, c: char, b: string, pat: string, k: nat, i: nat)
    requires k < |pat| && pat[k] == c && c !in a && c !in b
    requires i <= |a + [c] + b| && pat <= (a + [c] + b)[i..]
    ensures i + k == |a| && pat[k + 1..] <= b
  {
    var s := a + [c] + b;
    assert s[i..][k] == s[i + k] == c;
    OnlyPlace(a, c, b, i + k);
    assert s[i..][k + 1..] == b;
    assert pat[k + 1..] == s[i..][..|pat|][k + 1..] == b[..|pat| - k - 1];
  }

  lemma OnlyPlace(a: string, c: char, b: string, i: nat)
    requires c !in a && c !in b && i < |a + [c] + b| && (a + [c] + b)[i] == c
    ensures i == |a|
  {
    assert forall j :: 0 <= j < |a| ==> a[j] in a;
    assert forall j :: 0 <= j < |b| ==> b[j] in b;
  }

  /** Nor is one for which the only `c` of the text has the wrong characters after it. */
  lemma ContainsNeedsAt(a: string, c: char, b: string, pat: string, k: nat)
    requires k < |pat| && pat[k] == c && c !in a && c !in b && !(pat[k + 1..] <= b)
    ensures !Contains(a + [c] + b, pat)
  {
    FindIsOccurrence(a + [c] + b, pat);
    if Find(a + [c] + b, pat).Some? {
      OccurrenceAt(a, c, b, pat, k, Find(a + [c] + b, pat).value);
    }
  }

  lemma FirstColons(c: char, name: string)
    requires c != ':'
    ensures AfterFirst([c] + ("::" + name)) == Some(name)
  {
    var s := [c] + ("::" + name);
    assert s[..2][0] == c && s[1..] == "::" + name;
    assert s[1..][..2] == "::" && s[1..][2..] == name;
  }

  const SPACED_ID := "m" + ("::" + "t[a b]")
  const BEFORE_F := SPACED_ID + " FAILED\n" + ("m::u PASSED\n" + "1 ")
  const AFTER_F := "ailed, 1" + " passed in" + " 0.01s\n"

  /** The output `m::t[a b] FAILED`, `m::u PASSED`, `1 failed, 1 passed in 0.01s`. */
  const SPACED_REPORT := BEFORE_F + ['f'] + AFTER_F

  /** A failing test with a blank in its id is read as passed. */
  lemma SpacedIdExample()
    ensures Verdict(Read(SPACED_REPORT), SPACED_ID) == Passed
  {
    FirstColons('m', "t[a b]");
    assert IsSpace("t[a b]"[3]) && IsSpace(SPACED_ID[6]);
    SpacedIdFallsBack(SPACED_REPORT, SPACED_ID);
    SummaryFailed();
    SummaryPassed();
  }

  lemma SummaryFailed()
    ensures !SummaryHas(SPACED_REPORT, "failed")
  {
    NoOtherF();
    var bracket, word := " " + "failed" + "]", " " + "failed" + " in";
    assert bracket[1] == 'f' && word[1] == 'f';
    assert AFTER_F[5] == ',' && bracket[2..][5] == ']' && word[2..][5] == ' ';
    ContainsNeedsAt(BEFORE_F, 'f', AFTER_F, bracket, 1);
    ContainsNeedsAt(BEFORE_F, 'f', AFTER_F, word, 1);
  }

  lemma NoOtherF()
    ensures 'f' !in BEFORE_F && 'f' !in AFTER_F
  {
    assert 'f' !in SPACED_ID && 'f' !in " FAILED\n" && 'f' !in "m::u PASSED\n" && 'f' !in "1 ";
    assert 'f' !in "ailed, 1" && 'f' !in " passed in" && 'f' !in " 0.01s\n";
  }

  lemma SummaryPassed()
    ensures SummaryHas(SPACED_REPORT, "passed")
  {
    var pat := " " + "passed" + " in";
    assert pat == " passed in";
    ContainsPart(BEFORE_F + ['f'] + "ailed, 1", pat, " 0.01s\n");
    assert SPACED_REPORT == BEFORE_F + ['f'] + "ailed, 1" + pat + " 0.01s\n";
  }

  const ERROR_LINE := "m::t" + (" " + "ERROR")
  const COUNT_LINE := "1" + (" " + ("error" + (" " + ("in" + (" " + "0.01s")))))

  /** The output of a run in which the setup of the only test fails: `m::t ERROR`, `1 error in 0.01s`. */
  const ERROR_REPORT := ERROR_LINE + ("\n" + (COUNT_LINE + ("\n" + "")))

  /** That test is read as passed: no ERROR line is ever read, and `1 error in` is not looked for. */
  lemma ErrorExample()
    ensures Verdict(Read(ERROR_REPORT), "m::t") == Passed
  {
    NothingMentioned("m::t");
    if AfterFirst("m::t").Some? {
      NothingMentioned(AfterFirst("m::t").value);
    }
    NoPassesOrFailures();
    NoSkipsOrErrors();
  }

  lemma ErrorLineWords()
    ensures Words(ERROR_LINE) == ["m::t", "ERROR"] && IsLine(ERROR_LINE)
  {
    var p := More("m::t", " ", Word("ERROR"));
    assert IsPhrase(p) && NoLineFeeds(p) && Text(p) == ERROR_LINE;
    WordsOfText(p);
    PhraseIsLine(p);
    assert PhraseWords(p) == ["m::t"] + ["ERROR"] == ["m::t", "ERROR"];
  }

  lemma CountLineWords()
    ensures Words(COUNT_LINE) == ["1", "error", "in", "0.01s"] && IsLine(COUNT_LINE)
  {
    var p := More("in", " ", Word("0.01s"));
    var q := More("1", " ", More("error", " ", p));
    assert IsPhrase(p) && IsPhrase(q) && NoLineFeeds(q) && Text(q) == COUNT_LINE;
    WordsOfText(q);
    PhraseIsLine(q);
    assert PhraseWords(p) == ["in"] + ["0.01s"];
    assert PhraseWords(q) == ["1"] + (["error"] + PhraseWords(p)) == ["1", "error", "in", "0.01s"];
  }

  lemma ErrorLinesRead()
    ensures Lines(ERROR_REPORT) == [ERROR_LINE, COUNT_LINE]
  {
    ErrorLineWords();
    CountLineWords();
    LineFirst(ERROR_LINE, COUNT_LINE + ("\n" + ""));
    LineFirst(COUNT_LINE, "");
  }

  predicate NoLineFeeds(p: Phrase) {
    match p case Word(_) => true case More(_, g, r) => '\n' !in g && NoLineFeeds(r)
  }

  lemma {:induction false} PhraseIsLine(p: Phrase)
    requires IsPhrase(p) && NoLineFeeds(p)
    ensures IsLine(Text(p))
  {
    TextEnds(p);
    assert IsSpace('\n') && IsSpace('\r');
    if p.More? {
      PhraseIsLine(p.rest);
    }
  }

  /** A word is no status when it starts with none of the letters that a status starts with. */
  lemma NoStatus(w: string)
    requires w != [] && w[0] != 'P' && w[0] != 'F' && w[0] != 'S' && w[0] != 'X'
    ensures StatusWord(w).None?
  {
    assert "PASSED"[0] == 'P' && "FAILED"[0] == 'F' && "SKIPPED"[0] == 'S' && "XFAIL"[0] == 'X' && "XPASS"[0] == 'X';
  }

  lemma {:induction false} NoStatuses(words: seq<string>)
    requires forall k :: 0 <= k < |words| ==> StatusWord(words[k]).None?
    ensures FirstStatus(words).None?
  {
    if words != [] {
      NoStatuses(words[1..]);
    }
  }

  lemma {:induction false} NoStatusNoMention(lines: seq<seq<string>>, key: string)
    requires forall k :: 0 <= k < |lines| ==> LineOutcome(lines[k]).None?
    ensures LastMention(lines, key).None?
  {
    if lines != [] {
      NoStatusNoMention(lines[..|lines| - 1], key);
    }
  }

  lemma NothingMentioned(key: string)
    ensures LastMention(Read(ERROR_REPORT).lines, key).None?
  {
    ErrorLinesRead();
    NoOutcome();
    NoStatusNoMention(Read(ERROR_REPORT).lines, key);
  }

  lemma NoOutcome()
    ensures LineOutcome(Words(ERROR_LINE)).None? && LineOutcome(Words(COUNT_LINE)).None?
  {
    ErrorLineWords();
    CountLineWords();
    NoStatus("ERROR");
    NoStatus("error");
    NoStatus("in");
    NoStatus("0.01s");
    NoStatuses(Words(ERROR_LINE)[1..]);
    NoStatuses(Words(COUNT_LINE)[1..]);
  }

  lemma NoPassesOrFailures()
    ensures !SummaryHas(ERROR_REPORT, "passed") && !SummaryHas(ERROR_REPORT, "failed")
  {
    assert forall c :: c in {'p', 'f'} ==> c !in ERROR_LINE && c !in COUNT_LINE;
    ContainsNeeds(ERROR_REPORT, " " + "passed" + "]", 'p');
    ContainsNeeds(ERROR_REPORT, " " + "passed" + " in", 'p');
    ContainsNeeds(ERROR_REPORT, " " + "failed" + "]", 'f');
    ContainsNeeds(ERROR_REPORT, " " + "failed" + " in", 'f');
  }

  lemma NoSkipsOrErrors()
    ensures !SummaryHas(ERROR_REPORT, "skipped")
    ensures !Contains(ERROR_REPORT, " error]") && !Contains(ERROR_REPORT, " errors in")
  {
    assert forall c :: c in {'k', ']'} ==> c !in ERROR_LINE && c !in COUNT_LINE;
    ContainsNeeds(ERROR_REPORT, " " + "skipped" + "]", 'k');
    ContainsNeeds(ERROR_REPORT, " " + "skipped" + " in", 'k');
    ContainsNeeds(ERROR_REPORT, " error]", ']');
    NoErrors();
  }

  lemma NoErrors()
    ensures !Contains(ERROR_REPORT, " errors in")
  {
    OnlyOneS();
    assert " errors in"[6] == 's' && " errors in"[7..] == " in";
    ContainsNeedsAt(ERROR_START, 's', "\n", " errors in", 6);
  }

  const COUNT_START := "1" + (" " + ("error" + (" " + ("in" + (" " + "0.01")))))
  const ERROR_START := ERROR_LINE + ("\n" + COUNT_START)

  lemma OnlyOneS()
    ensures ERROR_REPORT == ERROR_START + ['s'] + "\n" && 's' !in ERROR_START
  {
    assert 's' !in ERROR_LINE && 's' !in COUNT_START;
    assert COUNT_LINE == COUNT_START + ['s'];
  }
}
