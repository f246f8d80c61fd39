/** Splitting an option string into words, with quotes and escapes (crates/rpytest/src/config/loader.rs). */
module ShellWords {
  import opened Seqs

  datatype Result = Ok(words: seq<string>) | Err

  /** The local variables of the loop. */
  datatype Lexer = Lexer(words: seq<string>, current: string, single: bool, double: bool, escape: bool)

  const START := Lexer([], "", false, false, false)

  function Step(l: Lexer, c: char): Lexer {
    if l.escape then l.(current := l.current + [c], escape := false)
    else if c == '\\' && !l.single then l.(escape := true)
    else if c == '\'' && !l.double then l.(single := !l.single)
    else if c == '"' && !l.single then l.(double := !l.double)
    else if (c == ' ' || c == '\t' || c == '\n') && !l.single && !l.double then
      if l.current != "" then l.(words := l.words + [l.current], current := "") else l
    else l.(current := l.current + [c])
  }

  function Run(l: Lexer, s: string): Lexer
    decreases |s|
  {
    if s == "" then l else Run(Step(l, s[0]), s[1..])
  }

  function Finish(l: Lexer): Result {
    if l.single || l.double then Err
    else Ok(l.words + (if l.current != "" then [l.current] else []))
  }

  function Split(s: string): Result {
    Finish(Run(START, s))
  }

  /** The source's loop over the characters. */
  method SplitWords(s: string) returns (r: Result)
    ensures r == Split(s)
  {
    var words: seq<string>, current := [], "";
    var inSingle, inDouble, escapeNext := false, false, false;
    for i := 0 to |s|
      invariant Run(Lexer(words, current, inSingle, inDouble, escapeNext), s[i..]) == Run(START, s)
    {
      var c := s[i];
      assert s[i..][0] == c && s[i..][1..] == s[i + 1..];
      if escapeNext {
        current := current + [c];
        escapeNext := false;
        continue;
      }
      if c == '\\' && !inSingle {
        escapeNext := true;
      } else if c == '\'' && !inDouble {
        inSingle := !inSingle;
      } else if c == '"' && !inSingle {
        inDouble := !inDouble;
      } else if (c == ' ' || c == '\t' || c == '\n') && !inSingle && !inDouble {
        if current != "" {
          words := words + [current];
          current := "";
        }
      } else {
        current := current + [c];
      }
    }
    if inSingle || inDouble {
      return Err;
    }
    if current != "" {
      words := words + [current];
    }
    r := Ok(words);
  }

  lemma {:induction false} RunConcat(l: Lexer, s: string, t: string)
    ensures Run(l, s + t) == Run(Run(l, s), t)
    decreases |s|
  {
    if s == "" {
      assert s + t == t;
    } else {
      assert (s + t)[0] == s[0] && (s + t)[1..] == s[1..] + t;
      RunConcat(Step(l, s[0]), s[1..], t);
    }
  }

  /** Words already found do not influence the rest. */
  lemma {:induction false} RunKeepsWords(ws: seq<string>, l: Lexer, s: string)
    ensures Run(l.(words := ws + l.words), s) == Run(l, s).(words := ws + Run(l, s).words)
    decreases |s|
  {
    if s != "" {
      var l1 := Step(l, s[0]);
      assert Step(l.(words := ws + l.words), s[0]) == l1.(words := ws + l1.words) by {
        assert ws + (l.words + [l.current]) == ws + l.words + [l.current];
      }
      RunKeepsWords(ws, l1, s[1..]);
    }
  }

  // ----- Concatenation

  /** The text ends outside quotes and without a dangling backslash. */
  predicate EndsClean(s: string) {
    var l := Run(START, s);
    !l.single && !l.double && !l.escape
  }

  function Append(a: Result, b: Result): Result {
    if a.Err? || b.Err? then Err else Ok(a.words + b.words)
  }

  lemma SplitAfterClean(s: string, t: string)
    requires EndsClean(s)
    ensures Split(s + " " + t) == Append(Split(s), Split(t))
  {
    var l := Run(START, s);
    var words := l.words + (if l.current != "" then [l.current] else []);
    RunConcat(START, s + " ", t);
    RunConcat(START, s, " ");
    assert Run(l, " ") == Step(l, ' ') by { assert " "[1..] == ""; }
    assert Step(l, ' ') == START.(words := words + START.words);
    RunKeepsWords(words, START, t);
    var r := Run(START, t);
    assert words + (r.words + [r.current]) == words + r.words + [r.current];
  }

  /** A space separates two texts, whatever the second one is, exactly when the first ends clean. */
  lemma SpaceSeparatesExactly(s: string)
    ensures (forall t :: Split(s + " " + t) == Append(Split(s), Split(t))) <==> EndsClean(s)
  {
    if EndsClean(s) {
      forall t {
        SplitAfterClean(s, t);
      }
    } else {
      var l := Run(START, s);
      var t := if l.single then "'" else if l.double then "\"" else "";
      RunConcat(START, s + " ", t);
      RunConcat(START, s, " ");
      var l1 := Step(l, ' ');
      assert Run(l, " ") == l1 by { assert " "[1..] == ""; }
      FlagsExclusive(START, s);
      if t != "" {
        assert Run(l1, t) == Step(l1, t[0]) by { assert t[1..] == ""; }
        assert Split(s).Err? && Split(s + " " + t).Ok?;
      } else {
        assert Run(START, "") == START && Split("") == Ok([]);
        assert Split(s + " " + t) == Ok(l.words + [l.current + " "]);
        var a, b := l.words + [l.current + " "], Append(Split(s), Split("")).words;
        assert b == l.words + (if l.current != "" then [l.current] else []);
        if |a| == |b| {
          assert a[|l.words|] == l.current + " " && b[|l.words|] == l.current;
        }
      }
      assert Split(s + " " + t) != Append(Split(s), Split(t));
    }
  }

  /** The two quote flags are never set together, and no escape is pending inside single quotes. */
  lemma {:induction false} FlagsExclusive(l: Lexer, s: string)
    requires !(l.single && l.double) && !(l.single && l.escape)
    ensures !(Run(l, s).single && Run(l, s).double) && !(Run(l, s).single && Run(l, s).escape)
    decreases |s|
  {
    if s != "" {
      FlagsExclusive(Step(l, s[0]), s[1..]);
    }
  }

  // ----- Quoting

  function Escape(w: string): string {
    if w == "" then ""
    else (if w[0] == '"' || w[0] == '\\' then ['\\', w[0]] else [w[0]]) + Escape(w[1..])
  }

  function Quote(w: string): string {
    "\"" + Escape(w) + "\""
  }

  function QuoteAll(ws: seq<string>): string {
    if ws == [] then "" else if |ws| == 1 then Quote(ws[0]) else Quote(ws[0]) + " " + QuoteAll(ws[1..])
  }

  function NonEmpty(ws: seq<string>): seq<string> {
    if ws == [] then [] else (if ws[0] == "" then [] else [ws[0]]) + NonEmpty(ws[1..])
  }

  lemma {:induction false} RunEscaped(l: Lexer, w: string)
    requires l.double && !l.single && !l.escape
    ensures Run(l, Escape(w)) == l.(current := l.current + w)
    decreases |w|
  {
    if w == "" {
      assert l.current + w == l.current;
    } else {
      var head := if w[0] == '"' || w[0] == '\\' then ['\\', w[0]] else [w[0]];
      RunConcat(l, head, Escape(w[1..]));
      var l1 := l.(current := l.current + [w[0]]);
      assert Run(l, head) == l1 by {
        if w[0] == '"' || w[0] == '\\' {
          assert head[1..] == [w[0]] && [w[0]][1..] == "";
          assert Run(l, head) == Run(l.(escape := true), [w[0]]) == Run(l1, "");
        } else {
          assert head[1..] == "";
        }
      }
      RunEscaped(l1, w[1..]);
      assert l.current + [w[0]] + w[1..] == l.current + w;
    }
  }

  lemma RunQuoted(w: string)
    ensures Run(START, Quote(w)) == START.(current := w)
  {
    var l1 := START.(double := true);
    assert Quote(w) == "\"" + (Escape(w) + "\"");
    RunConcat(START, "\"", Escape(w) + "\"");
    assert Run(START, "\"") == l1 by { assert "\""[1..] == ""; }
    RunConcat(l1, Escape(w), "\"");
    RunEscaped(l1, w);
    assert "" + w == w;
    var l2 := l1.(current := w);
    assert Run(l2, "\"") == Step(l2, '"') by { assert "\""[1..] == ""; }
  }

  /** Quoting every word and splitting returns the words, except that empty words are lost. */
  lemma {:induction false} SplitUndoesQuoting(ws: seq<string>)
    ensures Split(QuoteAll(ws)) == Ok(NonEmpty(ws))
  {
    if |ws| == 1 {
      RunQuoted(ws[0]);
      assert NonEmpty(ws[1..]) == [];
    } else if |ws| > 1 {
      RunQuoted(ws[0]);
      SplitUndoesQuoting(ws[1..]);
      SplitAfterClean(Quote(ws[0]), QuoteAll(ws[1..]));
    }
  }

  lemma {:induction false} NonEmptyAtMost(ws: seq<string>)
    ensures |NonEmpty(ws)| <= |ws|
    ensures "" !in NonEmpty(ws)
    ensures "" !in ws ==> NonEmpty(ws) == ws
  {
    if ws != [] {
      NonEmptyAtMost(ws[1..]);
    }
  }

  /** So the round trip is exact for exactly the lists without empty words. */
  lemma RoundTripExactly(ws: seq<string>)
    ensures Split(QuoteAll(ws)) == Ok(ws) <==> "" !in ws
  {
    SplitUndoesQuoting(ws);
    NonEmptyAtMost(ws);
  }

  // ----- Any way of writing words

  /** A piece of a word: as it is, in single or double quotes, or with a backslash before every character. */
  datatype Segment = Bare(text: string) | Single(text: string) | Double(text: string) | Escaped(text: string)

  predicate IsSeparator(c: char) {
    c == ' ' || c == '\t' || c == '\n'
  }

  predicate IsBare(c: char) {
    !IsSeparator(c) && c != '\\' && c != '\'' && c != '"'
  }

  /** Bare text has no special characters, and single quotes hold anything but a single quote. */
  predicate Fits(g: Segment) {
    match g
    case Bare(t) => forall c :: c in t ==> IsBare(c)
    case Single(t) => '\'' !in t
    case Double(_) => true
    case Escaped(_) => true
  }

  function Backslashed(t: string): string {
    if t == "" then "" else ['\\', t[0]] + Backslashed(t[1..])
  }

  function Written(g: Segment): string {
    match g
    case Bare(t) => t
    case Single(t) => "'" + (t + "'")
    case Double(t) => "\"" + (Escape(t) + "\"")
    case Escaped(t) => Backslashed(t)
  }

  predicate Outside(l: Lexer) {
    !l.single && !l.double && !l.escape
  }

  lemma RunOne(l: Lexer, c: char)
    ensures Run(l, [c]) == Step(l, c)
  {
    assert [c][1..] == "";
  }

  lemma {:induction false} RunBare(l: Lexer, t: string)
    requires Outside(l) && forall c :: c in t ==> IsBare(c)
    ensures Run(l, t) == l.(current := l.current + t)
    decreases |t|
  {
    if t == "" {
      assert l.current + t == l.current;
    } else {
      assert t[0] in t;
      RunBare(l.(current := l.current + [t[0]]), t[1..]);
      assert l.current + [t[0]] + t[1..] == l.current + t;
    }
  }

  lemma {:induction false} RunInSingle(l: Lexer, t: string)
    requires l.single && !l.double && !l.escape && '\'' !in t
    ensures Run(l, t) == l.(current := l.current + t)
    decreases |t|
  {
    if t == "" {
      assert l.current + t == l.current;
    } else {
      assert t[0] in t;
      RunInSingle(l.(current := l.current + [t[0]]), t[1..]);
      assert l.current + [t[0]] + t[1..] == l.current + t;
    }
  }

  lemma {:induction false} RunBackslashed(l: Lexer, t: string)
    requires Outside(l)
    ensures Run(l, Backslashed(t)) == l.(current := l.current + t)
    decreases |t|
  {
    if t == "" {
      assert l.current + t == l.current;
    } else {
      var l1 := l.(current := l.current + [t[0]]);
      RunConcat(l, ['\\', t[0]], Backslashed(t[1..]));
      RunOne(l.(escape := true), t[0]);
      assert ['\\', t[0]][1..] == [t[0]];
      RunBackslashed(l1, t[1..]);
      assert l.current + [t[0]] + t[1..] == l.current + t;
    }
  }

  /** Between two equal quotes, whatever `body` adds. */
  lemma RunBetween(l: Lexer, quote: char, body: string, t: string)
    requires Outside(l) && (quote == '\'' || quote == '"')
    requires var inside := if quote == '"' then l.(double := true) else l.(single := true);
             Run(inside, body) == inside.(current := l.current + t)
    ensures Run(l, [quote] + (body + [quote])) == l.(current := l.current + t)
  {
    var inside := if quote == '"' then l.(double := true) else l.(single := true);
    RunConcat(l, [quote], body + [quote]);
    RunOne(l, quote);
    RunConcat(inside, body, [quote]);
    RunOne(inside.(current := l.current + t), quote);
  }

  /** Every way of writing a piece adds just its text to the current word. */
  lemma RunSegment(l: Lexer, g: Segment)
    requires Outside(l) && Fits(g)
    ensures Run(l, Written(g)) == l.(current := l.current + g.text)
  {
    match g
    case Bare(t) => RunBare(l, t);
    case Single(t) =>
      RunInSingle(l.(single := true), t);
      RunBetween(l, '\'', t, t);
    case Double(t) =>
      RunEscaped(l.(double := true), t);
      RunBetween(l, '"', Escape(t), t);
    case Escaped(t) => RunBackslashed(l, t);
  }

  function WordText(gs: seq<Segment>): string {
    if gs == [] then "" else Written(gs[0]) + WordText(gs[1..])
  }

  function WordOf(gs: seq<Segment>): string {
    if gs == [] then "" else gs[0].text + WordOf(gs[1..])
  }

  predicate AllFit(gs: seq<Segment>) {
    forall k :: 0 <= k < |gs| ==> Fits(gs[k])
  }

  lemma {:induction false} RunWord(l: Lexer, gs: seq<Segment>)
    requires Outside(l) && AllFit(gs)
    ensures Run(l, WordText(gs)) == l.(current := l.current + WordOf(gs))
    decreases |gs|
  {
    if gs == [] {
      assert l.current + "" == l.current;
    } else {
      RunConcat(l, Written(gs[0]), WordText(gs[1..]));
      RunSegment(l, gs[0]);
      RunWord(l.(current := l.current + gs[0].text), gs[1..]);
      Associate(l.current, gs[0].text, WordOf(gs[1..]));
    }
  }

  predicate AllSeparators(s: string) {
    forall c :: c in s ==> IsSeparator(c)
  }

  function Flushed(l: Lexer): Lexer {
    l.(words := l.words + (if l.current != "" then [l.current] else []), current := "")
  }

  lemma {:induction false} RunSeparators(l: Lexer, s: string)
    requires Outside(l) && AllSeparators(s) && (s == "" ==> l.current == "")
    ensures Run(l, s) == Flushed(l)
    decreases |s|
  {
    if s != "" {
      assert s[0] in s;
      assert Step(l, s[0]) == Flushed(l);
      forall c | c in s[1..]
        ensures IsSeparator(c)
      {
        assert c in s;
      }
      RunSeparators(Flushed(l), s[1..]);
    }
  }

  /** A word and the separators before it. */
  datatype Item = Item(before: string, word: seq<Segment>)

  /** Every word but the first needs a separator before it. */
  predicate WellWritten(items: seq<Item>) {
    forall k :: 0 <= k < |items| ==>
                  AllSeparators(items[k].before) && AllFit(items[k].word) && (k > 0 ==> items[k].before != "")
  }

  function LineText(items: seq<Item>): string {
    if items == [] then "" else items[0].before + (WordText(items[0].word) + LineText(items[1..]))
  }

  function WordsOf(items: seq<Item>): seq<string> {
    if items == [] then [] else [WordOf(items[0].word)] + WordsOf(items[1..])
  }

  lemma {:induction false} RunLine(l: Lexer, items: seq<Item>, trail: string)
    requires Outside(l) && WellWritten(items) && AllSeparators(trail)
    requires items != [] && items[0].before == "" ==> l.current == ""
    ensures Finish(Run(l, LineText(items) + trail)) == Ok(Flushed(l).words + NonEmpty(WordsOf(items)))
    decreases |items|
  {
    if items == [] {
      assert LineText(items) + trail == trail;
      if trail != "" {
        RunSeparators(l, trail);
      }
    } else {
      var rest := LineText(items[1..]) + trail;
      RunItem(l, items[0], rest);
      TailText(items, trail);
      RunLine(Flushed(l).(current := WordOf(items[0].word)), items[1..], trail);
      FlushedWords(Flushed(l).words, WordOf(items[0].word), WordsOf(items[1..]));
    }
  }

  lemma TailText(items: seq<Item>, trail: string)
    requires items != []
    ensures LineText(items) + trail
            == items[0].before + (WordText(items[0].word) + (LineText(items[1..]) + trail))
  {
  }

  lemma RunItem(l: Lexer, item: Item, rest: string)
    requires Outside(l) && AllSeparators(item.before) && AllFit(item.word)
    requires item.before == "" ==> l.current == ""
    ensures Run(l, item.before + (WordText(item.word) + rest))
            == Run(Flushed(l).(current := WordOf(item.word)), rest)
  {
    RunConcat(l, item.before, WordText(item.word) + rest);
    RunSeparators(l, item.before);
    RunConcat(Flushed(l), WordText(item.word), rest);
    RunWord(Flushed(l), item.word);
    assert "" + WordOf(item.word) == WordOf(item.word);
  }

  lemma FlushedWords(words: seq<string>, w: string, ws: seq<string>)
    ensures words + (if w != "" then [w] else []) + NonEmpty(ws) == words + NonEmpty([w] + ws)
  {
    assert ([w] + ws)[1..] == ws;
  }

  /**
   However words are written, bare, quoted, escaped or mixed, and whatever blanks, tabs and line feeds
   stand before, between and after them, splitting returns the words that are not empty.
   */
  lemma SplitUndoesWriting(items: seq<Item>, trail: string)
    requires WellWritten(items) && AllSeparators(trail)
    ensures Split(LineText(items) + trail) == Ok(NonEmpty(WordsOf(items)))
  {
    RunLine(START, items, trail);
    assert [] + NonEmpty(WordsOf(items)) == NonEmpty(WordsOf(items));
  }

  /** After such a line a quote that is not closed is an error, and a backslash at the end is dropped. */
  lemma UnclosedQuote(items: seq<Item>, t: string)
    requires WellWritten(items)
    ensures '\'' !in t ==> Split(LineText(items) + ("'" + t)).Err?
    ensures Split(LineText(items) + ("\"" + Escape(t))).Err?
    ensures Split(LineText(items) + "\\") == Split(LineText(items))
  {
    var l := Run(START, LineText(items));
    LineEndsOutside(START, items);
    RunConcat(START, LineText(items), "'" + t);
    RunConcat(l, "'", t);
    RunOne(l, '\'');
    if '\'' !in t {
      RunInSingle(l.(single := true), t);
    }
    RunConcat(START, LineText(items), "\"" + Escape(t));
    RunConcat(l, "\"", Escape(t));
    RunOne(l, '"');
    RunEscaped(l.(double := true), t);
    RunConcat(START, LineText(items), "\\");
    RunOne(l, '\\');
  }

  lemma {:induction false} LineEndsOutside(l: Lexer, items: seq<Item>)
    requires Outside(l) && WellWritten(items) && (items != [] && items[0].before == "" ==> l.current == "")
    ensures Outside(Run(l, LineText(items)))
    decreases |items|
  {
    if items != [] {
      var item, rest := items[0], items[1..];
      RunConcat(l, item.before, WordText(item.word) + LineText(rest));
      RunSeparators(l, item.before);
      RunConcat(Flushed(l), WordText(item.word), LineText(rest));
      RunWord(Flushed(l), item.word);
      LineEndsOutside(Flushed(l).(current := "" + WordOf(item.word)), rest);
    }
  }
}
