/**
 The keyword (-k) and marker (-m) expression evaluator (crates/rpytest-core/src/inventory/nodes.rs).

 The evaluator works on the text: it trims, looks for a leading `not `, then for the first ` and `,
 then for the first ` or `. It is read twice: on any text whatever, as an algorithm on the words and the
 white space between them; and on printed expressions, as the value of a tree.
 */
module Expressions {
  import opened Models

  /** Unicode White_Space. */
  predicate IsSpace(c: char) {
    var n := c as int;
    9 <= n <= 13 || n == 32 || n == 0x85 || n == 0xA0 || n == 0x1680 || 0x2000 <= n <= 0x200A
    || n == 0x2028 || n == 0x2029 || n == 0x202F || n == 0x205F || n == 0x3000
  }

  function TrimStart(s: string): (r: string)
    ensures |r| <= |s|
  {
    if s != [] && IsSpace(s[0]) then TrimStart(s[1..]) else s
  }

  function TrimEnd(s: string): (r: string)
    ensures |r| <= |s|
  {
    if s != [] && IsSpace(s[|s| - 1]) then TrimEnd(s[..|s| - 1]) else s
  }

  function Trim(s: string): (r: string)
    ensures |r| <= |s|
  {
    TrimEnd(TrimStart(s))
  }

  /** Index of the first occurrence of `pat`. */
  function Find(s: string, pat: string): (r: Option<nat>)
    ensures r.Some? ==> r.value + |pat| <= |s|
  {
    if pat <= s then Some(0)
    else if s == [] then None
    else match Find(s[1..], pat) case None => None case Some(i) => Some(i + 1)
  }

  predicate Contains(s: string, part: string) {
    Find(s, part).Some?
  }

  lemma {:induction false} FindIsOccurrence(s: string, pat: string)
    ensures Find(s, pat).Some? ==> pat <= s[Find(s, pat).value..]
    ensures (exists i :: 0 <= i <= |s| && pat <= s[i..]) ==> Find(s, pat).Some?
  {
    assert s[0..] == s;
    if !(pat <= s) && s != [] {
      FindIsOccurrence(s[1..], pat);
      if i :| 0 <= i <= |s| && pat <= s[i..] {
        assert i > 0 && s[1..][i - 1..] == s[i..];
      }
      if Find(s[1..], pat).Some? {
        var j := Find(s[1..], pat).value;
        assert s[1..][j..] == s[j + 1..];
      }
    }
  }

  lemma ContainsPart(a: string, pat: string, b: string)
    ensures Contains(a + pat + b, pat)
  {
    var s := a + pat + b;
    assert s[|a|..] == pat + b;
    FindIsOccurrence(s, pat);
  }

  /** Containing means being the text, with anything before and after. */
  lemma ContainsExactly(s: string, part: string)
    ensures Contains(s, part) <==> exists a, b :: s == a + part + b
  {
    if Contains(s, part) {
      FindIsOccurrence(s, part);
      var i := Find(s, part).value;
      assert s == s[..i] + part + s[i + |part|..];
    }
    if a, b :| s == a + part + b {
      ContainsPart(a, part, b);
    }
  }

  function SplitOnce(s: string, pat: string): (r: Option<(string, string)>)
    ensures r.Some? ==> |r.value.0| + |pat| + |r.value.1| == |s|
  {
    match Find(s, pat) case None => None case Some(i) => Some((s[..i], s[i + |pat|..]))
  }

  const NOT := "not"
  const AND := "and"
  const OR := "or"

  /** What the evaluator recognises in a trimmed text. */
  datatype Shape =
    | Negation(rest: string)
    | Both(left: string, right: string)
    | Either(left: string, right: string)
    | Plain

  /** First a leading `not `, then the first ` and `, then the first ` or `. */
  function ShapeOf(text: string): (s: Shape)
    ensures s.Negation? ==> |s.rest| < |text|
    ensures s.Both? || s.Either? ==> |s.left| < |text| && |s.right| < |text|
  {
    if NOT + " " <= text then Negation(text[4..])
    else ShapeOfCuts(SplitOnce(text, " " + AND + " "), SplitOnce(text, " " + OR + " "))
  }

  function ShapeOfCuts(atAnd: Option<(string, string)>, atOr: Option<(string, string)>): Shape {
    if atAnd.Some? then Both(atAnd.value.0, atAnd.value.1)
    else if atOr.Some? then Either(atOr.value.0, atOr.value.1)
    else Plain
  }

  /** The evaluator; it terminates on every text because each part is shorter than the trimmed whole. */
  function Matches(atom: string -> bool, expr: string): bool
    decreases |Trim(expr)|
  {
    var text := Trim(expr);
    match ShapeOf(text)
    case Negation(rest) => !Matches(atom, rest)
    case Both(left, right) => Matches(atom, left) && Matches(atom, right)
    case Either(left, right) => Matches(atom, left) || Matches(atom, right)
    case Plain => atom(text)
  }

  // ----- Words and the white space between them

  predicate IsWord(w: string) {
    w != [] && forall c :: c in w ==> !IsSpace(c)
  }

  predicate IsGap(g: string) {
    g != [] && AllSpace(g)
  }

  predicate AllSpace(s: string) {
    forall c :: c in s ==> IsSpace(c)
  }

  /** Words, each but the last followed by white space. */
  datatype Phrase = Word(word: string) | More(word: string, gap: string, rest: Phrase)

  predicate IsPhrase(p: Phrase) {
    match p
    case Word(w) => IsWord(w)
    case More(w, g, r) => IsWord(w) && IsGap(g) && IsPhrase(r)
  }

  function Text(p: Phrase): string {
    match p
    case Word(w) => w
    case More(w, g, r) => w + (g + Text(r))
  }

  function Size(p: Phrase): nat {
    match p
    case Word(_) => 1
    case More(_, _, r) => 1 + Size(r)
  }

  /** Only a blank, not other white space, delimits the operators. */
  predicate StartsBlank(g: string) {
    g != [] && g[0] == ' '
  }

  predicate EndsBlank(g: string) {
    g != [] && g[|g| - 1] == ' '
  }

  /** The first word is `op`, with a blank and another word after it. */
  predicate Opens(p: Phrase, op: string) {
    p.More? && p.word == op && StartsBlank(p.gap)
  }

  /** A phrase cut at an operator, with the white space before and after the operator. */
  datatype Cut = Cut(left: Phrase, before: string, after: string, right: Phrase)

  /** The first `op` with words and blanks on both sides. */
  function FirstCut(p: Phrase, op: string): (r: Option<Cut>)
    ensures r.Some? ==> Size(r.value.left) < Size(p) && Size(r.value.right) < Size(p)
    ensures r.Some? ==> EndsBlank(r.value.before) && StartsBlank(r.value.after)
  {
    match p
    case Word(_) => None
    case More(w, g, r) =>
      if EndsBlank(g) && Opens(r, op) then Some(Cut(Word(w), g, r.gap, r.rest))
      else match FirstCut(r, op)
           case None => None
           case Some(c) => Some(c.(left := More(w, g, c.left)))
  }

  /** What the evaluator does, read as an algorithm on words. */
  function MatchPhrase(atom: string -> bool, p: Phrase): bool
    decreases Size(p)
  {
    if Opens(p, NOT) then !MatchPhrase(atom, p.rest)
    else match FirstCut(p, AND)
         case Some(c) => MatchPhrase(atom, c.left) && MatchPhrase(atom, c.right)
         case None =>
           match FirstCut(p, OR)
           case Some(c) => MatchPhrase(atom, c.left) || MatchPhrase(atom, c.right)
           case None => atom(Text(p))
  }

  // ----- Trimming

  lemma {:induction false} TextEnds(p: Phrase)
    requires IsPhrase(p)
    ensures Text(p) != [] && !IsSpace(Text(p)[0]) && !IsSpace(Text(p)[|Text(p)| - 1])
  {
    assert p.word[0] in p.word && p.word[|p.word| - 1] in p.word;
    if p.More? {
      TextEnds(p.rest);
    }
  }

  lemma {:induction false} TrimStartPadded(a: string, t: string)
    requires AllSpace(a) && t != [] && !IsSpace(t[0])
    ensures TrimStart(a + t) == t
  {
    if a == [] {
      assert a + t == t;
    } else {
      assert (a + t)[0] == a[0] && a[0] in a && (a + t)[1..] == a[1..] + t;
      TrimStartPadded(a[1..], t);
    }
  }

  lemma {:induction false} TrimEndPadded(t: string, b: string)
    requires AllSpace(b) && t != [] && !IsSpace(t[|t| - 1])
    ensures TrimEnd(t + b) == t
  {
    if b == [] {
      assert t + b == t;
    } else {
      var last := |b| - 1;
      assert (t + b)[|t| + last] == b[last] && b[last] in b && (t + b)[..|t| + last] == t + b[..last];
      TrimEndPadded(t, b[..last]);
    }
  }

  /** White space around a text is trimmed away. */
  lemma TrimPadded(a: string, p: Phrase, b: string)
    requires AllSpace(a) && IsPhrase(p) && AllSpace(b)
    ensures Trim(a + Text(p)) == Text(p) && Trim(Text(p) + b) == Text(p)
  {
    var t := Text(p);
    TextEnds(p);
    TrimStartPadded(a, t);
    TrimEndPadded(t, []);
    assert t + [] == t;
    assert (t + b)[0] == t[0];
    TrimStartPadded([], t + b);
    assert [] + (t + b) == t + b;
    TrimEndPadded(t, b);
  }

  // ----- Cutting a text at the first operator

  lemma {:induction false} FindSkipsWord(w: string, t: string, pat: string)
    requires pat != [] && IsSpace(pat[0]) && forall c :: c in w ==> !IsSpace(c)
    ensures Find(w + t, pat) == match Find(t, pat) case None => None case Some(i) => Some(|w| + i)
  {
    if w == [] {
      assert w + t == t;
    } else {
      assert (w + t)[0] == w[0] && w[0] in w;
      assert (w + t)[1..] == w[1..] + t;
      FindSkipsWord(w[1..], t, pat);
    }
  }

  lemma PrefixCons(c: char, a: string, d: char, b: string)
    ensures [c] + a <= [d] + b <==> c == d && a <= b
  {
    if [c] + a <= [d] + b {
      assert ([c] + a)[0] == ([d] + b)[0];
      assert a == ([d] + b)[1..|a| + 1] == b[..|a|];
    }
    if c == d && a <= b {
      assert [d] + b == [c] + a + b[|a|..];
    }
  }

  /** White space before a text: a blank at its end may open the pattern ` op `. */
  lemma {:induction false} FindInGap(g: string, t: string, op: string)
    requires IsGap(g) && t != [] && !IsSpace(t[0]) && IsWord(op)
    ensures Find(g + t, [' '] + (op + " "))
            == if EndsBlank(g) && op + " " <= t then Some(|g| - 1)
               else match Find(t, [' '] + (op + " ")) case None => None case Some(i) => Some(|g| + i)
  {
    var rest := g[1..];
    assert g + t == [g[0]] + (rest + t) && (g + t)[1..] == rest + t;
    PrefixCons(' ', op + " ", g[0], rest + t);
    if rest == [] {
      assert rest + t == t;
    } else {
      assert op[0] in op && g[1] in g && (rest + t)[0] == g[1] && (op + " ")[0] == op[0];
      forall c | c in rest
        ensures IsSpace(c)
      {
        assert c in g;
      }
      FindInGap(rest, t, op);
    }
  }

  lemma NoSpaceInWord(w: string, k: nat)
    requires IsWord(w) && k < |w|
    ensures !IsSpace(w[k])
  {
    assert w[k] in w;
  }

  /** A text starts with `op` and a blank exactly when `op` is its first of several words. */
  lemma StartsWithWord(op: string, p: Phrase)
    requires IsWord(op) && IsPhrase(p)
    ensures op + " " <= Text(p) <==> Opens(p, op)
  {
    if p.More? {
      assert p.gap[0] in p.gap;
      WordThenSpace(op, p.word, p.gap + Text(p.rest));
    } else if op + " " <= p.word {
      assert p.word[|op|] == (op + " ")[|op|];
      NoSpaceInWord(p.word, |op|);
    }
  }

  lemma WordThenSpace(op: string, w: string, t: string)
    requires IsWord(op) && IsWord(w) && t != [] && IsSpace(t[0])
    ensures op + " " <= w + t <==> w == op && t[0] == ' '
  {
    var s := w + t;
    if op + " " <= s {
      assert s[|op|] == (op + " ")[|op|] == ' ';
      assert s[..|op|] == op && s[..|w|] == w;
      if |op| < |w| {
        NoSpaceInWord(w, |op|);
      }
    }
    if w == op && t[0] == ' ' {
      assert s[..|op| + 1] == op + " ";
    }
  }

  function Before(s: string, cut: Option<(string, string)>): Option<(string, string)> {
    match cut case None => None case Some((l, r)) => Some((s + l, r))
  }

  lemma SplitSkipsWord(w: string, t: string, pat: string)
    requires pat != [] && IsSpace(pat[0]) && forall c :: c in w ==> !IsSpace(c)
    ensures SplitOnce(w + t, pat) == Before(w, SplitOnce(t, pat))
  {
    FindSkipsWord(w, t, pat);
    if i :| Find(t, pat) == Some(i) {
      ShiftCut(w, t, i, |pat|);
    }
  }

  lemma ShiftCut(w: string, t: string, i: nat, n: nat)
    requires i + n <= |t|
    ensures (w + t)[..|w| + i] == w + t[..i] && (w + t)[|w| + i + n..] == t[i + n..]
  {
  }

  lemma SplitInGap(g: string, t: string, op: string, pat: string)
    requires IsGap(g) && t != [] && !IsSpace(t[0]) && IsWord(op) && pat == [' '] + (op + " ")
    ensures SplitOnce(g + t, pat)
            == if EndsBlank(g) && op + " " <= t then Some((g[..|g| - 1], t[|op| + 1..]))
               else Before(g, SplitOnce(t, pat))
  {
    FindInGap(g, t, op);
    if EndsBlank(g) && op + " " <= t {
      CutInGap(g, t, |op| + 1);
    } else if i :| Find(t, pat) == Some(i) {
      ShiftCut(g, t, i, |pat|);
    }
  }

  lemma CutInGap(g: string, t: string, n: nat)
    requires g != [] && n <= |t|
    ensures (g + t)[..|g| - 1] == g[..|g| - 1] && (g + t)[|g| + n..] == t[n..]
  {
  }

  /** Left of the operator, with the white space up to the blank before it. */
  function LeftText(c: Cut): string
    requires c.before != []
  {
    Text(c.left) + c.before[..|c.before| - 1]
  }

  /** Right of the operator, without the blank after it. */
  function RightText(c: Cut): string
    requires c.after != []
  {
    c.after[1..] + Text(c.right)
  }

  function Sides(cut: Option<Cut>): Option<(string, string)>
    requires cut.Some? ==> cut.value.before != [] && cut.value.after != []
  {
    match cut case None => None case Some(c) => Some((LeftText(c), RightText(c)))
  }

  /** Splitting a text at ` op ` cuts the phrase at the first `op` between words and blanks. */
  lemma {:induction false} SplitText(p: Phrase, op: string, pat: string)
    requires IsPhrase(p) && IsWord(op) && pat == [' '] + (op + " ")
    ensures SplitOnce(Text(p), pat) == Sides(FirstCut(p, op))
  {
    match p
    case Word(w) =>
      SplitSkipsWord(w, [], pat);
      assert w + [] == w;
    case More(w, g, r) =>
      TextEnds(r);
      SplitSkipsWord(w, g + Text(r), pat);
      SplitInGap(g, Text(r), op, pat);
      StartsWithWord(op, r);
      if EndsBlank(g) && Opens(r, op) {
        CutBlank(op, r.gap, Text(r.rest));
      } else {
        SplitText(r, op, pat);
        MoreBefore(w, g, FirstCut(r, op));
      }
  }

  lemma CutBlank(w: string, g: string, t: string)
    requires g != []
    ensures (w + (g + t))[|w| + 1..] == g[1..] + t
  {
  }

  lemma MoreBefore(w: string, g: string, cut: Option<Cut>)
    requires cut.Some? ==> cut.value.before != [] && cut.value.after != []
    ensures cut.Some? ==>
              Sides(Some(cut.value.(left := More(w, g, cut.value.left)))) == Before(w, Before(g, Sides(cut)))
  {
    if cut.Some? {
      var c := cut.value;
      Regroup(w, g, Text(c.left), c.before[..|c.before| - 1]);
    }
  }

  lemma Regroup(a: string, b: string, c: string, d: string)
    ensures (a + (b + c)) + d == a + (b + (c + d))
  {
  }

  lemma {:induction false} CutIsPhrases(p: Phrase, op: string)
    requires IsPhrase(p)
    ensures var c := FirstCut(p, op);
            c.Some? ==>
              && IsPhrase(c.value.left) && IsGap(c.value.before)
              && IsGap(c.value.after) && IsPhrase(c.value.right)
  {
    if p.More? && !(EndsBlank(p.gap) && Opens(p.rest, op)) {
      CutIsPhrases(p.rest, op);
    }
  }

  lemma SidesTrimmed(c: Cut)
    requires IsPhrase(c.left) && IsGap(c.before) && IsGap(c.after) && IsPhrase(c.right)
    ensures Trim(LeftText(c)) == Text(c.left) && Trim(RightText(c)) == Text(c.right)
  {
    GapParts(c.before);
    GapParts(c.after);
    TrimPadded([], c.left, c.before[..|c.before| - 1]);
    TrimPadded(c.after[1..], c.right, []);
  }

  lemma GapParts(g: string)
    requires IsGap(g)
    ensures AllSpace(g[..|g| - 1]) && AllSpace(g[1..])
  {
    forall c | c in g[..|g| - 1] || c in g[1..]
      ensures IsSpace(c)
    {
      assert c in g;
    }
  }

  // ----- The evaluator on any text

  lemma Patterns()
    ensures " " + AND + " " == [' '] + (AND + " ") && " " + OR + " " == [' '] + (OR + " ")
    ensures IsWord(NOT) && IsWord(AND) && IsWord(OR)
  {
  }

  /** One evaluation step, given what is recognised in the trimmed text. */
  lemma MatchesByShape(atom: string -> bool, x: string, shape: Shape)
    requires ShapeOf(Trim(x)) == shape
    ensures Matches(atom, x)
            == match shape
               case Negation(rest) => !Matches(atom, rest)
               case Both(left, right) => Matches(atom, left) && Matches(atom, right)
               case Either(left, right) => Matches(atom, left) || Matches(atom, right)
               case Plain => atom(Trim(x))
  {
  }

  /** What is recognised in the text of a phrase. */
  lemma ShapeOfText(p: Phrase)
    requires IsPhrase(p)
    ensures ShapeOf(Text(p))
            == if Opens(p, NOT) then Negation(p.gap[1..] + Text(p.rest))
               else ShapeOfCuts(Sides(FirstCut(p, AND)), Sides(FirstCut(p, OR)))
  {
    Patterns();
    StartsWithWord(NOT, p);
    SplitText(p, AND, " " + AND + " ");
    SplitText(p, OR, " " + OR + " ");
    if Opens(p, NOT) {
      CutBlank(NOT, p.gap, Text(p.rest));
    }
  }

  /** On any words, with any white space between and around them, the evaluator is the algorithm on words. */
  lemma {:induction false} EvaluatorOnPhrase(atom: string -> bool, p: Phrase, x: string)
    requires IsPhrase(p) && Trim(x) == Text(p)
    ensures Matches(atom, x) == MatchPhrase(atom, p)
    decreases Size(p), 1
  {
    ShapeOfText(p);
    MatchesByShape(atom, x, ShapeOf(Text(p)));
    if Opens(p, NOT) {
      GapParts(p.gap);
      TrimPadded(p.gap[1..], p.rest, []);
      EvaluatorOnPhrase(atom, p.rest, p.gap[1..] + Text(p.rest));
    } else if FirstCut(p, AND).Some? {
      CutIsPhrases(p, AND);
      EvaluatorOnSides(atom, FirstCut(p, AND).value, Size(p));
    } else if FirstCut(p, OR).Some? {
      CutIsPhrases(p, OR);
      EvaluatorOnSides(atom, FirstCut(p, OR).value, Size(p));
    }
  }

  lemma {:induction false} EvaluatorOnSides(atom: string -> bool, c: Cut, n: nat)
    requires IsPhrase(c.left) && IsGap(c.before) && IsGap(c.after) && IsPhrase(c.right)
    requires Size(c.left) < n && Size(c.right) < n
    ensures Matches(atom, LeftText(c)) == MatchPhrase(atom, c.left)
    ensures Matches(atom, RightText(c)) == MatchPhrase(atom, c.right)
    decreases n, 0
  {
    SidesTrimmed(c);
    EvaluatorOnPhrase(atom, c.left, LeftText(c));
    EvaluatorOnPhrase(atom, c.right, RightText(c));
  }

  // ----- Every text has words

  /** Length of the longest prefix of characters that are all white space, or all not. */
  function Prefix(s: string, space: bool): (n: nat)
    ensures n <= |s|
  {
    if s != [] && IsSpace(s[0]) == space then 1 + Prefix(s[1..], space) else 0
  }

  lemma {:induction false} PrefixIs(s: string, space: bool)
    ensures forall i :: 0 <= i < Prefix(s, space) ==> IsSpace(s[i]) == space
    ensures Prefix(s, space) < |s| ==> IsSpace(s[Prefix(s, space)]) != space
  {
    if s != [] && IsSpace(s[0]) == space {
      PrefixIs(s[1..], space);
    }
  }

  /** The words of a text that starts and ends with one. */
  function Phrased(t: string): (p: Phrase)
    requires t != [] && !IsSpace(t[0]) && !IsSpace(t[|t| - 1])
    ensures IsPhrase(p) && Text(p) == t
    decreases |t|
  {
    PrefixIs(t, false);
    var n := Prefix(t, false);
    if n == |t| then Word(t)
    else
      var m := Prefix(t[n..], true);
      PrefixIs(t[n..], true);
      GapThenWord(t, n, m);
      More(t[..n], t[n..][..m], Phrased(t[n..][m..]))
  }

  lemma GapThenWord(t: string, n: nat, m: nat)
    requires 0 < n < |t| && m <= |t| - n && !IsSpace(t[|t| - 1])
    requires forall i :: 0 <= i < n ==> !IsSpace(t[i])
    requires IsSpace(t[n]) && (m < |t| - n ==> !IsSpace(t[n..][m]))
    requires forall i :: 0 <= i < m ==> IsSpace(t[n..][i])
    ensures IsWord(t[..n]) && 0 < m < |t| - n && IsGap(t[n..][..m])
    ensures var r := t[n..][m..]; r != [] && !IsSpace(r[0]) && r[|r| - 1] == t[|t| - 1]
    ensures t == t[..n] + (t[n..][..m] + t[n..][m..])
  {
    assert t[n..][0] == t[n] && t[n..][|t| - n - 1] == t[|t| - 1];
  }

  lemma {:induction false} TrimStartEnds(s: string)
    ensures TrimStart(s) != [] ==> !IsSpace(TrimStart(s)[0])
    ensures s != [] && !IsSpace(s[|s| - 1]) ==> TrimStart(s) != []
  {
    if s != [] && IsSpace(s[0]) {
      TrimStartEnds(s[1..]);
    }
  }

  lemma {:induction false} TrimEndEnds(s: string)
    ensures TrimEnd(s) != [] ==> !IsSpace(TrimEnd(s)[|TrimEnd(s)| - 1]) && s != [] && TrimEnd(s)[0] == s[0]
  {
    if s != [] && IsSpace(s[|s| - 1]) {
      TrimEndEnds(s[..|s| - 1]);
    }
  }

  lemma TrimEnds(x: string)
    ensures Trim(x) != [] ==> !IsSpace(Trim(x)[0]) && !IsSpace(Trim(x)[|Trim(x)| - 1])
  {
    TrimStartEnds(x);
    TrimEndEnds(TrimStart(x));
  }

  /** So the evaluator is understood on every text: its words decide, and blank text is a plain atom. */
  lemma EvaluatorOnEveryText(atom: string -> bool, x: string)
    ensures Trim(x) == [] ==> Matches(atom, x) == atom([])
    ensures Trim(x) != [] ==>
              && !IsSpace(Trim(x)[0]) && !IsSpace(Trim(x)[|Trim(x)| - 1])
              && Matches(atom, x) == MatchPhrase(atom, Phrased(Trim(x)))
  {
    TrimEnds(x);
    if Trim(x) != [] {
      EvaluatorOnPhrase(atom, Phrased(Trim(x)), x);
    } else {
      MatchesByShape(atom, x, ShapeOf([]));
      NothingInEmpty();
    }
  }

  lemma NothingInEmpty()
    ensures ShapeOf([]) == Plain
  {
    assert |NOT + " "| == 4;
  }

  // ----- Trees

  /** A leading `not` takes everything after it; `and` binds the disjunction before it. */
  datatype Expr = NotExpr(operand: Expr) | One(disjunction: Disjunction) | And(left: Disjunction, right: Expr)

  datatype Disjunction = Atom(word: string) | Or(first: string, rest: Alternative)

  datatype Alternative = NotAlternative(operand: Alternative) | Just(disjunction: Disjunction)

  predicate IsAtom(w: string) {
    IsWord(w) && w != NOT && w != AND && w != OR
  }

  function ExprWords(e: Expr): seq<string> {
    match e
    case NotExpr(f) => [NOT] + ExprWords(f)
    case One(d) => DisjunctionWords(d)
    case And(d, f) => DisjunctionWords(d) + [AND] + ExprWords(f)
  }

  function DisjunctionWords(d: Disjunction): seq<string> {
    match d
    case Atom(w) => [w]
    case Or(w, a) => [w, OR] + AlternativeWords(a)
  }

  function AlternativeWords(a: Alternative): seq<string> {
    match a
    case NotAlternative(b) => [NOT] + AlternativeWords(b)
    case Just(d) => DisjunctionWords(d)
  }

  function EvalExpr(atom: string -> bool, e: Expr): bool {
    match e
    case NotExpr(f) => !EvalExpr(atom, f)
    case One(d) => EvalDisjunction(atom, d)
    case And(d, f) => EvalDisjunction(atom, d) && EvalExpr(atom, f)
  }

  function EvalDisjunction(atom: string -> bool, d: Disjunction): bool {
    match d
    case Atom(w) => atom(w)
    case Or(w, a) => atom(w) || EvalAlternative(atom, a)
  }

  function EvalAlternative(atom: string -> bool, a: Alternative): bool {
    match a
    case NotAlternative(b) => !EvalAlternative(atom, b)
    case Just(d) => EvalDisjunction(atom, d)
  }

  predicate ProperExpr(e: Expr) {
    match e
    case NotExpr(f) => ProperExpr(f)
    case One(d) => ProperDisjunction(d)
    case And(d, f) => ProperDisjunction(d) && ProperExpr(f)
  }

  predicate ProperDisjunction(d: Disjunction) {
    match d
    case Atom(w) => IsAtom(w)
    case Or(w, a) => IsAtom(w) && ProperAlternative(a)
  }

  predicate ProperAlternative(a: Alternative) {
    match a
    case NotAlternative(b) => ProperAlternative(b)
    case Just(d) => ProperDisjunction(d)
  }

  // ----- Printed trees

  /** The words of `p` are `ws`, with blanks next to each of them. */
  predicate Spells(p: Phrase, ws: seq<string>) {
    match p
    case Word(w) => ws == [w]
    case More(w, g, r) => ws != [] && ws[0] == w && StartsBlank(g) && EndsBlank(g) && Spells(r, ws[1..])
  }

  /** The words with a single blank between them. */
  function Spaced(ws: seq<string>): (p: Phrase)
    requires ws != []
    ensures Spells(p, ws)
  {
    if |ws| == 1 then Word(ws[0]) else More(ws[0], " ", Spaced(ws[1..]))
  }

  lemma {:induction false} CutSpelled(p: Phrase, us: seq<string>, op: string, vs: seq<string>)
    requires us != [] && vs != [] && Spells(p, us + [op] + vs) && op !in us[1..]
    ensures var c := FirstCut(p, op);
            c.Some? && Spells(c.value.left, us) && Spells(c.value.right, vs)
  {
    var ws := us + [op] + vs;
    assert ws[0] == us[0] && ws[1..] == us[1..] + [op] + vs;
    if |us| == 1 {
      assert us[1..] + [op] + vs == [op] + vs && ([op] + vs)[1..] == vs;
    } else {
      assert us[1] in us[1..] && us[1] == us[1..][0];
      CutSpelled(p.rest, us[1..], op, vs);
    }
  }

  lemma {:induction false} NoCutSpelled(p: Phrase, ws: seq<string>, op: string)
    requires Spells(p, ws) && op !in ws
    ensures FirstCut(p, op).None?
  {
    if p.More? {
      SpellsFirst(p.rest, ws[1..]);
      assert ws[1..][0] in ws;
      NoCutSpelled(p.rest, ws[1..], op);
    }
  }

  lemma SpellsFirst(p: Phrase, ws: seq<string>)
    requires Spells(p, ws)
    ensures ws != [] && ws[0] == p.word && (p.Word? ==> Text(p) == ws[0])
  {
  }

  lemma {:induction false} DisjunctionShape(d: Disjunction)
    requires ProperDisjunction(d)
    ensures DisjunctionWords(d) != [] && AND !in DisjunctionWords(d) && IsAtom(DisjunctionWords(d)[0])
  {
    match d
    case Atom(w) =>
    case Or(w, a) => AlternativeShape(a);
  }

  lemma {:induction false} AlternativeShape(a: Alternative)
    requires ProperAlternative(a)
    ensures AlternativeWords(a) != [] && AND !in AlternativeWords(a)
  {
    match a
    case NotAlternative(b) => AlternativeShape(b);
    case Just(d) => DisjunctionShape(d);
  }

  lemma EvaluateAtom(atom: string -> bool, w: string, p: Phrase)
    requires IsAtom(w) && Spells(p, [w])
    ensures MatchPhrase(atom, p) == atom(w)
  {
  }

  lemma {:induction false} EvaluateDisjunction(atom: string -> bool, d: Disjunction, p: Phrase)
    requires ProperDisjunction(d) && Spells(p, DisjunctionWords(d))
    ensures MatchPhrase(atom, p) == EvalDisjunction(atom, d)
  {
    match d
    case Atom(w) => EvaluateAtom(atom, w, p);
    case Or(w, a) =>
      DisjunctionShape(d);
      AlternativeShape(a);
      SpellsFirst(p, DisjunctionWords(d));
      NoCutSpelled(p, DisjunctionWords(d), AND);
      assert DisjunctionWords(d) == [w] + [OR] + AlternativeWords(a);
      CutSpelled(p, [w], OR, AlternativeWords(a));
      EvaluateAtom(atom, w, FirstCut(p, OR).value.left);
      EvaluateAlternative(atom, a, FirstCut(p, OR).value.right);
  }

  lemma {:induction false} EvaluateAlternative(atom: string -> bool, a: Alternative, p: Phrase)
    requires ProperAlternative(a) && Spells(p, AlternativeWords(a))
    ensures MatchPhrase(atom, p) == EvalAlternative(atom, a)
  {
    match a
    case NotAlternative(b) =>
      AlternativeShape(b);
      assert AlternativeWords(a)[1..] == AlternativeWords(b);
      EvaluateAlternative(atom, b, p.rest);
    case Just(d) => EvaluateDisjunction(atom, d, p);
  }

  lemma {:induction false} EvaluateExpr(atom: string -> bool, e: Expr, p: Phrase)
    requires ProperExpr(e) && Spells(p, ExprWords(e))
    ensures MatchPhrase(atom, p) == EvalExpr(atom, e)
  {
    match e
    case NotExpr(f) =>
      ExprHasWords(f);
      assert ExprWords(e)[1..] == ExprWords(f);
      EvaluateExpr(atom, f, p.rest);
    case One(d) => EvaluateDisjunction(atom, d, p);
    case And(d, f) =>
      DisjunctionShape(d);
      ExprHasWords(f);
      SpellsFirst(p, ExprWords(e));
      CutSpelled(p, DisjunctionWords(d), AND, ExprWords(f));
      var c := FirstCut(p, AND).value;
      EvaluateDisjunction(atom, d, c.left);
      EvaluateExpr(atom, f, c.right);
  }

  lemma ExprHasWords(e: Expr)
    requires ProperExpr(e)
    ensures ExprWords(e) != []
  {
    if e.One? {
      DisjunctionShape(e.disjunction);
    }
  }

  /** Evaluating any text that spells a tree, however it is spaced, evaluates the tree. */
  lemma EvaluatorInvertsPrinting(atom: string -> bool, e: Expr, p: Phrase, x: string)
    requires ProperExpr(e) && IsPhrase(p) && Spells(p, ExprWords(e)) && Trim(x) == Text(p)
    ensures Matches(atom, x) == EvalExpr(atom, e)
  {
    EvaluatorOnPhrase(atom, p, x);
    EvaluateExpr(atom, e, p);
  }

  /** The text of a tree, with single blanks. */
  function Printed(e: Expr): string
    requires ProperExpr(e)
  {
    ExprHasWords(e);
    Text(Spaced(ExprWords(e)))
  }

  lemma EvaluatorOnPrinted(atom: string -> bool, e: Expr)
    requires ProperExpr(e)
    ensures Matches(atom, Printed(e)) == EvalExpr(atom, e)
  {
    ExprHasWords(e);
    ExprIsWords(e);
    var p := Spaced(ExprWords(e));
    SpacedIsPhrase(ExprWords(e));
    TrimPadded([], p, []);
    assert Text(p) + [] == Text(p);
    EvaluatorInvertsPrinting(atom, e, p, Printed(e));
  }

  predicate AllWords(ws: seq<string>) {
    forall i :: 0 <= i < |ws| ==> IsWord(ws[i])
  }

  lemma {:induction false} SpacedIsPhrase(ws: seq<string>)
    requires ws != [] && AllWords(ws)
    ensures IsPhrase(Spaced(ws))
  {
    if |ws| > 1 {
      SpacedIsPhrase(ws[1..]);
    }
  }

  lemma {:induction false} ExprIsWords(e: Expr)
    requires ProperExpr(e)
    ensures AllWords(ExprWords(e))
  {
    Patterns();
    match e
    case NotExpr(f) => ExprIsWords(f);
    case One(d) => DisjunctionIsWords(d);
    case And(d, f) => DisjunctionIsWords(d); ExprIsWords(f);
  }

  lemma {:induction false} DisjunctionIsWords(d: Disjunction)
    requires ProperDisjunction(d)
    ensures AllWords(DisjunctionWords(d))
  {
    Patterns();
    match d
    case Atom(w) =>
    case Or(w, a) => AlternativeIsWords(a);
  }

  lemma {:induction false} AlternativeIsWords(a: Alternative)
    requires ProperAlternative(a)
    ensures AllWords(AlternativeWords(a))
  {
    Patterns();
    match a
    case NotAlternative(b) => AlternativeIsWords(b);
    case Just(d) => DisjunctionIsWords(d);
  }

  // ----- Every parenthesis-free expression has a tree

  /** `not`s, an atom, then `and` or `or` before the next such group. */
  predicate IsFlat(ws: seq<string>) {
    && ws != []
    && if ws[0] == NOT then IsFlat(ws[1..])
       else IsAtom(ws[0]) && (|ws| == 1 || ((ws[1] == AND || ws[1] == OR) && IsFlat(ws[2..])))
  }

  /** The first `op` that has a word before and a word after it. */
  function FirstBetween(ws: seq<string>, op: string): (r: Option<nat>)
    ensures r.Some? ==> 1 <= r.value < |ws| - 1 && ws[r.value] == op
  {
    if |ws| < 3 then None
    else if ws[1] == op then Some(1)
    else match FirstBetween(ws[1..], op)
         case None => None
         case Some(i) => Some(i + 1)
  }

  /** Cutting a flat expression at any `and` leaves two flat expressions. */
  lemma {:induction false} FlatCut(ws: seq<string>, i: nat)
    requires IsFlat(ws) && 0 < i < |ws| - 1 && ws[i] == AND
    ensures IsFlat(ws[..i]) && IsFlat(ws[i + 1..])
    decreases |ws|
  {
    if ws[0] == NOT {
      if i != 1 {
        FlatCut(ws[1..], i - 1);
        assert ws[1..][..i - 1] == ws[..i][1..] && ws[1..][i..] == ws[i + 1..];
      }
    } else if i > 1 {
      if i != 2 {
        FlatCut(ws[2..], i - 2);
        assert ws[2..][..i - 2] == ws[..i][2..] && ws[2..][i - 1..] == ws[i + 1..];
      }
    }
  }

  function ParseExpr(ws: seq<string>): (e: Expr)
    requires IsFlat(ws)
    ensures ProperExpr(e) && ExprWords(e) == ws
    decreases |ws|, 2
  {
    if ws[0] == NOT then
      assert ws == [NOT] + ws[1..];
      NotExpr(ParseExpr(ws[1..]))
    else match FirstBetween(ws, AND)
         case Some(i) =>
           FlatCut(ws, i);
           NoneBefore(ws, AND);
           assert ws == ws[..i] + [AND] + ws[i + 1..];
           And(ParseDisjunction(ws[..i]), ParseExpr(ws[i + 1..]))
         case None =>
           NoCut(ws);
           One(ParseDisjunction(ws))
  }

  function ParseDisjunction(ws: seq<string>): (d: Disjunction)
    requires IsFlat(ws) && ws[0] != NOT && AND !in ws
    ensures ProperDisjunction(d) && DisjunctionWords(d) == ws
    decreases |ws|, 0
  {
    if |ws| == 1 then Atom(ws[0])
    else
      assert ws[1] in ws;
      assert ws == [ws[0], OR] + ws[2..];
      Or(ws[0], ParseAlternative(ws[2..]))
  }

  function ParseAlternative(ws: seq<string>): (a: Alternative)
    requires IsFlat(ws) && AND !in ws
    ensures ProperAlternative(a) && AlternativeWords(a) == ws
    decreases |ws|, 1
  {
    if ws[0] == NOT then
      assert ws == [NOT] + ws[1..];
      NotAlternative(ParseAlternative(ws[1..]))
    else Just(ParseDisjunction(ws))
  }

  lemma {:induction false} NoneBefore(ws: seq<string>, op: string)
    requires FirstBetween(ws, op).Some?
    ensures forall k :: 1 <= k < FirstBetween(ws, op).value ==> ws[k] != op
  {
    if ws[1] != op {
      NoneBefore(ws[1..], op);
      forall k | 1 <= k < FirstBetween(ws, op).value
        ensures ws[k] != op
      {
        if k > 1 {
          assert ws[1..][k - 1] == ws[k];
        }
      }
    }
  }

  /** In a flat expression no `and` comes first or last. */
  lemma {:induction false} NoCut(ws: seq<string>)
    requires IsFlat(ws) && FirstBetween(ws, AND).None?
    ensures AND !in ws
    decreases |ws|
  {
    if ws[0] == NOT {
      if |ws| >= 3 {
        NoCut(ws[1..]);
      }
      assert ws == [ws[0]] + ws[1..];
    } else if |ws| > 1 {
      NoBetween(ws);
      NoCut(ws[2..]);
      assert ws == [ws[0], ws[1]] + ws[2..];
    }
  }

  lemma NoBetween(ws: seq<string>)
    requires |ws| >= 3 && FirstBetween(ws, AND).None?
    ensures ws[1] != AND && FirstBetween(ws[2..], AND).None?
  {
    if |ws| >= 4 {
      assert ws[1..][1..] == ws[2..];
    }
  }

  lemma {:induction false} FirstBetweenSplits(us: seq<string>, op: string, vs: seq<string>)
    requires us != [] && vs != [] && op !in us[1..]
    ensures FirstBetween(us + [op] + vs, op) == Some(|us|)
  {
    var ws := us + [op] + vs;
    if |us| > 1 {
      assert ws[1..] == us[1..] + [op] + vs;
      assert ws[1] == us[1] && us[1] in us[1..];
      FirstBetweenSplits(us[1..], op, vs);
    }
  }

  lemma {:induction false} FirstBetweenAbsent(ws: seq<string>, op: string)
    requires op !in ws
    ensures FirstBetween(ws, op).None?
  {
    if |ws| >= 3 {
      FirstBetweenAbsent(ws[1..], op);
    }
  }

  lemma {:induction false} FlatJoin(us: seq<string>, op: string, vs: seq<string>)
    requires IsFlat(us) && IsFlat(vs) && (op == AND || op == OR)
    ensures IsFlat(us + [op] + vs)
    decreases |us|
  {
    var ws := us + [op] + vs;
    assert ws[0] == us[0];
    if us[0] == NOT {
      FlatJoin(us[1..], op, vs);
      assert ws[1..] == us[1..] + [op] + vs;
    } else if |us| == 1 {
      assert ws[1] == op && ws[2..] == vs;
    } else {
      FlatJoin(us[2..], op, vs);
      assert ws[1] == us[1] && ws[2..] == us[2..] + [op] + vs;
    }
  }

  /** A flat expression spells only one tree. */
  lemma {:induction false} OneTree(e: Expr)
    requires ProperExpr(e)
    ensures IsFlat(ExprWords(e)) && ParseExpr(ExprWords(e)) == e
  {
    var ws := ExprWords(e);
    match e
    case NotExpr(f) =>
      OneTree(f);
      assert ws[1..] == ExprWords(f);
    case One(d) =>
      OneDisjunction(d);
      DisjunctionShape(d);
      FirstBetweenAbsent(ws, AND);
    case And(d, f) =>
      OneDisjunction(d);
      DisjunctionShape(d);
      OneTree(f);
      var us, vs := DisjunctionWords(d), ExprWords(f);
      FlatJoin(us, AND, vs);
      FirstBetweenSplits(us, AND, vs);
      assert ws[0] == us[0] && ws[..|us|] == us && ws[|us| + 1..] == vs;
  }

  lemma {:induction false} OneDisjunction(d: Disjunction)
    requires ProperDisjunction(d)
    ensures var ws := DisjunctionWords(d);
            IsFlat(ws) && ws[0] != NOT && AND !in ws && ParseDisjunction(ws) == d
  {
    DisjunctionShape(d);
    match d
    case Atom(w) =>
    case Or(w, a) =>
      OneAlternative(a);
      assert DisjunctionWords(d)[2..] == AlternativeWords(a);
  }

  lemma {:induction false} OneAlternative(a: Alternative)
    requires ProperAlternative(a)
    ensures var ws := AlternativeWords(a);
            IsFlat(ws) && AND !in ws && ParseAlternative(ws) == a
  {
    AlternativeShape(a);
    match a
    case NotAlternative(b) =>
      OneAlternative(b);
      assert AlternativeWords(a)[1..] == AlternativeWords(b);
    case Just(d) =>
      OneDisjunction(d);
  }

  /** So any text that spells a flat expression evaluates to the value of the one tree it spells. */
  lemma EvaluatorOnFlat(atom: string -> bool, ws: seq<string>, p: Phrase, x: string)
    requires IsFlat(ws) && IsPhrase(p) && Spells(p, ws) && Trim(x) == Text(p)
    ensures Matches(atom, x) == EvalExpr(atom, ParseExpr(ws))
    ensures forall e :: ProperExpr(e) && ExprWords(e) == ws ==> e == ParseExpr(ws)
  {
    EvaluatorInvertsPrinting(atom, ParseExpr(ws), p, x);
    forall e | ProperExpr(e) && ExprWords(e) == ws
      ensures e == ParseExpr(ws)
    {
      OneTree(e);
    }
  }

  // ----- By example

  /** The characters of Unicode White_Space. */
  lemma WhiteSpaceIs(c: char)
    ensures IsSpace(c) <==>
            (c as int) in {0x09, 0x0A, 0x0B, 0x0C, 0x0D, 0x20, 0x85, 0xA0, 0x1680,
                           0x2000, 0x2001, 0x2002, 0x2003, 0x2004, 0x2005, 0x2006, 0x2007, 0x2008, 0x2009, 0x200A,
                           0x2028, 0x2029, 0x202F, 0x205F, 0x3000}
  {
  }

  predicate AreAtoms(x: string, y: string, z: string) {
    IsAtom(x) && IsAtom(y) && IsAtom(z)
  }

  function Chain(w: string, rest: Phrase): Phrase {
    More(w, " ", rest)
  }

  lemma MatchesText(atom: string -> bool, p: Phrase)
    requires IsPhrase(p)
    ensures Matches(atom, Text(p)) == MatchPhrase(atom, p)
  {
    TrimPadded([], p, []);
    assert Text(p) + [] == Text(p);
    EvaluatorOnPhrase(atom, p, Text(p));
  }

  lemma ChainText(w: string, rest: Phrase)
    requires IsWord(w) && IsPhrase(rest)
    ensures IsPhrase(Chain(w, rest)) && Text(Chain(w, rest)) == w + (" " + Text(rest))
  {
  }

  function OrNotAnd(x: string, y: string, z: string): Phrase {
    Chain(x, Chain("or", Chain("not", Chain(y, Chain("and", Word(z))))))
  }

  lemma OrNotAndText(x: string, y: string, z: string)
    requires AreAtoms(x, y, z)
    ensures IsPhrase(OrNotAnd(x, y, z))
    ensures Text(OrNotAnd(x, y, z))
            == x + (" " + ("or" + (" " + ("not" + (" " + (y + (" " + ("and" + (" " + z)))))))))
  {
    Patterns();
    ChainText("and", Word(z));
    ChainText(y, Chain("and", Word(z)));
    ChainText("not", Chain(y, Chain("and", Word(z))));
    ChainText("or", Chain("not", Chain(y, Chain("and", Word(z)))));
    ChainText(x, Chain("or", Chain("not", Chain(y, Chain("and", Word(z))))));
  }

  lemma OrNotAndMatch(atom: string -> bool, x: string, y: string, z: string)
    requires AreAtoms(x, y, z)
    ensures MatchPhrase(atom, OrNotAnd(x, y, z)) == ((atom(x) || !atom(y)) && atom(z))
  {
    CutAtAnd(x, y, z);
    OrNot(atom, x, y);
    assert MatchPhrase(atom, Word(z)) == atom(z);
  }

  /** `x or not y and z` is a conjunction. */
  lemma OrBindsTighter(atom: string -> bool, x: string, y: string, z: string)
    requires AreAtoms(x, y, z)
    ensures Matches(atom, x + (" " + ("or" + (" " + ("not" + (" " + (y + (" " + ("and" + (" " + z))))))))))
            == ((atom(x) || !atom(y)) && atom(z))
  {
    OrNotAndText(x, y, z);
    OrNotAndMatch(atom, x, y, z);
    MatchesText(atom, OrNotAnd(x, y, z));
  }

  lemma CutAtAnd(x: string, y: string, z: string)
    requires AreAtoms(x, y, z)
    ensures FirstCut(Chain(x, Chain("or", Chain("not", Chain(y, Chain("and", Word(z)))))), AND)
            == Some(Cut(Chain(x, Chain("or", Chain("not", Word(y)))), " ", " ", Word(z)))
  {
    var p := Chain(y, Chain("and", Word(z)));
    assert FirstCut(p, AND) == Some(Cut(Word(y), " ", " ", Word(z)));
    assert FirstCut(Chain("not", p), AND) == Some(Cut(Chain("not", Word(y)), " ", " ", Word(z)));
    assert FirstCut(Chain("or", Chain("not", p)), AND)
        == Some(Cut(Chain("or", Chain("not", Word(y))), " ", " ", Word(z))) by {
      assert "not" != AND by { assert "not"[0] == 'n' && AND[0] == 'a'; }
    }
    assert "or" != AND by { assert "or"[0] == 'o' && AND[0] == 'a'; }
  }

  lemma OrNot(atom: string -> bool, x: string, y: string)
    requires IsAtom(x) && IsAtom(y)
    ensures MatchPhrase(atom, Chain(x, Chain("or", Chain("not", Word(y))))) == (atom(x) || !atom(y))
  {
    var q := Chain("not", Word(y));
    assert "or" != AND by { assert "or"[0] == 'o' && AND[0] == 'a'; }
    assert "not" != AND by { assert "not"[0] == 'n' && AND[0] == 'a'; }
    assert FirstCut(q, AND).None? && FirstCut(Chain("or", q), AND).None?;
    assert FirstCut(Chain(x, Chain("or", q)), AND).None?;
    assert FirstCut(Chain(x, Chain("or", q)), OR) == Some(Cut(Word(x), " ", " ", q));
    assert MatchPhrase(atom, Word(x)) == atom(x) && MatchPhrase(atom, Word(y)) == atom(y);
    assert Opens(q, NOT);
  }

  lemma NotAndMatch(atom: string -> bool, x: string, y: string)
    requires IsAtom(x) && IsAtom(y)
    ensures MatchPhrase(atom, Chain("not", Chain(x, Chain("and", Word(y))))) == !(atom(x) && atom(y))
  {
    var p := Chain(x, Chain("and", Word(y)));
    assert FirstCut(p, AND) == Some(Cut(Word(x), " ", " ", Word(y)));
    assert MatchPhrase(atom, Word(x)) == atom(x) && MatchPhrase(atom, Word(y)) == atom(y);
    assert MatchPhrase(atom, p) == (atom(x) && atom(y));
    assert Opens(Chain("not", p), NOT);
  }

  /** A leading `not` takes everything after it: `not x and y` negates the conjunction. */
  lemma NotTakesAll(atom: string -> bool, x: string, y: string)
    requires IsAtom(x) && IsAtom(y)
    ensures Matches(atom, "not" + (" " + (x + (" " + ("and" + (" " + y)))))) == !(atom(x) && atom(y))
  {
    Patterns();
    ChainText("and", Word(y));
    ChainText(x, Chain("and", Word(y)));
    ChainText("not", Chain(x, Chain("and", Word(y))));
    NotAndMatch(atom, x, y);
    MatchesText(atom, Chain("not", Chain(x, Chain("and", Word(y)))));
  }

  /** A single word, whatever it is, is a plain atom. */
  lemma WordIsAtom(atom: string -> bool, w: string)
    requires IsWord(w)
    ensures Matches(atom, w) == atom(w)
  {
    TrimPadded([], Word(w), []);
    assert w + [] == w;
    EvaluatorOnPhrase(atom, Word(w), w);
  }
}
