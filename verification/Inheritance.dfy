/**
 Collecting the tests of a class and those it inherits within one file
 (crates/rpytest-daemon/src/collector.rs).

 Of the syntax tree only names, bases, methods and nested classes are kept. A method comes with the
 id suffixes of the test nodes it produces (none when a decorator rules it out or a parametrize list
 is empty, one per parameter set otherwise) and its line, which tells its nodes apart.
 */
module Inheritance {
  import opened Models
  import opened Seqs

  datatype ClassDef = ClassDef(name: string, bases: seq<string>, body: seq<Member>)

  datatype Member = Def(name: string, suffixes: seq<string>, line: nat) | Inner(cls: ClassDef)

  datatype Stmt = Function(def: Member) | Class(cls: ClassDef) | Other

  datatype Node = Node(className: Option<string>, name: string, suffix: string, line: nat)

  predicate StartsTest(name: string) {
    "test_" <= name || "Test" <= name
  }

  /** The nodes of one function or method, recorded under `owner`. */
  function DefNodes(m: Member, owner: Option<string>): seq<Node>
    requires m.Def?
  {
    if StartsTest(m.name)
    then seq(|m.suffixes|, k requires 0 <= k < |m.suffixes| => Node(owner, m.name, m.suffixes[k], m.line))
    else []
  }

  /** The own nodes of a collected class; nested classes are collected under their own name. */
  function OwnNodes(body: seq<Member>, owner: string): seq<Node> {
    if body == [] then []
    else OwnNodes(body[..|body| - 1], owner) + MemberNodes(body[|body| - 1], owner)
  }

  function MemberNodes(m: Member, owner: string): seq<Node> {
    match m
    case Def(_, _, _) => DefNodes(m, Some(owner))
    case Inner(c) => if "Test" <= c.name then OwnNodes(c.body, c.name) else []
  }

  /** First class of that name among the statements of the file. */
  function FindClass(stmts: seq<Stmt>, name: string): (r: Option<ClassDef>)
    ensures r.Some? ==> Class(r.value) in stmts && r.value.name == name
  {
    if stmts == [] then None
    else if stmts[0].Class? && stmts[0].cls.name == name then Some(stmts[0].cls)
    else FindClass(stmts[1..], name)
  }

  /** The nodes of `owner` with test name `t`, in order. */
  function Named(tests: seq<Node>, owner: string, t: string): seq<Node> {
    if tests == [] then []
    else Named(tests[..|tests| - 1], owner, t)
         + (if tests[|tests| - 1].className == Some(owner) && tests[|tests| - 1].name == t
            then [tests[|tests| - 1]] else [])
  }

  function Existing(tests: seq<Node>, owner: string): set<string> {
    set i | 0 <= i < |tests| && tests[i].className == Some(owner) :: tests[i].name
  }

  /** The test methods of a base class, except those whose names the derived class already has. */
  function InheritedNodes(body: seq<Member>, owner: string, existing: set<string>): seq<Node> {
    if body == [] then []
    else
      var m := body[|body| - 1];
      InheritedNodes(body[..|body| - 1], owner, existing)
      + (if m.Def? && "test_" <= m.name && m.name !in existing then DefNodes(m, Some(owner)) else [])
  }

  function AddFrom(base: ClassDef, owner: string, tests: seq<Node>): seq<Node> {
    tests + InheritedNodes(base.body, owner, Existing(tests, owner))
  }

  function AddAll(bases: seq<ClassDef>, owner: string, tests: seq<Node>): seq<Node> {
    if bases == [] then tests else AddAll(bases[1..], owner, AddFrom(bases[0], owner, tests))
  }

  // ----- Termination

  /** The recursion from `c` ends within depth `d`. */
  predicate Finishes(stmts: seq<Stmt>, c: ClassDef, d: nat)
    decreases d
  {
    d > 0 && forall i :: 0 <= i < |c.bases| ==>
                           match FindClass(stmts, c.bases[i])
                           case None => true
                           case Some(b) => Finishes(stmts, b, d - 1)
  }

  ghost predicate IsBase(stmts: seq<Stmt>, c: ClassDef, b: ClassDef) {
    exists i :: 0 <= i < |c.bases| && FindClass(stmts, c.bases[i]) == Some(b)
  }

  ghost predicate IsPath(stmts: seq<Stmt>, p: seq<ClassDef>) {
    p != [] && forall i :: 0 <= i < |p| - 1 ==> IsBase(stmts, p[i], p[i + 1])
  }

  /** Following base names from `c` comes back to a class. */
  ghost predicate ReachesCycle(stmts: seq<Stmt>, c: ClassDef) {
    exists p, i, j :: IsPath(stmts, p) && p[0] == c && 0 <= i < j < |p| && p[i] == p[j]
  }

  lemma {:induction false} FinishesAlong(stmts: seq<Stmt>, p: seq<ClassDef>, d: nat, k: nat)
    requires IsPath(stmts, p) && k < |p| && Finishes(stmts, p[0], d)
    ensures k < d && Finishes(stmts, p[k], d - k)
  {
    if k > 0 {
      FinishesAlong(stmts, p, d, k - 1);
      assert IsBase(stmts, p[k - 1], p[k - 1 + 1]);
    }
  }

  lemma {:induction false} NoFinishOnCycle(stmts: seq<Stmt>, p: seq<ClassDef>, d: nat)
    requires IsPath(stmts, p) && |p| > 1 && p[0] == p[|p| - 1]
    ensures !Finishes(stmts, p[0], d)
    decreases d
  {
    if Finishes(stmts, p[0], d) {
      FinishesAlong(stmts, p, d, |p| - 1);
      NoFinishOnCycle(stmts, p, d - (|p| - 1));
    }
  }

  lemma {:induction false} UnfinishedPath(stmts: seq<Stmt>, c: ClassDef, d: nat) returns (p: seq<ClassDef>)
    requires !Finishes(stmts, c, d)
    ensures IsPath(stmts, p) && p[0] == c && |p| == d + 1
    decreases d
  {
    if d == 0 {
      p := [c];
    } else {
      var i :| 0 <= i < |c.bases| && FindClass(stmts, c.bases[i]).Some?
               && !Finishes(stmts, FindClass(stmts, c.bases[i]).value, d - 1);
      var b := FindClass(stmts, c.bases[i]).value;
      var q := UnfinishedPath(stmts, b, d - 1);
      p := [c] + q;
      assert IsBase(stmts, c, b);
      forall k | 0 <= k < |p| - 1
        ensures IsBase(stmts, p[k], p[k + 1])
      {
        if k > 0 {
          assert IsBase(stmts, q[k - 1], q[k - 1 + 1]);
        }
      }
    }
  }

  /** More elements than a list has places: one repeats. */
  lemma {:induction false} Pigeonhole<T>(q: seq<T>, s: set<T>) returns (i: nat, j: nat)
    requires (forall k :: 0 <= k < |q| ==> q[k] in s) && |q| > |s|
    ensures i < j < |q| && q[i] == q[j]
    decreases |q|
  {
    var last := |q| - 1;
    if k :| 0 <= k < last && q[k] == q[last] {
      i, j := k, last;
    } else {
      i, j := Pigeonhole(q[..last], s - {q[last]});
    }
  }

  lemma {:induction false} StmtsAtMost(stmts: seq<Stmt>)
    ensures |set s | s in stmts| <= |stmts|
  {
    if stmts != [] {
      StmtsAtMost(stmts[1..]);
      assert (set s | s in stmts) == {stmts[0]} + (set s | s in stmts[1..]);
    }
  }

  /**
   The walk from `c` ends if and only if it cannot come back to a class it is inside of, and then it
   is never deeper than the file has statements below `c`.
   */
  lemma WalkEndsExactly(stmts: seq<Stmt>, c: ClassDef)
    ensures Finishes(stmts, c, |stmts| + 1) <==> !ReachesCycle(stmts, c)
    ensures (exists d: nat :: Finishes(stmts, c, d)) <==> !ReachesCycle(stmts, c)
  {
    if ReachesCycle(stmts, c) {
      var p, i, j :| IsPath(stmts, p) && p[0] == c && 0 <= i < j < |p| && p[i] == p[j];
      forall d: nat
        ensures !Finishes(stmts, c, d)
      {
        CycleNeverFinishes(stmts, p, i, j, d);
      }
    } else if !Finishes(stmts, c, |stmts| + 1) {
      LongPathCycles(stmts, c);
    }
  }

  /** A class that names itself as its base. */
  lemma CycleExample()
    ensures var c := ClassDef("TestA", ["TestA"], []);
            ReachesCycle([Class(c)], c) && !Acyclic([Class(c)])
  {
    var c := ClassDef("TestA", ["TestA"], []);
    var stmts := [Class(c)];
    assert FindClass(stmts, c.bases[0]) == Some(c);
    assert IsBase(stmts, c, c);
    assert IsPath(stmts, [c, c]) && [c, c][0] == [c, c][1];
    assert Collected(stmts[0]) by {
      assert "TestA"[..4] == "Test";
    }
  }

  predicate Collected(s: Stmt) {
    s.Class? && "Test" <= s.cls.name
  }

  /** No class that is collected reaches a cycle. */
  ghost predicate Acyclic(stmts: seq<Stmt>) {
    forall i :: 0 <= i < |stmts| && Collected(stmts[i]) ==> !ReachesCycle(stmts, stmts[i].cls)
  }

  /** So a whole file is walked to the end exactly when it is acyclic, within the length of the file. */
  lemma FileWalksEndExactly(stmts: seq<Stmt>)
    ensures WalksFinish(stmts, stmts, |stmts|) <==> Acyclic(stmts)
    ensures (exists d: nat :: WalksFinish(stmts, stmts, d)) <==> Acyclic(stmts)
  {
    forall i | 0 <= i < |stmts| && Collected(stmts[i])
      ensures WalkFinishes(stmts[i], stmts, |stmts|) <==> !ReachesCycle(stmts, stmts[i].cls)
    {
      WalkEndsExactly(stmts, stmts[i].cls);
      BasesThenClass(stmts, stmts[i].cls, |stmts|);
    }
    forall d: nat | WalksFinish(stmts, stmts, d)
      ensures Acyclic(stmts)
    {
      FinishedIsAcyclic(stmts, d);
    }
  }

  lemma BasesThenClass(stmts: seq<Stmt>, c: ClassDef, d: nat)
    ensures Finishes(stmts, c, d + 1) <==> BasesFinish(stmts, c.bases, d)
  {
    if BasesFinish(stmts, c.bases, d) {
      assert forall i :: 0 <= i < |c.bases| ==> BaseFinishes(stmts, c.bases[i], d);
    }
  }

  lemma FinishedIsAcyclic(stmts: seq<Stmt>, d: nat)
    requires WalksFinish(stmts, stmts, d)
    ensures Acyclic(stmts)
  {
    forall i | 0 <= i < |stmts| && Collected(stmts[i])
      ensures !ReachesCycle(stmts, stmts[i].cls)
    {
      assert WalkFinishes(stmts[i], stmts, d);
      BasesThenClass(stmts, stmts[i].cls, d);
      WalkEndsExactly(stmts, stmts[i].cls);
    }
  }

  lemma CycleNeverFinishes(stmts: seq<Stmt>, p: seq<ClassDef>, i: nat, j: nat, d: nat)
    requires IsPath(stmts, p) && i < j < |p| && p[i] == p[j]
    ensures !Finishes(stmts, p[0], d)
  {
    if Finishes(stmts, p[0], d) {
      FinishesAlong(stmts, p, d, i);
      var loop := p[i..j + 1];
      forall k | 0 <= k < |loop| - 1
        ensures IsBase(stmts, loop[k], loop[k + 1])
      {
        assert IsBase(stmts, p[i + k], p[i + k + 1]);
      }
      NoFinishOnCycle(stmts, loop, d - i);
    }
  }

  lemma LongPathCycles(stmts: seq<Stmt>, c: ClassDef)
    requires !Finishes(stmts, c, |stmts| + 1)
    ensures ReachesCycle(stmts, c)
  {
    var p := UnfinishedPath(stmts, c, |stmts| + 1);
    var all := set s | s in stmts;
    var wrapped := seq(|p| - 1, k requires 0 <= k < |p| - 1 => Class(p[k + 1]));
    forall k | 0 <= k < |wrapped|
      ensures wrapped[k] in all
    {
      assert IsBase(stmts, p[k], p[k + 1]);
    }
    StmtsAtMost(stmts);
    var i, j := Pigeonhole(wrapped, all);
    assert wrapped[i] == Class(p[i + 1]) && wrapped[j] == Class(p[j + 1]);
    assert p[i + 1] == p[j + 1];
  }

  // ----- The walk as a list of classes

  /** Depth-first preorder, classes met on several ways repeated. */
  function Preorder(stmts: seq<Stmt>, c: ClassDef, d: nat): seq<ClassDef>
    requires Finishes(stmts, c, d)
    decreases d, 0
  {
    [c] + PreorderOf(stmts, c.bases, d - 1)
  }

  predicate BaseFinishes(stmts: seq<Stmt>, name: string, d: nat) {
    match FindClass(stmts, name) case None => true case Some(b) => Finishes(stmts, b, d)
  }

  predicate BasesFinish(stmts: seq<Stmt>, bases: seq<string>, d: nat) {
    forall i :: 0 <= i < |bases| ==> BaseFinishes(stmts, bases[i], d)
  }

  /** The part of the walk below one base name; a name not found in the file contributes nothing. */
  function PreorderAt(stmts: seq<Stmt>, name: string, d: nat): seq<ClassDef>
    requires BaseFinishes(stmts, name, d)
    decreases d, 1
  {
    match FindClass(stmts, name) case None => [] case Some(b) => Preorder(stmts, b, d)
  }

  function PreorderOf(stmts: seq<Stmt>, bases: seq<string>, d: nat): seq<ClassDef>
    requires BasesFinish(stmts, bases, d)
    decreases d, |bases| + 2
  {
    if bases == [] then [] else PreorderAt(stmts, bases[0], d) + PreorderOf(stmts, bases[1..], d)
  }

  /** A larger bound changes nothing: the walk is the same. */
  lemma {:induction false} WalkSameDeeper(stmts: seq<Stmt>, c: ClassDef, d: nat, more: nat)
    requires Finishes(stmts, c, d) && d <= more
    ensures Finishes(stmts, c, more) && Preorder(stmts, c, more) == Preorder(stmts, c, d)
    decreases d, 0
  {
    BasesSameDeeper(stmts, c.bases, d - 1, more - 1);
    BasesThenClass(stmts, c, more - 1);
  }

  lemma {:induction false} BasesSameDeeper(stmts: seq<Stmt>, bases: seq<string>, d: nat, more: nat)
    requires BasesFinish(stmts, bases, d) && d <= more
    ensures BasesFinish(stmts, bases, more) && PreorderOf(stmts, bases, more) == PreorderOf(stmts, bases, d)
    decreases d, |bases| + 1
  {
    if bases != [] {
      var found := FindClass(stmts, bases[0]);
      if found.Some? {
        assert BaseFinishes(stmts, bases[0], d);
        WalkSameDeeper(stmts, found.value, d, more);
      }
      BasesSameDeeper(stmts, bases[1..], d, more);
      forall i | 0 <= i < |bases|
        ensures BaseFinishes(stmts, bases[i], more)
      {
        if i > 0 {
          assert bases[i] == bases[1..][i - 1];
        }
      }
    }
  }

  lemma {:induction false} AddAllConcat(a: seq<ClassDef>, b: seq<ClassDef>, owner: string, tests: seq<Node>)
    ensures AddAll(a + b, owner, tests) == AddAll(b, owner, AddAll(a, owner, tests))
  {
    if a == [] {
      assert a + b == b;
    } else {
      assert (a + b)[1..] == a[1..] + b;
      AddAllConcat(a[1..], b, owner, AddFrom(a[0], owner, tests));
    }
  }

  /** The shared vector of collected nodes, and the two source methods that push into it. */
  class Collector {
    var tests: seq<Node>

    constructor ()
      ensures tests == []
    {
      tests := [];
    }

    /** The loop over the statements of a file. */
    method ExtractStmtItems(stmts: seq<Stmt>)
      requires Acyclic(stmts)
      modifies this
      ensures WalksFinish(stmts, stmts, |stmts|)
      ensures tests == Extracted(stmts, stmts, old(tests), |stmts|)
    {
      FileWalksEndExactly(stmts);
      for i := 0 to |stmts|
        invariant WalksFinish(stmts[..i], stmts, |stmts|)
        invariant tests == Extracted(stmts[..i], stmts, old(tests), |stmts|)
      {
        assert stmts[..i + 1][..i] == stmts[..i];
        assert WalkFinishes(stmts[i], stmts, |stmts|);
        match stmts[i] {
          case Function(def) =>
            if def.Def? {
              tests := tests + DefNodes(def, None);
            }
          case Class(c) =>
            if "Test" <= c.name {
              tests := tests + OwnNodes(c.body, c.name);
              CollectBases(stmts, c.bases, c.name, |stmts|);
            }
          case Other =>
        }
      }
      assert stmts[..|stmts|] == stmts;
    }

    /** The loop over the body of one base class. */
    method AddInherited(base: ClassDef, derived: string)
      modifies this
      ensures tests == AddFrom(base, derived, old(tests))
    {
      var existing := Existing(tests, derived);
      for i := 0 to |base.body|
        invariant tests == old(tests) + InheritedNodes(base.body[..i], derived, existing)
      {
        var m := base.body[i];
        assert base.body[..i + 1][..i] == base.body[..i];
        if m.Def? && "test_" <= m.name && m.name !in existing {
          tests := tests + DefNodes(m, Some(derived));
        }
      }
      assert base.body[..|base.body|] == base.body;
    }

    /** `d` bounds the depth of the recursion; the source has no such bound. */
    method CollectInheritedTests(stmts: seq<Stmt>, base: ClassDef, derived: string, ghost d: nat)
      requires Finishes(stmts, base, d)
      modifies this
      ensures tests == AddAll(Preorder(stmts, base, d), derived, old(tests))
      decreases d, 0
    {
      AddInherited(base, derived);
      CollectBases(stmts, base.bases, derived, d - 1);
    }

    /** The loop over base names: each one found in the file is walked. */
    method CollectBases(stmts: seq<Stmt>, bases: seq<string>, derived: string, ghost d: nat)
      requires BasesFinish(stmts, bases, d)
      modifies this
      ensures tests == AddAll(PreorderOf(stmts, bases, d), derived, old(tests))
      decreases d, 1
    {
      for i := 0 to |bases|
        invariant BasesFinish(stmts, bases[..i], d)
        invariant tests == AddAll(PreorderOf(stmts, bases[..i], d), derived, old(tests))
      {
        assert bases[..i + 1] == bases[..i] + [bases[i]];
        PreorderAppend(stmts, bases[..i], bases[i], d);
        var found := FindClass(stmts, bases[i]);
        if found.Some? {
          AddAllConcat(PreorderOf(stmts, bases[..i], d), Preorder(stmts, found.value, d), derived, old(tests));
          CollectInheritedTests(stmts, found.value, derived, d);
        } else {
          AddAllConcat(PreorderOf(stmts, bases[..i], d), [], derived, old(tests));
        }
      }
      assert bases[..|bases|] == bases;
    }
  }

  lemma {:induction false} PreorderAppend(stmts: seq<Stmt>, bases: seq<string>, name: string, d: nat)
    requires BasesFinish(stmts, bases, d) && BaseFinishes(stmts, name, d)
    ensures BasesFinish(stmts, bases + [name], d)
    ensures PreorderOf(stmts, bases + [name], d) == PreorderOf(stmts, bases, d) + PreorderAt(stmts, name, d)
  {
    if bases == [] {
      assert [name][1..] == [] && bases + [name] == [name];
    } else {
      assert (bases + [name])[1..] == bases[1..] + [name];
      PreorderAppend(stmts, bases[1..], name, d);
      Associate(PreorderAt(stmts, bases[0], d), PreorderOf(stmts, bases[1..], d), PreorderAt(stmts, name, d));
    }
  }

  // ----- A whole file

  predicate WalkFinishes(s: Stmt, all: seq<Stmt>, d: nat) {
    Collected(s) ==> BasesFinish(all, s.cls.bases, d)
  }

  predicate WalksFinish(stmts: seq<Stmt>, all: seq<Stmt>, d: nat) {
    forall i :: 0 <= i < |stmts| ==> WalkFinishes(stmts[i], all, d)
  }

  /** Own nodes first, then the walk over the bases. */
  function ExtractedBy(s: Stmt, all: seq<Stmt>, tests: seq<Node>, d: nat): seq<Node>
    requires WalkFinishes(s, all, d)
  {
    match s
    case Function(def) => if def.Def? then tests + DefNodes(def, None) else tests
    case Class(c) =>
      if "Test" <= c.name
      then AddAll(PreorderOf(all, c.bases, d), c.name, tests + OwnNodes(c.body, c.name))
      else tests
    case Other => tests
  }

  function Extracted(stmts: seq<Stmt>, all: seq<Stmt>, tests: seq<Node>, d: nat): seq<Node>
    requires WalksFinish(stmts, all, d)
  {
    if stmts == [] then tests
    else ExtractedBy(stmts[|stmts| - 1], all, Extracted(stmts[..|stmts| - 1], all, tests, d), d)
  }

  /** What `c` offers to a derived class `owner` under test name `t`. */
  function Offered(c: ClassDef, owner: string, t: string): seq<Node> {
    Named(InheritedNodes(c.body, owner, {}), owner, t)
  }

  /** The offer of the first class in the list that offers anything. */
  function FirstOffer(cs: seq<ClassDef>, owner: string, t: string): seq<Node> {
    if cs == [] then []
    else if Offered(cs[0], owner, t) != [] then Offered(cs[0], owner, t)
    else FirstOffer(cs[1..], owner, t)
  }

  lemma {:induction false} NamedConcat(a: seq<Node>, b: seq<Node>, owner: string, t: string)
    ensures Named(a + b, owner, t) == Named(a, owner, t) + Named(b, owner, t)
  {
    if b == [] {
      assert a + b == a;
    } else {
      var b' := b[..|b| - 1];
      assert (a + b)[..|a + b| - 1] == a + b';
      NamedConcat(a, b', owner, t);
    }
  }

  lemma {:induction false} NamedIsExisting(tests: seq<Node>, owner: string, t: string)
    ensures Named(tests, owner, t) != [] <==> t in Existing(tests, owner)
  {
    if tests != [] {
      NamedIsExisting(tests[..|tests| - 1], owner, t);
    }
  }

  /** Nodes that all belong elsewhere, or all have another name, do not count. */
  lemma {:induction false} NamedNone(a: seq<Node>, owner: string, t: string)
    requires forall k :: 0 <= k < |a| ==> a[k].className != Some(owner) || a[k].name != t
    ensures Named(a, owner, t) == []
  {
    if a != [] {
      NamedNone(a[..|a| - 1], owner, t);
    }
  }

  lemma {:induction false} InheritedNamed(body: seq<Member>, owner: string, existing: set<string>, t: string)
    ensures Named(InheritedNodes(body, owner, existing), owner, t)
            == if t in existing then [] else Named(InheritedNodes(body, owner, {}), owner, t)
  {
    if body != [] {
      var init, m := body[..|body| - 1], body[|body| - 1];
      InheritedNamed(init, owner, existing, t);
      var some := if m.Def? && "test_" <= m.name && m.name !in existing then DefNodes(m, Some(owner)) else [];
      var every := if m.Def? && "test_" <= m.name then DefNodes(m, Some(owner)) else [];
      NamedConcat(InheritedNodes(init, owner, existing), some, owner, t);
      NamedConcat(InheritedNodes(init, owner, {}), every, owner, t);
      if m.Def? && m.name != t {
        NamedNone(DefNodes(m, Some(owner)), owner, t);
      }
    }
  }

  lemma {:induction false} AddAllNamed(cs: seq<ClassDef>, owner: string, tests: seq<Node>, t: string)
    ensures Named(AddAll(cs, owner, tests), owner, t)
            == if Named(tests, owner, t) != [] then Named(tests, owner, t) else FirstOffer(cs, owner, t)
  {
    if cs != [] {
      var existing := Existing(tests, owner);
      NamedConcat(tests, InheritedNodes(cs[0].body, owner, existing), owner, t);
      InheritedNamed(cs[0].body, owner, existing, t);
      NamedIsExisting(tests, owner, t);
      AddAllNamed(cs[1..], owner, AddFrom(cs[0], owner, tests), t);
    }
  }

  // ----- Other classes do not interfere

  function InnerNames(body: seq<Member>): set<string> {
    if body == [] then {} else InnerNames(body[..|body| - 1]) + MemberNames(body[|body| - 1])
  }

  function MemberNames(m: Member): set<string> {
    match m
    case Inner(c) => if "Test" <= c.name then {c.name} + InnerNames(c.body) else {}
    case Def(_, _, _) => {}
  }

  /** The class names under which a statement records nodes. */
  function CollectedNames(s: Stmt): set<string> {
    if Collected(s) then {s.cls.name} + InnerNames(s.cls.body) else {}
  }

  lemma {:induction false} OwnForeign(body: seq<Member>, name: string, owner: string, t: string)
    requires owner != name && owner !in InnerNames(body)
    ensures Named(OwnNodes(body, name), owner, t) == []
  {
    if body != [] {
      var init, m := body[..|body| - 1], body[|body| - 1];
      OwnForeign(init, name, owner, t);
      NamedConcat(OwnNodes(init, name), MemberNodes(m, name), owner, t);
      MemberForeign(m, name, owner, t);
    }
  }

  lemma {:induction false} MemberForeign(m: Member, name: string, owner: string, t: string)
    requires owner != name && owner !in MemberNames(m)
    ensures Named(MemberNodes(m, name), owner, t) == []
  {
    match m
    case Def(_, _, _) => NamedNone(MemberNodes(m, name), owner, t);
    case Inner(c) =>
      if "Test" <= c.name {
        OwnForeign(c.body, c.name, owner, t);
      }
  }

  lemma {:induction false} InheritedOwner(body: seq<Member>, name: string, existing: set<string>)
    ensures forall k :: 0 <= k < |InheritedNodes(body, name, existing)| ==>
                          InheritedNodes(body, name, existing)[k].className == Some(name)
  {
    if body != [] {
      InheritedOwner(body[..|body| - 1], name, existing);
    }
  }

  lemma {:induction false} AddAllForeign(cs: seq<ClassDef>, name: string, tests: seq<Node>, owner: string, t: string)
    requires owner != name
    ensures Named(AddAll(cs, name, tests), owner, t) == Named(tests, owner, t)
  {
    if cs != [] {
      var existing := Existing(tests, name);
      InheritedOwner(cs[0].body, name, existing);
      NamedConcat(tests, InheritedNodes(cs[0].body, name, existing), owner, t);
      NamedNone(InheritedNodes(cs[0].body, name, existing), owner, t);
      AddAllForeign(cs[1..], name, AddFrom(cs[0], name, tests), owner, t);
    }
  }

  lemma OtherStatement(s: Stmt, all: seq<Stmt>, tests: seq<Node>, d: nat, owner: string, t: string)
    requires WalkFinishes(s, all, d) && owner !in CollectedNames(s)
    ensures Named(ExtractedBy(s, all, tests, d), owner, t) == Named(tests, owner, t)
  {
    match s
    case Function(def) =>
      if def.Def? {
        NamedConcat(tests, DefNodes(def, None), owner, t);
        NamedNone(DefNodes(def, None), owner, t);
      }
    case Class(c) =>
      if "Test" <= c.name {
        OwnForeign(c.body, c.name, owner, t);
        NamedConcat(tests, OwnNodes(c.body, c.name), owner, t);
        AddAllForeign(PreorderOf(all, c.bases, d), c.name, tests + OwnNodes(c.body, c.name), owner, t);
      }
    case Other =>
  }

  /** No statement but `i` records nodes under `owner`. */
  ghost predicate OnlyAt(stmts: seq<Stmt>, i: nat, owner: string) {
    forall k :: 0 <= k < |stmts| && k != i ==> owner !in CollectedNames(stmts[k])
  }

  lemma ExtractedNext(stmts: seq<Stmt>, all: seq<Stmt>, d: nat, n: nat)
    requires WalksFinish(stmts, all, d) && n < |stmts|
    ensures WalksFinish(stmts[..n], all, d) && WalksFinish(stmts[..n + 1], all, d) && WalkFinishes(stmts[n], all, d)
    ensures Extracted(stmts[..n + 1], all, [], d) == ExtractedBy(stmts[n], all, Extracted(stmts[..n], all, [], d), d)
  {
    assert stmts[..n + 1][..n] == stmts[..n];
  }

  /** What a class itself or else the first offering base gives for a test name. */
  ghost function Provided(c: ClassDef, all: seq<Stmt>, d: nat, t: string): seq<Node>
    requires BasesFinish(all, c.bases, d)
  {
    var own := Named(OwnNodes(c.body, c.name), c.name, t);
    if own != [] then own else FirstOffer(PreorderOf(all, c.bases, d), c.name, t)
  }

  /** After the class's own statement. */
  lemma OneClassAt(stmts: seq<Stmt>, all: seq<Stmt>, d: nat, i: nat, t: string)
    requires WalksFinish(stmts, all, d) && i < |stmts| && Collected(stmts[i])
    requires OnlyAt(stmts, i, stmts[i].cls.name)
    ensures WalksFinish(stmts[..i + 1], all, d) && WalkFinishes(stmts[i], all, d)
    ensures Named(Extracted(stmts[..i + 1], all, [], d), stmts[i].cls.name, t) == Provided(stmts[i].cls, all, d, t)
  {
    ExtractedNext(stmts, all, d, i);
    NothingYet(stmts[..i], all, d, stmts[i].cls.name, t);
    ClassStatement(stmts[i], all, Extracted(stmts[..i], all, [], d), d, t);
  }

  /** After the first `n` statements. */
  lemma {:induction false} OneClassSoFar(stmts: seq<Stmt>, all: seq<Stmt>, d: nat, i: nat, t: string, n: nat)
    requires WalksFinish(stmts, all, d) && i < n <= |stmts| && Collected(stmts[i])
    requires OnlyAt(stmts, i, stmts[i].cls.name)
    ensures WalksFinish(stmts[..n], all, d) && WalkFinishes(stmts[i], all, d)
    ensures Named(Extracted(stmts[..n], all, [], d), stmts[i].cls.name, t) == Provided(stmts[i].cls, all, d, t)
  {
    if n == i + 1 {
      OneClassAt(stmts, all, d, i, t);
    } else {
      OneClassSoFar(stmts, all, d, i, t, n - 1);
      ExtractedNext(stmts, all, d, n - 1);
      OtherStatement(stmts[n - 1], all, Extracted(stmts[..n - 1], all, [], d), d, stmts[i].cls.name, t);
    }
  }

  /**
   One definition wins: for every test name, the nodes recorded for a collected class come from a
   single class, the class itself if it has such a test, else the first in depth-first preorder of
   its bases that offers one. Classes met again through a diamond add nothing.
   */
  lemma OneClassProvides(stmts: seq<Stmt>, i: nat, t: string)
    requires Acyclic(stmts) && i < |stmts| && Collected(stmts[i])
    requires OnlyAt(stmts, i, stmts[i].cls.name)
    ensures var c := stmts[i].cls;
            WalksFinish(stmts, stmts, |stmts|) && BasesFinish(stmts, c.bases, |stmts|) &&
            var own := Named(OwnNodes(c.body, c.name), c.name, t);
            Named(Extracted(stmts, stmts, [], |stmts|), c.name, t)
            == if own != [] then own else FirstOffer(PreorderOf(stmts, c.bases, |stmts|), c.name, t)
  {
    FileWalksEndExactly(stmts);
    OneClassSoFar(stmts, stmts, |stmts|, i, t, |stmts|);
    assert stmts[..|stmts|] == stmts;
  }

  lemma ClassStatement(s: Stmt, all: seq<Stmt>, before: seq<Node>, d: nat, t: string)
    requires WalkFinishes(s, all, d) && Collected(s) && Named(before, s.cls.name, t) == []
    ensures var c := s.cls;
            var own := Named(OwnNodes(c.body, c.name), c.name, t);
            Named(ExtractedBy(s, all, before, d), c.name, t)
            == if own != [] then own else FirstOffer(PreorderOf(all, c.bases, d), c.name, t)
  {
    OwnThenInherited(s.cls, PreorderOf(all, s.cls.bases, d), before, t);
  }

  /** Own nodes and then the walk, added to nodes of other classes. */
  lemma OwnThenInherited(c: ClassDef, cs: seq<ClassDef>, before: seq<Node>, t: string)
    requires Named(before, c.name, t) == []
    ensures var own := Named(OwnNodes(c.body, c.name), c.name, t);
            Named(AddAll(cs, c.name, before + OwnNodes(c.body, c.name)), c.name, t)
            == if own != [] then own else FirstOffer(cs, c.name, t)
  {
    NamedConcat(before, OwnNodes(c.body, c.name), c.name, t);
    AddAllNamed(cs, c.name, before + OwnNodes(c.body, c.name), t);
  }

  lemma {:induction false} NothingYet(stmts: seq<Stmt>, all: seq<Stmt>, d: nat, owner: string, t: string)
    requires WalksFinish(stmts, all, d)
    requires forall k :: 0 <= k < |stmts| ==> owner !in CollectedNames(stmts[k])
    ensures Named(Extracted(stmts, all, [], d), owner, t) == []
  {
    if stmts != [] {
      var last := |stmts| - 1;
      NothingYet(stmts[..last], all, d, owner, t);
      assert WalkFinishes(stmts[last], all, d);
      OtherStatement(stmts[last], all, Extracted(stmts[..last], all, [], d), d, owner, t);
    }
  }

  // ----- Which nodes there are

  /** `n` is a node of test method or function `m` under `owner`. */
  predicate IsNodeOf(n: Node, m: Member, owner: Option<string>) {
    && m.Def? && ("test_" <= m.name || "Test" <= m.name)
    && n.className == owner && n.name == m.name && n.line == m.line && n.suffix in m.suffixes
  }

  /** A test yields one node per suffix, in their order; anything else yields none. */
  lemma DefNodesExactly(m: Member, owner: Option<string>)
    requires m.Def?
    ensures var nodes := DefNodes(m, owner);
            && (forall n :: n in nodes <==> IsNodeOf(n, m, owner))
            && |nodes| == (if "test_" <= m.name || "Test" <= m.name then |m.suffixes| else 0)
            && forall k :: 0 <= k < |nodes| ==> nodes[k].suffix == m.suffixes[k]
  {
    var nodes := DefNodes(m, owner);
    forall n | IsNodeOf(n, m, owner)
      ensures n in nodes
    {
      var k :| 0 <= k < |m.suffixes| && m.suffixes[k] == n.suffix;
      assert nodes[k] == n;
    }
  }

  /** `n` is a node of a test method of the class, or of a test class nested in it. */
  predicate DefinedIn(body: seq<Member>, owner: string, n: Node) {
    exists i :: 0 <= i < |body| && DefinedBy(body[i], owner, n)
  }

  predicate DefinedBy(m: Member, owner: string, n: Node) {
    match m
    case Def(_, _, _) => IsNodeOf(n, m, Some(owner))
    case Inner(c) => "Test" <= c.name && DefinedIn(c.body, c.name, n)
  }

  lemma LastDefined(body: seq<Member>, owner: string, n: Node)
    requires body != []
    ensures DefinedIn(body, owner, n) <==>
            DefinedIn(body[..|body| - 1], owner, n) || DefinedBy(body[|body| - 1], owner, n)
  {
    var init := body[..|body| - 1];
    if i :| 0 <= i < |init| && DefinedBy(init[i], owner, n) {
      assert body[i] == init[i];
    }
    if i :| 0 <= i < |body| && DefinedBy(body[i], owner, n) {
      assert i < |init| ==> body[i] == init[i];
    }
  }

  lemma {:induction false} OwnNodesExactly(body: seq<Member>, owner: string, n: Node)
    ensures n in OwnNodes(body, owner) <==> DefinedIn(body, owner, n)
  {
    if body != [] {
      OwnNodesExactly(body[..|body| - 1], owner, n);
      MemberNodesExactly(body[|body| - 1], owner, n);
      LastDefined(body, owner, n);
    }
  }

  lemma {:induction false} MemberNodesExactly(m: Member, owner: string, n: Node)
    ensures n in MemberNodes(m, owner) <==> DefinedBy(m, owner, n)
  {
    match m
    case Def(_, _, _) => DefNodesExactly(m, Some(owner));
    case Inner(c) =>
      if "Test" <= c.name {
        OwnNodesExactly(c.body, c.name, n);
      }
  }

  /** `n` comes from the base's method `m`: a `test_` method whose name is not taken. */
  predicate InheritedFrom(m: Member, owner: string, existing: set<string>, n: Node) {
    IsNodeOf(n, m, Some(owner)) && "test_" <= m.name && m.name !in existing
  }

  predicate InheritedIn(body: seq<Member>, owner: string, existing: set<string>, n: Node) {
    exists i :: 0 <= i < |body| && InheritedFrom(body[i], owner, existing, n)
  }

  lemma LastInherited(body: seq<Member>, owner: string, existing: set<string>, n: Node)
    requires body != []
    ensures InheritedIn(body, owner, existing, n) <==>
            InheritedIn(body[..|body| - 1], owner, existing, n)
            || InheritedFrom(body[|body| - 1], owner, existing, n)
  {
    var init := body[..|body| - 1];
    if i :| 0 <= i < |init| && InheritedFrom(init[i], owner, existing, n) {
      assert body[i] == init[i];
    }
    if i :| 0 <= i < |body| && InheritedFrom(body[i], owner, existing, n) {
      assert i < |init| ==> body[i] == init[i];
    }
  }

  lemma {:induction false} InheritedNodesExactly(body: seq<Member>, owner: string, existing: set<string>, n: Node)
    ensures n in InheritedNodes(body, owner, existing) <==> InheritedIn(body, owner, existing, n)
  {
    if body != [] {
      InheritedNodesExactly(body[..|body| - 1], owner, existing, n);
      LastInherited(body, owner, existing, n);
      if body[|body| - 1].Def? {
        DefNodesExactly(body[|body| - 1], Some(owner));
      }
    }
  }

  /** A name means the first class of that name. */
  lemma {:induction false} FindClassIsFirst(stmts: seq<Stmt>, name: string, i: nat)
    requires i < |stmts| && stmts[i].Class? && stmts[i].cls.name == name
    requires forall k :: 0 <= k < i ==> !(stmts[k].Class? && stmts[k].cls.name == name)
    ensures FindClass(stmts, name) == Some(stmts[i].cls)
  {
    if i > 0 {
      FindClassIsFirst(stmts[1..], name, i - 1);
    }
  }

  lemma {:induction false} AddAllOwner(cs: seq<ClassDef>, owner: string, tests: seq<Node>, n: Node)
    requires n.className.None?
    ensures n in AddAll(cs, owner, tests) <==> n in tests
  {
    if cs != [] {
      InheritedOwner(cs[0].body, owner, Existing(tests, owner));
      AddAllOwner(cs[1..], owner, AddFrom(cs[0], owner, tests), n);
    }
  }

  lemma {:induction false} DefinedHasOwner(body: seq<Member>, owner: string, n: Node)
    requires DefinedIn(body, owner, n)
    ensures n.className.Some?
  {
    var i :| 0 <= i < |body| && DefinedBy(body[i], owner, n);
    DefinedByHasOwner(body[i], owner, n);
  }

  lemma {:induction false} DefinedByHasOwner(m: Member, owner: string, n: Node)
    requires DefinedBy(m, owner, n)
    ensures n.className.Some?
  {
    match m
    case Def(_, _, _) =>
    case Inner(c) => DefinedHasOwner(c.body, c.name, n);
  }

  /** The nodes without a class are those of the test functions of the file. */
  lemma {:induction false} FunctionNodesExactly(stmts: seq<Stmt>, all: seq<Stmt>, d: nat, n: Node)
    requires WalksFinish(stmts, all, d) && n.className.None?
    ensures n in Extracted(stmts, all, [], d) <==>
            exists i :: 0 <= i < |stmts| && stmts[i].Function? && IsNodeOf(n, stmts[i].def, None)
  {
    if stmts != [] {
      var init, last := stmts[..|stmts| - 1], stmts[|stmts| - 1];
      assert WalkFinishes(last, all, d);
      FunctionNodesExactly(init, all, d, n);
      assert forall i :: 0 <= i < |init| ==> stmts[i] == init[i];
      StatementFunctionNodes(last, all, Extracted(init, all, [], d), d, n);
    }
  }

  lemma StatementFunctionNodes(s: Stmt, all: seq<Stmt>, tests: seq<Node>, d: nat, n: Node)
    requires WalkFinishes(s, all, d) && n.className.None?
    ensures n in ExtractedBy(s, all, tests, d) <==> n in tests || (s.Function? && IsNodeOf(n, s.def, None))
  {
    match s
    case Function(def) =>
      if def.Def? {
        DefNodesExactly(def, None);
      }
    case Class(c) =>
      if "Test" <= c.name {
        AddAllOwner(PreorderOf(all, c.bases, d), c.name, tests + OwnNodes(c.body, c.name), n);
        OwnNodesExactly(c.body, c.name, n);
        if DefinedIn(c.body, c.name, n) {
          DefinedHasOwner(c.body, c.name, n);
        }
      }
    case Other =>
  }
}
