/**
 Stable sorting by a key, largest key first.

 `IsStableSort` says what a stable sort returns without naming an algorithm, `StableSortUnique` that
 it determines the result, and `SortDesc` is one function that meets it.
 */
module StableSort {

  ghost predicate Descending<T>(key: T -> nat, s: seq<T>) {
    forall i, j :: 0 <= i < j < |s| ==> key(s[j]) <= key(s[i])
  }

  /** The elements of `s` with key `v`, in their order. */
  function OfKey<T>(key: T -> nat, s: seq<T>, v: nat): seq<T> {
    if s == [] then []
    else OfKey(key, s[..|s| - 1], v) + (if key(s[|s| - 1]) == v then [s[|s| - 1]] else [])
  }

  /** `q` and `r` hold, for every key, the same elements in the same order. */
  ghost predicate SameClasses<T(!new)>(key: T -> nat, q: seq<T>, r: seq<T>) {
    forall v :: OfKey(key, q, v) == OfKey(key, r, v)
  }

  ghost predicate IsStableSort<T(!new)>(key: T -> nat, s: seq<T>, r: seq<T>) {
    multiset(r) == multiset(s) && Descending(key, r) && SameClasses(key, r, s)
  }

  /** Put `x` behind the elements of `s` whose key is at least its own. */
  function Insert<T>(key: T -> nat, s: seq<T>, x: T): (r: seq<T>) {
    if s == [] || key(x) <= key(s[|s| - 1]) then s + [x]
    else Insert(key, s[..|s| - 1], x) + [s[|s| - 1]]
  }

  function SortDesc<T>(key: T -> nat, s: seq<T>): (r: seq<T>) {
    if s == [] then [] else Insert(key, SortDesc(key, s[..|s| - 1]), s[|s| - 1])
  }

  lemma OfKeyLast<T>(key: T -> nat, s: seq<T>, x: T, v: nat)
    ensures OfKey(key, s + [x], v) == OfKey(key, s, v) + (if key(x) == v then [x] else [])
  {
    assert (s + [x])[..|s|] == s;
  }

  lemma {:induction false} InsertAdds<T>(key: T -> nat, s: seq<T>, x: T)
    ensures multiset(Insert(key, s, x)) == multiset(s) + multiset{x}
  {
    if s != [] && key(x) > key(s[|s| - 1]) {
      InsertAdds(key, s[..|s| - 1], x);
      assert s == s[..|s| - 1] + [s[|s| - 1]];
    }
  }

  lemma {:induction false} InsertDescending<T>(key: T -> nat, s: seq<T>, x: T)
    requires Descending(key, s)
    ensures Descending(key, Insert(key, s, x))
  {
    if s != [] && key(x) > key(s[|s| - 1]) {
      var s', y := s[..|s| - 1], s[|s| - 1];
      InsertDescending(key, s', x);
      InsertAdds(key, s', x);
      KeysAtLeast(key, s', x, Insert(key, s', x), key(y));
    }
  }

  lemma KeysAtLeast<T>(key: T -> nat, s: seq<T>, x: T, r: seq<T>, v: nat)
    requires multiset(r) == multiset(s) + multiset{x}
    requires v <= key(x) && forall k :: 0 <= k < |s| ==> v <= key(s[k])
    ensures forall k :: 0 <= k < |r| ==> v <= key(r[k])
  {
    forall k | 0 <= k < |r|
      ensures v <= key(r[k])
    {
      assert r[k] in multiset(r);
    }
  }

  lemma {:induction false} InsertOfKey<T>(key: T -> nat, s: seq<T>, x: T, v: nat)
    requires Descending(key, s)
    ensures OfKey(key, Insert(key, s, x), v) == OfKey(key, s, v) + (if key(x) == v then [x] else [])
  {
    if s == [] || key(x) <= key(s[|s| - 1]) {
      OfKeyLast(key, s, x, v);
    } else {
      var s', y := s[..|s| - 1], s[|s| - 1];
      InsertOfKey(key, s', x, v);
      OfKeyLast(key, Insert(key, s', x), y, v);
    }
  }

  lemma {:induction false} SortDescIsStableSort<T(!new)>(key: T -> nat, s: seq<T>)
    ensures IsStableSort(key, s, SortDesc(key, s))
  {
    if s != [] {
      var s', x := s[..|s| - 1], s[|s| - 1];
      assert s == s' + [x];
      SortDescIsStableSort(key, s');
      InsertDescending(key, SortDesc(key, s'), x);
      InsertAdds(key, SortDesc(key, s'), x);
      forall v: nat {
        InsertOfKey(key, SortDesc(key, s'), x, v);
      }
    }
  }

  /** Whatever algorithm sorts stably, it returns the same sequence. */
  lemma {:induction false} StableSortUnique<T(!new)>(key: T -> nat, q: seq<T>, r: seq<T>)
    requires |q| == |r| && Descending(key, q) && Descending(key, r)
    requires SameClasses(key, q, r)
    ensures q == r
  {
    if q != [] {
      var q', r' := q[..|q| - 1], r[..|r| - 1];
      var x, y := q[|q| - 1], r[|r| - 1];
      LastKeyIsLeast(key, q, r);
      LastKeyIsLeast(key, r, q);
      assert OfKey(key, q, key(x)) == OfKey(key, r, key(x));
      assert OfKey(key, q', key(x)) + [x] == OfKey(key, r', key(x)) + [y];
      assert x == y by {
        LastOfEqual(OfKey(key, q', key(x)), x, OfKey(key, r', key(x)), y);
      }
      forall v: nat
        ensures OfKey(key, q', v) == OfKey(key, r', v)
      {
        assert OfKey(key, q, v) == OfKey(key, r, v);
        if key(x) == v {
          LastOfEqual(OfKey(key, q', v), x, OfKey(key, r', v), y);
        } else {
          assert OfKey(key, q, v) == OfKey(key, q', v) && OfKey(key, r, v) == OfKey(key, r', v);
        }
      }
      StableSortUnique(key, q', r');
      assert q == q' + [x] && r == r' + [y];
    }
  }

  lemma LastOfEqual<T>(a: seq<T>, x: T, b: seq<T>, y: T)
    requires a + [x] == b + [y]
    ensures a == b && x == y
  {
    assert (a + [x])[|a|] == x && (b + [y])[|b|] == y;
    assert a == (a + [x])[..|a|] && b == (b + [y])[..|b|];
  }

  lemma LastKeyIsLeast<T(!new)>(key: T -> nat, q: seq<T>, r: seq<T>)
    requires |q| == |r| > 0 && Descending(key, r) && SameClasses(key, q, r)
    ensures key(r[|r| - 1]) <= key(q[|q| - 1])
  {
    var x := q[|q| - 1];
    var c := OfKey(key, q, key(x));
    assert c == OfKey(key, r, key(x)) && c[|c| - 1] == x;
    var _, _ := OfKeyOrigin(key, r, key(x), |c| - 1, |c| - 1);
  }

  /** `x` occurs somewhere before an occurrence of `y`. */
  ghost predicate Before<T>(s: seq<T>, x: T, y: T) {
    exists i, j :: 0 <= i < j < |s| && s[i] == x && s[j] == y
  }

  lemma {:induction false} OfKeyOrigin<T>(key: T -> nat, s: seq<T>, v: nat, i: nat, j: nat) returns (a: nat, b: nat)
    requires i <= j < |OfKey(key, s, v)|
    ensures a <= b < |s| && (i < j ==> a < b)
    ensures s[a] == OfKey(key, s, v)[i] && s[b] == OfKey(key, s, v)[j]
    ensures key(s[a]) == v && key(s[b]) == v
  {
    var last := |s| - 1;
    var o := OfKey(key, s[..last], v);
    if j < |o| {
      a, b := OfKeyOrigin(key, s[..last], v, i, j);
    } else {
      b := last;
      if i < j {
        a, b := OfKeyOrigin(key, s[..last], v, i, i);
        b := last;
      } else {
        a := last;
      }
    }
  }

  lemma {:induction false} OfKeyImage<T>(key: T -> nat, s: seq<T>, a: nat, b: nat) returns (i: nat, j: nat)
    requires a <= b < |s| && key(s[a]) == key(s[b])
    ensures i <= j < |OfKey(key, s, key(s[a]))| && (a < b ==> i < j)
    ensures OfKey(key, s, key(s[a]))[i] == s[a] && OfKey(key, s, key(s[a]))[j] == s[b]
  {
    var last := |s| - 1;
    var v := key(s[a]);
    if b < last {
      i, j := OfKeyImage(key, s[..last], a, b);
    } else {
      j := |OfKey(key, s, v)| - 1;
      if a < b {
        i, j := OfKeyImage(key, s[..last], a, a);
        j := |OfKey(key, s, v)| - 1;
      } else {
        i := j;
      }
    }
  }

  /** Stability, element by element: a stable sort keeps the order of elements with equal keys. */
  lemma StableKeepsBefore<T(!new)>(key: T -> nat, s: seq<T>, r: seq<T>, x: T, y: T)
    requires SameClasses(key, s, r)
    requires key(x) == key(y) && Before(s, x, y)
    ensures Before(r, x, y)
  {
    var a, b :| 0 <= a < b < |s| && s[a] == x && s[b] == y;
    var i, j := OfKeyImage(key, s, a, b);
    assert OfKey(key, r, key(x)) == OfKey(key, s, key(x));
    var a', b' := OfKeyOrigin(key, r, key(x), i, j);
  }

  lemma HigherKeyBefore<T(!new)>(key: T -> nat, s: seq<T>, r: seq<T>, x: T, y: T)
    requires IsStableSort(key, s, r)
    requires x in s && y in s && key(x) > key(y)
    ensures Before(r, x, y)
  {
    assert x in multiset(r) && y in multiset(r);
    var i, j :| 0 <= i < |r| && 0 <= j < |r| && r[i] == x && r[j] == y;
    assert i < j;
  }
}
