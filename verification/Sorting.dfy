/** Stable sorting by a numeric key. */
module Sorting {
  import opened Counting

  function Insert<T>(x: T, s: seq<T>, key: T -> nat): (r: seq<T>)
    ensures |r| == |s| + 1
  {
    if s == [] || key(x) < key(s[0]) then [x] + s else [s[0]] + Insert(x, s[1..], key)
  }

  /** The elements in key order; equal keys keep their order. */
  function SortBy<T>(s: seq<T>, key: T -> nat): (r: seq<T>)
    ensures |r| == |s|
  {
    if s == [] then [] else Insert(s[|s| - 1], SortBy(s[..|s| - 1], key), key)
  }

  predicate Ascending<T>(s: seq<T>, key: T -> nat) {
    forall i, j :: 0 <= i < j < |s| ==> key(s[i]) <= key(s[j])
  }

  predicate StrictlyAscending<T>(s: seq<T>, key: T -> nat) {
    forall i, j :: 0 <= i < j < |s| ==> key(s[i]) < key(s[j])
  }

  lemma {:induction false} InsertElements<T>(x: T, s: seq<T>, key: T -> nat)
    ensures multiset(Insert(x, s, key)) == multiset(s) + multiset{x}
  {
    if s != [] && !(key(x) < key(s[0])) {
      InsertElements(x, s[1..], key);
      assert s == [s[0]] + s[1..];
    }
  }

  lemma AscendingCons<T>(x: T, s: seq<T>, key: T -> nat)
    requires Ascending(s, key) && forall y :: y in s ==> key(x) <= key(y)
    ensures Ascending([x] + s, key)
  {
    var all := [x] + s;
    forall i, j | 0 <= i < j < |all|
      ensures key(all[i]) <= key(all[j])
    {
      assert all[j] == s[j - 1] && s[j - 1] in s;
      if i > 0 { assert all[i] == s[i - 1]; }
    }
  }

  lemma {:induction false} InsertAscends<T>(x: T, s: seq<T>, key: T -> nat)
    requires Ascending(s, key)
    ensures Ascending(Insert(x, s, key), key)
  {
    if s == [] {
    } else if key(x) < key(s[0]) {
      AscendingCons(x, s, key);
    } else {
      var rest := Insert(x, s[1..], key);
      InsertAscends(x, s[1..], key);
      InsertElements(x, s[1..], key);
      forall y | y in rest
        ensures key(s[0]) <= key(y)
      {
        assert y in multiset(rest);
        assert y == x || y in s[1..];
      }
      AscendingCons(s[0], rest, key);
    }
  }

  lemma {:induction false} SortBySorts<T>(s: seq<T>, key: T -> nat)
    ensures Ascending(SortBy(s, key), key)
    ensures multiset(SortBy(s, key)) == multiset(s)
  {
    if s != [] {
      var last := |s| - 1;
      var before := SortBy(s[..last], key);
      assert SortBy(s, key) == Insert(s[last], before, key);
      hide SortBy, Insert, Ascending;
      SortBySorts(s[..last], key);
      InsertAscends(s[last], before, key);
      InsertElements(s[last], before, key);
      assert s == s[..last] + [s[last]];
    }
  }

  lemma SameLeast<T>(a: seq<T>, b: seq<T>, key: T -> nat)
    requires StrictlyAscending(a, key) && Ascending(b, key) && a != [] && b != []
    requires a[0] in b && b[0] in a
    ensures a[0] == b[0]
  {
    var i :| 0 <= i < |b| && b[i] == a[0];
    var j :| 0 <= j < |a| && a[j] == b[0];
    assert key(b[0]) <= key(b[i]);
  }

  /** A sequence with strictly ascending keys is the only ascending arrangement of its elements. */
  lemma {:induction false} OnlyArrangement<T>(a: seq<T>, b: seq<T>, key: T -> nat)
    requires StrictlyAscending(a, key) && Ascending(b, key)
    requires multiset(a) == multiset(b)
    ensures a == b
  {
    SameElements(a, b);
    if a != [] {
      SameLeast(a, b, key);
      TailElements(a, b);
      OnlyArrangement(a[1..], b[1..], key);
      assert a == [a[0]] + a[1..] && b == [b[0]] + b[1..];
    }
  }

  /** Sorting any arrangement of such a sequence gives the sequence. */
  lemma SortRecovers<T>(s: seq<T>, arranged: seq<T>, key: T -> nat)
    requires StrictlyAscending(s, key) && multiset(arranged) == multiset(s)
    ensures SortBy(arranged, key) == s
  {
    SortBySorts(arranged, key);
    OnlyArrangement(s, SortBy(arranged, key), key);
  }
}
