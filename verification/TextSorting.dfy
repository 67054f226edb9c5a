/** Sorting by a text key, in code point order. */
module TextSorting {
  import opened Counting

  /** Code point order, a proper prefix first. */
  predicate Less(a: string, b: string) {
    if b == "" then false
    else if a == "" then true
    else a[0] < b[0] || (a[0] == b[0] && Less(a[1..], b[1..]))
  }

  lemma {:induction false} LessTotal(a: string, b: string)
    ensures Less(a, b) || a == b || Less(b, a)
    ensures !(Less(a, b) && Less(b, a)) && !Less(a, a)
  {
    if a != "" && b != "" {
      LessTotal(a[1..], b[1..]);
      if a[0] == b[0] && a[1..] == b[1..] {
        assert a == [a[0]] + a[1..] && b == [b[0]] + b[1..];
      }
    }
    if a != "" { LessTotal(a[1..], a[1..]); }
  }

  /** The texts agree before `k`, where the first one ends or has the smaller character. */
  ghost predicate SmallerAt(a: string, b: string, k: nat) {
    k <= |a| && k < |b| && a[..k] == b[..k] && (k == |a| || a[k] < b[k])
  }

  lemma SameFirst(a: string, b: string, k: nat)
    requires k <= |a| && k <= |b| && a[..k] == b[..k]
    ensures k > 0 ==> a[0] == b[0]
  {
    if k > 0 { assert a[0] == a[..k][0] && b[0] == b[..k][0]; }
  }

  lemma {:induction false} LessExact(a: string, b: string)
    ensures Less(a, b) <==> exists k: nat :: SmallerAt(a, b, k)
  {
    if a == "" || b == "" {
      if b != "" { assert SmallerAt(a, b, 0); }
    } else if a[0] != b[0] {
      if a[0] < b[0] { assert SmallerAt(a, b, 0); }
      forall k: nat | SmallerAt(a, b, k) { SameFirst(a, b, k); }
    } else {
      LessExact(a[1..], b[1..]);
      assert a == [a[0]] + a[1..] && b == [b[0]] + b[1..];
      if k: nat :| SmallerAt(a[1..], b[1..], k) {
        assert a[..k + 1] == [a[0]] + a[1..][..k] && b[..k + 1] == [b[0]] + b[1..][..k];
        assert SmallerAt(a, b, k + 1);
      }
      if k: nat :| SmallerAt(a, b, k) {
        assert k > 0;
        assert a[1..][..k - 1] == a[..k][1..] && b[1..][..k - 1] == b[..k][1..];
        assert SmallerAt(a[1..], b[1..], k - 1);
      }
    }
  }

  lemma {:induction false} LessTransitive(a: string, b: string, c: string)
    requires !Less(b, a) && !Less(c, b)
    ensures !Less(c, a)
  {
    if a != "" && b != "" && c != "" && a[0] == b[0] && b[0] == c[0] {
      LessTransitive(a[1..], b[1..], c[1..]);
    }
  }

  function Insert<T>(x: T, s: seq<T>, key: T -> string): (r: seq<T>)
    ensures |r| == |s| + 1
  {
    if s == [] || Less(key(x), key(s[0])) then [x] + s else [s[0]] + Insert(x, s[1..], key)
  }

  /** A stable sort. */
  function SortByText<T>(s: seq<T>, key: T -> string): (r: seq<T>)
    ensures |r| == |s|
  {
    if s == [] then [] else Insert(s[|s| - 1], SortByText(s[..|s| - 1], key), key)
  }

  predicate Ascending<T>(s: seq<T>, key: T -> string) {
    forall i, j :: 0 <= i < j < |s| ==> !Less(key(s[j]), key(s[i]))
  }

  lemma {:induction false} InsertElements<T>(x: T, s: seq<T>, key: T -> string)
    ensures multiset(Insert(x, s, key)) == multiset(s) + multiset{x}
  {
    if s != [] && !Less(key(x), key(s[0])) {
      InsertElements(x, s[1..], key);
      assert s == [s[0]] + s[1..];
    }
  }

  lemma AscendingCons<T>(x: T, s: seq<T>, key: T -> string)
    requires Ascending(s, key) && forall y :: y in s ==> !Less(key(y), key(x))
    ensures Ascending([x] + s, key)
  {
    var all := [x] + s;
    forall i, j | 0 <= i < j < |all|
      ensures !Less(key(all[j]), key(all[i]))
    {
      assert all[j] == s[j - 1] && s[j - 1] in s;
      if i > 0 { assert all[i] == s[i - 1]; }
    }
  }

  /** What comes before the first of an ascending sequence comes before all of it. */
  lemma BeforeAll<T>(x: T, s: seq<T>, key: T -> string)
    requires Ascending(s, key) && s != [] && !Less(key(s[0]), key(x))
    ensures forall y :: y in s ==> !Less(key(y), key(x))
  {
    forall y | y in s
      ensures !Less(key(y), key(x))
    {
      var j :| 0 <= j < |s| && s[j] == y;
      if j > 0 { LessTransitive(key(x), key(s[0]), key(s[j])); }
    }
  }

  lemma {:induction false} InsertAscends<T>(x: T, s: seq<T>, key: T -> string)
    requires Ascending(s, key)
    ensures Ascending(Insert(x, s, key), key)
  {
    if s == [] {
    } else if Less(key(x), key(s[0])) {
      LessTotal(key(x), key(s[0]));
      BeforeAll(x, s, key);
      AscendingCons(x, s, key);
    } else {
      var rest := Insert(x, s[1..], key);
      InsertAscends(x, s[1..], key);
      InsertElements(x, s[1..], key);
      LessTotal(key(s[0]), key(s[0]));
      BeforeAll(s[0], s, key);
      forall y | y in rest
        ensures !Less(key(y), key(s[0]))
      {
        assert y in multiset(rest);
        assert y == x || y in s[1..];
      }
      AscendingCons(s[0], rest, key);
    }
  }

  lemma {:induction false} SortByTextSorts<T>(s: seq<T>, key: T -> string)
    ensures Ascending(SortByText(s, key), key)
    ensures multiset(SortByText(s, key)) == multiset(s)
  {
    if s != [] {
      var last := |s| - 1;
      var before := SortByText(s[..last], key);
      assert SortByText(s, key) == Insert(s[last], before, key);
      hide SortByText, Insert, Ascending;
      SortByTextSorts(s[..last], key);
      InsertAscends(s[last], before, key);
      InsertElements(s[last], before, key);
      assert s == s[..last] + [s[last]];
    }
  }

  lemma {:induction false} InsertLast<T>(x: T, s: seq<T>, key: T -> string)
    requires Ascending(s + [x], key)
    ensures Insert(x, s, key) == s + [x]
  {
    if s != [] {
      var all := s + [x];
      assert all[|s|] == x && all[0] == s[0];
      assert all[1..] == s[1..] + [x];
      InsertLast(x, s[1..], key);
    }
  }

  /** What is in order stays as it is. */
  lemma {:induction false} SortByTextSorted<T>(s: seq<T>, key: T -> string)
    requires Ascending(s, key)
    ensures SortByText(s, key) == s
  {
    if s != [] {
      var last := |s| - 1;
      SortByTextSorted(s[..last], key);
      assert s[..last] + [s[last]] == s;
      InsertLast(s[last], s[..last], key);
    }
  }

  /** Elements with one key are one element. */
  ghost predicate KeyDetermines<T(!new)>(s: seq<T>, key: T -> string) {
    forall x, y :: x in s && y in s && key(x) == key(y) ==> x == y
  }

  lemma SameLeast<T(!new)>(a: seq<T>, b: seq<T>, key: T -> string)
    requires a != [] && b != [] && Ascending(a, key) && Ascending(b, key) && KeyDetermines(a, key)
    requires a[0] in b && b[0] in a
    ensures a[0] == b[0]
  {
    var i :| 0 <= i < |b| && b[i] == a[0];
    var j :| 0 <= j < |a| && a[j] == b[0];
    LessTotal(key(a[0]), key(b[0]));
    assert !Less(key(b[i]), key(b[0])) || i == 0;
    assert !Less(key(a[j]), key(a[0])) || j == 0;
    assert key(a[0]) == key(b[0]);
  }

  lemma TailKeeps<T(!new)>(a: seq<T>, key: T -> string)
    requires a != [] && Ascending(a, key)
    ensures Ascending(a[1..], key)
    ensures KeyDetermines(a, key) ==> KeyDetermines(a[1..], key)
  {
    assert forall x :: x in a[1..] ==> x in a;
  }

  /** If keys identify the elements, ascending arrangements of the same elements are equal. */
  lemma {:induction false} OneArrangement<T(!new)>(a: seq<T>, b: seq<T>, key: T -> string)
    requires Ascending(a, key) && Ascending(b, key) && KeyDetermines(a, key)
    requires multiset(a) == multiset(b)
    ensures a == b
  {
    SameElements(a, b);
    if a != [] {
      SameLeast(a, b, key);
      TailElements(a, b);
      TailKeeps(a, key);
      TailKeeps(b, key);
      OneArrangement(a[1..], b[1..], key);
      assert a == [a[0]] + a[1..] && b == [b[0]] + b[1..];
    }
  }

  lemma SortedOnce<T(!new)>(a: seq<T>, b: seq<T>, key: T -> string)
    requires multiset(a) == multiset(b) && KeyDetermines(a, key)
    ensures SortByText(a, key) == SortByText(b, key)
  {
    SortByTextSorts(a, key);
    SortByTextSorts(b, key);
    forall x | x in SortByText(a, key)
      ensures x in a
    {
      assert x in multiset(SortByText(a, key));
    }
    OneArrangement(SortByText(a, key), SortByText(b, key), key);
  }
}
