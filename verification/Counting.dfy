/** Sizes of finite sets and of sequences without repetition. */
module Counting {

  predicate Distinct<T(==)>(s: seq<T>) {
    forall i, j :: 0 <= i < j < |s| ==> s[i] != s[j]
  }

  function Members<T(!new)>(s: seq<T>): (r: set<T>)
    ensures forall x :: x in r <==> x in s
  {
    set x | x in s
  }

  /** The elements of a set in some order. */
  method Listed<T(==, !new)>(s: set<T>) returns (r: seq<T>)
    ensures Distinct(r) && Members(r) == s
  {
    r := [];
    var rest := s;
    while rest != {}
      invariant Distinct(r) && Members(r) !! rest && Members(r) + rest == s
      decreases |rest|
    {
      var x :| x in rest;
      assert x !in Members(r);
      assert Members(r + [x]) == Members(r) + {x};
      r, rest := r + [x], rest - {x};
    }
  }

  /** Where an element first occurs. */
  function Position<T(==)>(s: seq<T>, x: T): (i: nat)
    requires x in s
    ensures i < |s| && s[i] == x && x !in s[..i]
  {
    if s[0] == x then 0 else 1 + Position(s[1..], x)
  }

  lemma PositionOf<T(!new)>(s: seq<T>, i: nat)
    requires Distinct(s) && i < |s|
    ensures Position(s, s[i]) == i
  {
  }

  lemma {:induction false} DistinctSize<T(!new)>(s: seq<T>)
    requires Distinct(s)
    ensures |Members(s)| == |s|
  {
    if s == [] {
      assert Members(s) == {};
    } else {
      var last := |s| - 1;
      DistinctSize(s[..last]);
      assert s == s[..last] + [s[last]];
      assert s[last] !in s[..last];
      assert Members(s) == Members(s[..last]) + {s[last]};
    }
  }

  lemma {:induction false} SubsetSize<T>(small: set<T>, large: set<T>)
    requires small <= large
    ensures |small| <= |large|
    ensures |small| == |large| ==> small == large
  {
    if small != {} {
      var x :| x in small;
      SubsetSize(small - {x}, large - {x});
      assert small == (small - {x}) + {x} && large == (large - {x}) + {x};
    }
  }

  /** At most one occurrence of anything, as a count. */
  lemma {:induction false} DistinctCounts<T(!new)>(s: seq<T>)
    ensures Distinct(s) <==> forall x :: multiset(s)[x] <= 1
  {
    if s != [] {
      DistinctCounts(s[1..]);
      assert s == [s[0]] + s[1..];
      assert multiset(s) == multiset{s[0]} + multiset(s[1..]);
      if Distinct(s) {
        assert s[0] !in s[1..];
        assert Distinct(s[1..]);
      } else if s[0] in s[1..] {
        assert multiset(s)[s[0]] >= 2;
      } else {
        assert !Distinct(s[1..]);
        var x :| multiset(s[1..])[x] > 1;
        assert multiset(s)[x] > 1;
      }
    }
  }

  /** A rearrangement has the same members, and repeats nothing if the original does not. */
  lemma Rearranged<T(!new)>(a: seq<T>, b: seq<T>)
    requires multiset(a) == multiset(b)
    ensures |a| == |b| && Members(a) == Members(b) && (Distinct(a) <==> Distinct(b))
  {
    DistinctCounts(a);
    DistinctCounts(b);
    assert |multiset(a)| == |a| && |multiset(b)| == |b|;
    forall x
      ensures x in a <==> x in b
    {
      assert x in a <==> x in multiset(a);
      assert x in b <==> x in multiset(b);
    }
  }

  /** Rearrangements are equally long, and each holds the first element of the other. */
  lemma SameElements<T>(a: seq<T>, b: seq<T>)
    requires multiset(a) == multiset(b)
    ensures |a| == |b| && (a != [] ==> a[0] in b && b[0] in a)
  {
    assert |multiset(a)| == |a| && |multiset(b)| == |b|;
    if a != [] {
      assert a[0] in multiset(b) && b[0] in multiset(a);
    }
  }

  /** With equal first elements, what is left is a rearrangement too. */
  lemma TailElements<T>(a: seq<T>, b: seq<T>)
    requires multiset(a) == multiset(b) && a != [] && b != [] && a[0] == b[0]
    ensures multiset(a[1..]) == multiset(b[1..])
  {
    assert a == [a[0]] + a[1..] && b == [b[0]] + b[1..];
    assert multiset(a[1..]) == multiset(a) - multiset{a[0]};
    assert multiset(b[1..]) == multiset(b) - multiset{b[0]};
  }

  function Below(n: nat): (s: set<int>)
    ensures |s| == n
    ensures forall k :: k in s <==> 0 <= k < n
  {
    if n == 0 then {} else Below(n - 1) + {n - 1}
  }

  /** Distinct numbers below a bound are no more than the bound, and if as many, all of them. */
  lemma DistinctBelow(s: seq<int>, bound: nat)
    requires Distinct(s)
    requires forall x :: x in s ==> 0 <= x < bound
    ensures |s| <= bound
    ensures |s| == bound ==> forall k :: 0 <= k < bound ==> k in s
  {
    DistinctSize(s);
    SubsetSize(Members(s), Below(bound));
    if |s| == bound {
      forall k | 0 <= k < bound
        ensures k in s
      {
        assert k in Below(bound);
      }
    }
  }
}
