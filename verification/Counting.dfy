/** Sizes of sets and sequences: the pigeonhole arguments behind deciding by counting. */
module Counting {
  /** The numbers 1..n. */
  function UpTo(n: nat): (s: set<nat>)
    ensures forall k :: k in s <==> 1 <= k <= n
  {
    if n == 0 then {} else UpTo(n - 1) + {n}
  }

  ghost predicate AllDistinct<T(!new)>(xs: seq<T>) {
    forall i, j | 0 <= i < j < |xs| :: xs[i] != xs[j]
  }

  ghost function Elements<T>(xs: seq<T>): set<T> {
    set x | x in xs
  }

  lemma {:induction false} UpToSize(n: nat)
    ensures |UpTo(n)| == n
  {
    if n > 0 {
      UpToSize(n - 1);
    }
  }

  lemma {:induction false} DistinctSize<T(!new)>(xs: seq<T>)
    requires AllDistinct(xs)
    ensures |Elements(xs)| == |xs|
  {
    if xs == [] {
      assert Elements(xs) == {};
    } else {
      var n := |xs| - 1;
      DistinctSize(xs[..n]);
      assert xs[n] !in xs[..n];
      assert Elements(xs) == Elements(xs[..n]) + {xs[n]};
    }
  }

  lemma {:induction false} ElementsAtMost<T(!new)>(xs: seq<T>)
    ensures |Elements(xs)| <= |xs|
  {
    if xs == [] {
      assert Elements(xs) == {};
    } else {
      var n := |xs| - 1;
      ElementsAtMost(xs[..n]);
      assert Elements(xs) == Elements(xs[..n]) + {xs[n]};
    }
  }

  lemma RepeatedIsFewer<T(!new)>(xs: seq<T>, i: nat, j: nat)
    requires i < j < |xs| && xs[i] == xs[j]
    ensures |Elements(xs)| < |xs|
  {
    var fewer := xs[..j] + xs[j + 1..];
    ElementsAtMost(fewer);
    forall x | x in xs ensures x in fewer {
      var k :| 0 <= k < |xs| && xs[k] == x;
      assert fewer[if k < j then k else if k == j then i else k - 1] == x;
    }
    assert Elements(xs) == Elements(fewer);
  }

  lemma SubsetSize<T>(a: set<T>, b: set<T>)
    requires a <= b
    ensures |a| <= |b|
    ensures |a| == |b| ==> a == b
  {
    assert b == a + (b - a);
    assert |b| == |a| + |b - a|;
    if a != b {
      var x :| x in b && x !in a;
      assert x in b - a;
    }
  }

  /** No finite set holds every number. */
  lemma SomeNumberIsNew(s: set<nat>)
    ensures exists k: nat :: k !in s
  {
    var n := |s| + 1;
    if forall k: nat :: k in s {
      SubsetSize(UpTo(n), s);
      UpToSize(n);
    }
  }

  /** Distinct elements of a finite set are all of it exactly when there are as many. */
  lemma Pigeonhole<T(!new)>(xs: seq<T>, s: set<T>)
    requires AllDistinct(xs) && forall x | x in xs :: x in s
    ensures |xs| == |s| <==> forall x | x in s :: x in xs
  {
    DistinctSize(xs);
    SubsetSize(Elements(xs), s);
    if forall x | x in s :: x in xs {
      assert Elements(xs) == s;
    }
    if |xs| == |s| {
      forall x | x in s ensures x in xs {
        assert x in Elements(xs);
      }
    }
  }

  lemma {:induction false} CountOf<T(!new)>(xs: seq<T>, x: T)
    requires AllDistinct(xs)
    ensures multiset(xs)[x] == if x in xs then 1 else 0
  {
    if xs != [] {
      var n := |xs| - 1;
      CountOf(xs[..n], x);
      assert xs == xs[..n] + [xs[n]];
    }
  }

  lemma RepeatedTwice<T(!new)>(xs: seq<T>, i: nat, j: nat)
    requires i < j < |xs| && xs[i] == xs[j]
    ensures multiset(xs)[xs[i]] >= 2
  {
    assert xs == xs[..i] + [xs[i]] + xs[i + 1..j] + [xs[j]] + xs[j + 1..];
  }

  /** Two listings without repetition are orderings of each other exactly when they have the same elements. */
  lemma SameUpToOrder<T(!new)>(xs: seq<T>, ys: seq<T>)
    requires AllDistinct(ys)
    ensures multiset(xs) == multiset(ys) <==> AllDistinct(xs) && forall x :: x in xs <==> x in ys
  {
    if multiset(xs) == multiset(ys) {
      forall x ensures x in xs <==> x in ys {
        assert x in multiset(xs) <==> x in multiset(ys);
      }
      if i, j :| 0 <= i < j < |xs| && xs[i] == xs[j] {
        RepeatedTwice(xs, i, j);
        CountOf(ys, xs[i]);
      }
    }
    if AllDistinct(xs) && forall x :: x in xs <==> x in ys {
      forall x ensures multiset(xs)[x] == multiset(ys)[x] {
        CountOf(xs, x);
        CountOf(ys, x);
      }
    }
  }
}
