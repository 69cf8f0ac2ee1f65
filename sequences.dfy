/** Sequence facts the dashboard model is built on: order-preserving
    subsequences, duplicate-free sequences, pandas' `unique()` (distinct
    values in order of first appearance) and Python's `sorted()` over
    strings. */
module Sequences {

  /** `a` is what remains of `b` after deleting some elements; the rest keep
      their order and their values. */
  predicate IsSubsequence<T(==)>(a: seq<T>, b: seq<T>)
    decreases |b|
  {
    if |a| == 0 then true
    else if |b| == 0 then false
    else (a[0] == b[0] && IsSubsequence(a[1..], b[1..])) || IsSubsequence(a, b[1..])
  }

  lemma {:induction false} SubsequenceReflexive<T>(s: seq<T>)
    ensures IsSubsequence(s, s)
  {
    if |s| > 0 {
      SubsequenceReflexive(s[1..]);
    }
  }

  /** Chaining two deletions is a deletion: a cascade of filters never
      reorders or invents rows. */
  lemma {:induction false} SubsequenceTransitive<T>(a: seq<T>, b: seq<T>, c: seq<T>)
    requires IsSubsequence(a, b) && IsSubsequence(b, c)
    ensures IsSubsequence(a, c)
    decreases |c|
  {
    if |a| > 0 {
      if IsSubsequence(b, c[1..]) {
        SubsequenceTransitive(a, b, c[1..]);
      } else if a[0] == b[0] && IsSubsequence(a[1..], b[1..]) {
        SubsequenceTransitive(a[1..], b[1..], c[1..]);
      } else {
        SubsequenceTransitive(a, b[1..], c[1..]);
      }
    }
  }

  /** A subsequence is never longer than its source and holds only its
      source's elements. */
  lemma {:induction false} SubsequenceBounds<T>(a: seq<T>, b: seq<T>)
    requires IsSubsequence(a, b)
    ensures |a| <= |b|
    ensures forall x :: x in a ==> x in b
    decreases |b|
  {
    if |a| > 0 {
      if a[0] == b[0] && IsSubsequence(a[1..], b[1..]) {
        SubsequenceBounds(a[1..], b[1..]);
        assert a == [a[0]] + a[1..];
      } else {
        SubsequenceBounds(a, b[1..]);
      }
      assert b == [b[0]] + b[1..];
    }
  }

  predicate NoDuplicates<T(==)>(s: seq<T>) {
    forall i, j :: 0 <= i < j < |s| ==> s[i] != s[j]
  }

  /** No duplicates means every element is counted at most once. */
  lemma {:induction false} NoDuplicatesByCount<T>(s: seq<T>)
    ensures NoDuplicates(s) <==> forall x :: multiset(s)[x] <= 1
  {
    if |s| > 0 {
      NoDuplicatesByCount(s[1..]);
      assert s == [s[0]] + s[1..];
      assert multiset(s) == multiset{s[0]} + multiset(s[1..]);
      if NoDuplicates(s) {
        assert NoDuplicates(s[1..]) by {
          forall i, j | 0 <= i < j < |s[1..]| ensures s[1..][i] != s[1..][j] {
            assert s[1..][i] == s[i + 1] && s[1..][j] == s[j + 1];
          }
        }
        assert s[0] !in s[1..] by {
          forall k | 0 <= k < |s[1..]| ensures s[1..][k] != s[0] {
            assert s[1..][k] == s[k + 1];
          }
        }
      }
      if forall x :: multiset(s)[x] <= 1 {
        assert multiset(s)[s[0]] <= 1;
        assert forall x :: multiset(s[1..])[x] <= multiset(s)[x];
        forall i, j | 0 <= i < j < |s| ensures s[i] != s[j] {
          if i == 0 {
            assert s[j] == s[1..][j - 1];
          } else {
            assert s[i] == s[1..][i - 1] && s[j] == s[1..][j - 1];
          }
        }
      }
    }
  }

  /** The distinct elements of `xs` after `seen` is excluded, in order of
      first appearance. */
  function UniqueFrom<T(==,!new)>(xs: seq<T>, seen: set<T>): (u: seq<T>)
    ensures forall x :: x in u <==> x in xs && x !in seen
    ensures NoDuplicates(u)
    ensures IsSubsequence(u, xs)
  {
    if |xs| == 0 then []
    else if xs[0] in seen then UniqueFrom(xs[1..], seen)
    else [xs[0]] + UniqueFrom(xs[1..], seen + {xs[0]})
  }

  /** pandas `Series.unique()`: each distinct value once, in the order in
      which it first occurs. */
  function Unique<T(==,!new)>(xs: seq<T>): (u: seq<T>)
    ensures forall x :: x in u <==> x in xs
    ensures NoDuplicates(u)
    ensures IsSubsequence(u, xs)
  {
    UniqueFrom(xs, {})
  }

  lemma {:induction false} UniqueFromSnoc<T(!new)>(xs: seq<T>, x: T, seen: set<T>)
    ensures UniqueFrom(xs + [x], seen) ==
              if x in xs || x in seen then UniqueFrom(xs, seen) else UniqueFrom(xs, seen) + [x]
  {
    if |xs| == 0 {
      assert xs + [x] == [x];
    } else {
      assert (xs + [x])[0] == xs[0] && (xs + [x])[1..] == xs[1..] + [x];
      assert x in xs <==> x == xs[0] || x in xs[1..];
      if xs[0] in seen {
        UniqueFromSnoc(xs[1..], x, seen);
      } else {
        UniqueFromSnoc(xs[1..], x, seen + {xs[0]});
      }
    }
  }

  /** Scanning left to right, a value is appended when first seen and
      skipped afterwards: the order of first appearance. */
  lemma UniqueSnoc<T(!new)>(xs: seq<T>, x: T)
    ensures Unique(xs + [x]) == if x in xs then Unique(xs) else Unique(xs) + [x]
  {
    UniqueFromSnoc(xs, x, {});
  }

  /** Every element of `u` occurs in `xs` before any occurrence of the
      elements that follow it in `u`: `u` lists values in the order in
      which they first appear in `xs`. */
  ghost predicate FirstAppearanceOrder<T>(u: seq<T>, xs: seq<T>) {
    forall i, j :: 0 <= i < j < |u| ==>
      exists p :: 0 <= p < |xs| && xs[p] == u[i] && u[j] !in xs[..p]
  }

  /** An element in front of `xs` that `u` does not hold leaves the order
      of `u` intact. */
  lemma OrderBehindHead<T>(u: seq<T>, xs: seq<T>)
    requires |xs| > 0 && xs[0] !in u
    requires FirstAppearanceOrder(u, xs[1..])
    ensures FirstAppearanceOrder(u, xs)
  {
    forall i, j | 0 <= i < j < |u|
      ensures exists p :: 0 <= p < |xs| && xs[p] == u[i] && u[j] !in xs[..p]
    {
      var q :| 0 <= q < |xs[1..]| && xs[1..][q] == u[i] && u[j] !in xs[1..][..q];
      assert xs[..q + 1] == [xs[0]] + xs[1..][..q];
      assert xs[q + 1] == u[i];
    }
  }

  /** The head of `xs`, put in front of values that do not include it, is
      the first to appear. */
  lemma OrderFromHead<T>(u: seq<T>, xs: seq<T>)
    requires |xs| > 0 && xs[0] !in u
    requires FirstAppearanceOrder(u, xs)
    ensures FirstAppearanceOrder([xs[0]] + u, xs)
  {
    var v := [xs[0]] + u;
    forall i, j | 0 <= i < j < |v|
      ensures exists p :: 0 <= p < |xs| && xs[p] == v[i] && v[j] !in xs[..p]
    {
      if i == 0 {
        assert xs[0] == v[0] && v[j] !in xs[..0];
      } else {
        assert v[i] == u[i - 1] && v[j] == u[j - 1];
      }
    }
  }

  lemma {:induction false} UniqueFromOrder<T(!new)>(xs: seq<T>, seen: set<T>)
    ensures FirstAppearanceOrder(UniqueFrom(xs, seen), xs)
  {
    if |xs| > 0 {
      if xs[0] in seen {
        UniqueFromOrder(xs[1..], seen);
        OrderBehindHead(UniqueFrom(xs[1..], seen), xs);
      } else {
        var rest := UniqueFrom(xs[1..], seen + {xs[0]});
        UniqueFromOrder(xs[1..], seen + {xs[0]});
        OrderBehindHead(rest, xs);
        OrderFromHead(rest, xs);
      }
    }
  }

  /** `unique()` lists its values in the order in which they first occur. */
  lemma UniqueOrder<T(!new)>(xs: seq<T>)
    ensures FirstAppearanceOrder(Unique(xs), xs)
  {
    UniqueFromOrder(xs, {});
  }

  /** A sequence is empty exactly when nothing is in it. */
  lemma EmptyIffNoMember<T>(s: seq<T>)
    ensures |s| == 0 <==> forall x :: x !in s
  {
    if |s| > 0 {
      assert s[0] in s;
    }
  }

  /** Python's `<=` on `str`: lexicographic by code point, a proper prefix
      before any of its extensions. */
  predicate StrLe(a: string, b: string) {
    |a| == 0 || (|b| > 0 && (a[0] < b[0] || (a[0] == b[0] && StrLe(a[1..], b[1..]))))
  }

  lemma {:induction false} StrLeTotal(a: string, b: string)
    ensures StrLe(a, b) || StrLe(b, a)
  {
    if |a| > 0 && |b| > 0 && a[0] == b[0] {
      StrLeTotal(a[1..], b[1..]);
    }
  }

  lemma {:induction false} StrLeAntisymmetric(a: string, b: string)
    requires StrLe(a, b) && StrLe(b, a)
    ensures a == b
  {
    if |a| > 0 {
      StrLeAntisymmetric(a[1..], b[1..]);
      assert a == [a[0]] + a[1..] && b == [b[0]] + b[1..];
    }
  }

  lemma {:induction false} StrLeTransitive(a: string, b: string, c: string)
    requires StrLe(a, b) && StrLe(b, c)
    ensures StrLe(a, c)
  {
    if |a| > 0 && a[0] == b[0] && b[0] == c[0] {
      StrLeTransitive(a[1..], b[1..], c[1..]);
    }
  }

  predicate Sorted(s: seq<string>) {
    forall i :: 0 < i < |s| ==> StrLe(s[i - 1], s[i])
  }

  /** The head of a sorted sequence is at most each of its elements; this
      and the uniqueness lemma below use that `StrLe` is a total order. */
  lemma {:induction false} SortedHeadLeast(s: seq<string>)
    requires Sorted(s)
    ensures forall i :: 0 <= i < |s| ==> StrLe(s[0], s[i])
  {
    if |s| > 1 {
      SortedHeadLeast(s[1..]);
      forall i | 1 < i < |s| ensures StrLe(s[0], s[i]) {
        assert s[1..][i - 1] == s[i];
        StrLeTransitive(s[0], s[1], s[i]);
      }
    }
    if |s| > 0 {
      StrLeTotal(s[0], s[0]);
    }
  }

  /** A sorted list without duplicates is fixed by its set of values: two
      such lists holding the same values are equal. */
  lemma {:induction false} SortedListIsDetermined(a: seq<string>, b: seq<string>)
    requires Sorted(a) && NoDuplicates(a) && Sorted(b) && NoDuplicates(b)
    requires forall x :: x in a <==> x in b
    ensures a == b
  {
    if |a| > 0 {
      assert a[0] in a;
    }
    if |b| > 0 {
      assert b[0] in b;
    }
    if |a| > 0 {
      SortedHeadLeast(a);
      SortedHeadLeast(b);
      assert b[0] in a && a[0] in b;
      var i :| 0 <= i < |a| && a[i] == b[0];
      var j :| 0 <= j < |b| && b[j] == a[0];
      StrLeAntisymmetric(a[0], b[0]);
      assert a[0] !in a[1..] by {
        forall k | 0 <= k < |a[1..]| ensures a[1..][k] != a[0] {
          assert a[1..][k] == a[k + 1];
        }
      }
      assert b[0] !in b[1..] by {
        forall k | 0 <= k < |b[1..]| ensures b[1..][k] != b[0] {
          assert b[1..][k] == b[k + 1];
        }
      }
      assert a == [a[0]] + a[1..] && b == [b[0]] + b[1..];
      assert Sorted(a[1..]) by {
        forall k | 0 < k < |a[1..]| ensures StrLe(a[1..][k - 1], a[1..][k]) {
          assert a[1..][k - 1] == a[k] && a[1..][k] == a[k + 1];
        }
      }
      assert Sorted(b[1..]) by {
        forall k | 0 < k < |b[1..]| ensures StrLe(b[1..][k - 1], b[1..][k]) {
          assert b[1..][k - 1] == b[k] && b[1..][k] == b[k + 1];
        }
      }
      assert NoDuplicates(a[1..]) by {
        forall k, l | 0 <= k < l < |a[1..]| ensures a[1..][k] != a[1..][l] {
          assert a[1..][k] == a[k + 1] && a[1..][l] == a[l + 1];
        }
      }
      assert NoDuplicates(b[1..]) by {
        forall k, l | 0 <= k < l < |b[1..]| ensures b[1..][k] != b[1..][l] {
          assert b[1..][k] == b[k + 1] && b[1..][l] == b[l + 1];
        }
      }
      forall x ensures x in a[1..] <==> x in b[1..] {
        assert x in a <==> x == a[0] || x in a[1..];
        assert x in b <==> x == b[0] || x in b[1..];
      }
      SortedListIsDetermined(a[1..], b[1..]);
    }
  }

  /** Inserts `x` into a sorted sequence in front of the first element it
      is not above. */
  function Insert(x: string, s: seq<string>): (r: seq<string>)
    requires Sorted(s)
    ensures Sorted(r)
    ensures multiset(r) == multiset(s) + multiset{x}
    ensures r[0] == x || (|s| > 0 && r[0] == s[0])
  {
    if |s| == 0 then [x]
    else if StrLe(x, s[0]) then [x] + s
    else
      StrLeTotal(x, s[0]);
      assert s == [s[0]] + s[1..];
      [s[0]] + Insert(x, s[1..])
  }

  /** Python's `sorted()` over a list of strings. */
  function SortStrings(xs: seq<string>): (r: seq<string>)
    ensures Sorted(r)
    ensures multiset(r) == multiset(xs)
  {
    if |xs| == 0 then []
    else
      assert xs == [xs[0]] + xs[1..];
      Insert(xs[0], SortStrings(xs[1..]))
  }

  /** Sorting distinct values gives each value exactly once, in ascending
      order. */
  lemma SortDistinct(xs: seq<string>)
    requires NoDuplicates(xs)
    ensures forall x :: x in SortStrings(xs) <==> x in xs
    ensures Sorted(SortStrings(xs)) && NoDuplicates(SortStrings(xs))
  {
    var r := SortStrings(xs);
    NoDuplicatesByCount(xs);
    NoDuplicatesByCount(r);
    forall x ensures x in r <==> x in xs {
      assert x in r <==> x in multiset(r);
      assert x in xs <==> x in multiset(xs);
    }
  }
}
