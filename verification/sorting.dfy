/** Orderings the indexer and the tool rely on: Cypher's `ORDER BY` (a sort by a total preorder whose
    order among equal keys is left open) and Python's `sorted(set(xs))` on numbers. */
module Sorting {
  import opened Seqs

  // ---------------------------------------------------------------------------
  // Sorting by a total preorder (ORDER BY)
  // ---------------------------------------------------------------------------

  /** `le` is total and transitive: a valid ORDER BY comparison. */
  ghost predicate TotalPreorder<T(!new)>(le: (T, T) -> bool)
  {
    && (forall a, b :: le(a, b) || le(b, a))
    && (forall a, b, c :: le(a, b) && le(b, c) ==> le(a, c))
  }

  predicate SortedBy<T>(xs: seq<T>, le: (T, T) -> bool)
  {
    forall i, j :: 0 <= i < j < |xs| ==> le(xs[i], xs[j])
  }

  /** Sort `xs` by `le`, keeping equal elements in their original order: the result is
      ordered and holds the same elements, each as often. */
  function SortBy<T(!new)>(xs: seq<T>, le: (T, T) -> bool): (r: seq<T>)
    requires TotalPreorder(le)
    ensures SortedBy(r, le)
    ensures multiset(r) == multiset(xs)
  {
    if xs == [] then []
    else
      assert xs == xs[..|xs| - 1] + [xs[|xs| - 1]];
      InsertSorted(SortBy(xs[..|xs| - 1], le), xs[|xs| - 1], le)
  }

  /** `ORDER BY ... LIMIT n`: the first `n` elements of the sort are the top `n`. There are
      `n` of them, or all when there are fewer; each comes from `xs` and is kept no more often
      than it occurs there; and no element left out ranks above one that was kept. */
  lemma TakeSortedTop<T(!new)>(xs: seq<T>, le: (T, T) -> bool, n: nat)
    requires TotalPreorder(le)
    ensures var top := Take(SortBy(xs, le), n);
      && |top| == (if |xs| < n then |xs| else n)
      && multiset(top) <= multiset(xs)
      && SortedBy(top, le)
      && (forall x, y :: x in multiset(xs) - multiset(top) && y in top ==> le(y, x))
  {
    var sorted := SortBy(xs, le);
    assert |sorted| == |xs| by {
      assert |multiset(sorted)| == |multiset(xs)|;
    }
    PrefixTop(sorted, le, |Take(sorted, n)|);
  }

  /** In a sorted sequence, the first `k` elements are the top ones. */
  lemma PrefixTop<T>(sorted: seq<T>, le: (T, T) -> bool, k: nat)
    requires SortedBy(sorted, le) && k <= |sorted|
    ensures multiset(sorted[..k]) <= multiset(sorted)
    ensures SortedBy(sorted[..k], le)
    ensures forall x, y :: x in multiset(sorted) - multiset(sorted[..k]) && y in sorted[..k] ==> le(y, x)
  {
    var top := sorted[..k];
    var rest := sorted[k..];
    assert multiset(sorted) == multiset(top) + multiset(rest) by {
      assert sorted == top + rest;
    }
    forall x, y | x in multiset(sorted) - multiset(top) && y in top
      ensures le(y, x)
    {
      assert x in multiset(rest);
      var m :| 0 <= m < |rest| && rest[m] == x;
      var i :| 0 <= i < k && top[i] == y;
      assert sorted[i] == y && sorted[k + m] == x;
    }
  }

  /** Insert `x` after the elements that are not above it. */
  function InsertSorted<T(!new)>(s: seq<T>, x: T, le: (T, T) -> bool): (r: seq<T>)
    requires TotalPreorder(le) && SortedBy(s, le)
    ensures SortedBy(r, le)
    ensures multiset(r) == multiset(s) + multiset{x}
  {
    if s == [] then [x]
    else if le(s[0], x) then
      var t := InsertSorted(s[1..], x, le);
      assert s == [s[0]] + s[1..];
      assert forall k :: 0 <= k < |t| ==> le(s[0], t[k]) by {
        forall k | 0 <= k < |t| ensures le(s[0], t[k]) {
          assert t[k] in multiset(t);
          if t[k] != x {
            assert t[k] in multiset(s[1..]);
            var i :| 0 <= i < |s[1..]| && s[1..][i] == t[k];
            assert s[i + 1] == t[k];
          }
        }
      }
      [s[0]] + t
    else
      assert forall k :: 0 <= k < |s| ==> le(x, s[k]) by {
        forall k | 0 <= k < |s| ensures le(x, s[k]) {
          assert le(x, s[0]);
          if k > 0 { assert le(s[0], s[k]); }
        }
      }
      [x] + s
  }

  /** String order of `ORDER BY` on text: lexicographic by character, a prefix first. */
  predicate LexLe(a: string, b: string)
  {
    a == [] || (b != [] && (a[0] < b[0] || (a[0] == b[0] && LexLe(a[1..], b[1..]))))
  }

  lemma {:induction false} LexTotal(a: string, b: string)
    ensures LexLe(a, b) || LexLe(b, a)
  {
    if a != [] && b != [] && a[0] == b[0] {
      LexTotal(a[1..], b[1..]);
    }
  }

  lemma {:induction false} LexTransitive(a: string, b: string, c: string)
    requires LexLe(a, b) && LexLe(b, c)
    ensures LexLe(a, c)
  {
    if a != [] && a[0] == b[0] && b[0] == c[0] {
      LexTransitive(a[1..], b[1..], c[1..]);
    }
  }

  // ---------------------------------------------------------------------------
  // sorted(set(xs))
  // ---------------------------------------------------------------------------

  predicate StrictlyIncreasing(xs: seq<int>)
  {
    forall i, j :: 0 <= i < j < |xs| ==> xs[i] < xs[j]
  }

  /** Insert `x` into a strictly increasing sequence, unless it is already there. */
  function InsertUnique(x: int, s: seq<int>): (r: seq<int>)
    requires StrictlyIncreasing(s)
    ensures StrictlyIncreasing(r)
    ensures forall y :: y in r <==> y == x || y in s
  {
    if s == [] then [x]
    else if x < s[0] then [x] + s
    else if x == s[0] then s
    else
      var t := InsertUnique(x, s[1..]);
      assert forall y :: y in s <==> y == s[0] || y in s[1..] by {
        assert s == [s[0]] + s[1..];
      }
      assert forall k :: 0 <= k < |t| ==> s[0] < t[k] by {
        forall k | 0 <= k < |t| ensures s[0] < t[k] {
          assert t[k] in t;
          if t[k] != x {
            var i :| 0 <= i < |s[1..]| && s[1..][i] == t[k];
            assert s[i + 1] == t[k];
          }
        }
      }
      [s[0]] + t
  }

  /** `sorted(set(xs))`: the distinct elements of `xs`, strictly increasing. */
  function SortedDistinct(xs: seq<int>): (r: seq<int>)
    ensures StrictlyIncreasing(r)
    ensures forall y :: y in r <==> y in xs
  {
    if xs == [] then []
    else
      var r := InsertUnique(xs[|xs| - 1], SortedDistinct(xs[..|xs| - 1]));
      assert forall y :: y in xs <==> y == xs[|xs| - 1] || y in xs[..|xs| - 1] by {
        assert xs == xs[..|xs| - 1] + [xs[|xs| - 1]];
      }
      r
  }

  /** `s.update(xs)` on a set kept as a strictly increasing sequence (so that `sorted(s)`
      is the sequence itself). */
  function UnionSorted(s: seq<int>, xs: seq<int>): (r: seq<int>)
    requires StrictlyIncreasing(s)
    ensures StrictlyIncreasing(r)
    ensures forall y :: y in r <==> y in s || y in xs
  {
    if xs == [] then s
    else
      var r := InsertUnique(xs[|xs| - 1], UnionSorted(s, xs[..|xs| - 1]));
      assert forall y :: y in xs <==> y == xs[|xs| - 1] || y in xs[..|xs| - 1] by {
        assert xs == xs[..|xs| - 1] + [xs[|xs| - 1]];
      }
      r
  }

  /** Two strictly increasing sequences with the same elements are equal: `sorted(set(..))`
      has only one possible value. */
  lemma {:induction false} StrictlyIncreasingUnique(a: seq<int>, b: seq<int>)
    requires StrictlyIncreasing(a) && StrictlyIncreasing(b)
    requires forall y :: y in a <==> y in b
    ensures a == b
    decreases |a|
  {
    assert a == [] <==> b == [] by {
      if a != [] { assert a[0] in a; }
      if b != [] { assert b[0] in b; }
    }
    if a != [] {
      SameHead(a, b);
      SameTail(a, b);
      StrictlyIncreasingUnique(a[1..], b[1..]);
      assert a == [a[0]] + a[1..] && b == [b[0]] + b[1..];
    }
  }

  /** The least element comes first in both. */
  lemma SameHead(a: seq<int>, b: seq<int>)
    requires StrictlyIncreasing(a) && StrictlyIncreasing(b) && a != [] && b != []
    requires forall y :: y in a <==> y in b
    ensures a[0] == b[0]
  {
    assert a[0] in a && b[0] in b;
    var i :| 0 <= i < |b| && b[i] == a[0];
    var j :| 0 <= j < |a| && a[j] == b[0];
    assert b[0] <= b[i] && a[0] <= a[j];
  }

  /** Without the common first element, the rests have the same elements. */
  lemma SameTail(a: seq<int>, b: seq<int>)
    requires StrictlyIncreasing(a) && StrictlyIncreasing(b) && a != [] && b != [] && a[0] == b[0]
    requires forall y :: y in a <==> y in b
    ensures StrictlyIncreasing(a[1..]) && StrictlyIncreasing(b[1..])
    ensures forall y :: y in a[1..] <==> y in b[1..]
  {
    forall y | y in a[1..] ensures y in b[1..] {
      var i :| 1 <= i < |a| && a[i] == y;
      assert y in b && y != b[0];
    }
    forall y | y in b[1..] ensures y in a[1..] {
      var i :| 1 <= i < |b| && b[i] == y;
      assert y in a && y != a[0];
    }
  }
}
