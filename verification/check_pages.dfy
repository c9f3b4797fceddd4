/** The page-marker consistency check (scripts/check_pages.py:5-17), over the page numbers the
    `Page N` markers of a text gave, in text order: how many there are, the distinct ones in
    increasing order, the numbers missing up to the largest, and the ones found more than
    once. */
module CheckPages {
  import opened Wrappers
  import opened Seqs
  import opened Sorting

  /** What the script reports. */
  datatype PageReport = PageReport(count: nat, unique: seq<int>, maxPage: int, missing: seq<int>, dups: seq<int>)

  /** `max(unique)` of an empty list raises: there was no page number. */
  datatype CheckError = NoPageNumbers

  /** `range(lo, hi)` */
  function Range(lo: int, hi: int): (r: seq<int>)
    decreases hi - lo
    ensures |r| == if lo < hi then hi - lo else 0
    ensures forall k :: 0 <= k < |r| ==> r[k] == lo + k
  {
    if lo >= hi then [] else [lo] + Range(lo + 1, hi)
  }

  lemma RangeMeans(lo: int, hi: int)
    ensures forall n :: n in Range(lo, hi) <==> lo <= n < hi
    ensures forall i, j :: 0 <= i < j < |Range(lo, hi)| ==> Range(lo, hi)[i] < Range(lo, hi)[j]
  {
    var r := Range(lo, hi);
    forall n | lo <= n < hi
      ensures n in r
    {
      assert r[n - lo] == n;
    }
  }

  /** `[n for n in range(1, max_page + 1) if n not in unique]` */
  function Missing(unique: seq<int>, maxPage: int): seq<int>
  {
    Filter(Range(1, maxPage + 1), (n: int) => n !in unique)
  }

  /** The elements of `nums` in the order they first occur, each once: the keys of
      `Counter(nums)`. */
  function Distinct(nums: seq<int>): seq<int>
  {
    if nums == [] then []
    else
      var d := Distinct(nums[..|nums| - 1]);
      if nums[|nums| - 1] in d then d else d + [nums[|nums| - 1]]
  }

  /** `[p for p, k in Counter(nums).items() if k > 1]` */
  function Dups(nums: seq<int>): seq<int>
  {
    Filter(Distinct(nums), (x: int) => multiset(nums)[x] > 1)
  }

  /** The whole report; without any page number the script fails at `max(unique)`. */
  function Check(nums: seq<int>): (r: Result<PageReport, CheckError>)
  {
    var unique := SortedDistinct(nums);
    if unique == [] then Failure(NoPageNumbers)
    else
      var maxPage := unique[|unique| - 1];
      Success(PageReport(|nums|, unique, maxPage, Missing(unique, maxPage), Dups(nums)))
  }

  // ---------------------------------------------------------------------------
  // Properties
  // ---------------------------------------------------------------------------

  /** The index of the first occurrence of `x`. */
  function FirstIndex(s: seq<int>, x: int): (i: nat)
    requires x in s
    ensures i < |s| && s[i] == x && x !in s[..i]
  {
    if s[0] == x then 0 else 1 + FirstIndex(s[1..], x)
  }

  /** Any index where `x` occurs with no earlier occurrence is the first index. */
  lemma FirstIndexUnique(s: seq<int>, x: int, i: nat)
    requires i < |s| && s[i] == x && x !in s[..i]
    ensures FirstIndex(s, x) == i
  {
    var j := FirstIndex(s, x);
    assert forall k :: 0 <= k < i ==> s[..i][k] == s[k];
    assert forall k :: 0 <= k < j ==> s[..j][k] == s[k];
  }

  /** The keys of the counter are the distinct page numbers, each once. */
  lemma {:induction false} DistinctMembers(nums: seq<int>)
    ensures forall x :: x in Distinct(nums) <==> x in nums
    ensures forall i, j :: 0 <= i < j < |Distinct(nums)| ==> Distinct(nums)[i] != Distinct(nums)[j]
  {
    if nums != [] {
      var init := nums[..|nums| - 1];
      DistinctMembers(init);
      assert nums == init + [nums[|nums| - 1]];
    }
  }

  /** The keys of the counter come in the order of their first occurrence. */
  lemma {:induction false} DistinctOrder(nums: seq<int>)
    ensures forall x :: x in Distinct(nums) ==> x in nums
    ensures forall i, j :: 0 <= i < j < |Distinct(nums)| ==>
      FirstIndex(nums, Distinct(nums)[i]) < FirstIndex(nums, Distinct(nums)[j])
  {
    DistinctMembers(nums);
    if nums != [] {
      var init := nums[..|nums| - 1];
      var last := nums[|nums| - 1];
      var d := Distinct(init);
      DistinctOrder(init);
      DistinctMembers(init);
      assert nums == init + [last];
      forall x | x in init
        ensures FirstIndex(nums, x) == FirstIndex(init, x)
      {
        var i := FirstIndex(init, x);
        assert nums[..i] == init[..i];
        FirstIndexUnique(nums, x, i);
      }
      if last !in d {
        assert FirstIndex(nums, last) == |init| by {
          assert nums[..|init|] == init;
          FirstIndexUnique(nums, last, |init|);
        }
        var e := Distinct(nums);
        assert e == d + [last];
        forall i, j | 0 <= i < j < |e|
          ensures FirstIndex(nums, e[i]) < FirstIndex(nums, e[j])
        {
          assert e[i] == d[i] && e[i] in init;
          if j < |d| {
            assert e[j] == d[j] && e[j] in init;
          }
        }
      } else {
        forall i, j | 0 <= i < j < |d|
          ensures FirstIndex(nums, d[i]) < FirstIndex(nums, d[j])
        {
          assert d[i] in init && d[j] in init;
        }
      }
    }
  }

  /** `a` first occurs before `b` does. */
  predicate Before(nums: seq<int>, a: int, b: int)
  {
    a in nums && b in nums && FirstIndex(nums, a) < FirstIndex(nums, b)
  }

  /** `dups` holds exactly the page numbers found more than once. */
  lemma DupsMembers(nums: seq<int>)
    ensures forall x :: x in Dups(nums) <==> multiset(nums)[x] > 1
  {
    DistinctMembers(nums);
  }

  /** `dups` lists each repeated number once, in the order of their first occurrence. */
  lemma DupsOrder(nums: seq<int>)
    ensures forall i, j :: 0 <= i < j < |Dups(nums)| ==> Before(nums, Dups(nums)[i], Dups(nums)[j])
  {
    DistinctOrder(nums);
    FilterOrdered(Distinct(nums), (x: int) => multiset(nums)[x] > 1, (a: int, b: int) => Before(nums, a, b));
  }

  /** Filtering keeps the order of what it keeps. */
  lemma {:induction false} FilterOrdered<T(!new)>(xs: seq<T>, p: T -> bool, lt: (T, T) -> bool)
    requires forall i, j :: 0 <= i < j < |xs| ==> lt(xs[i], xs[j])
    ensures forall i, j :: 0 <= i < j < |Filter(xs, p)| ==> lt(Filter(xs, p)[i], Filter(xs, p)[j])
  {
    if xs != [] {
      var init := xs[..|xs| - 1];
      var last := xs[|xs| - 1];
      FilterOrdered(init, p, lt);
      var f := Filter(init, p);
      if p(last) {
        var g := Filter(xs, p);
        assert g == f + [last];
        forall i, j | 0 <= i < j < |g|
          ensures lt(g[i], g[j])
        {
          if j == |f| {
            assert g[i] in init;
            var k :| 0 <= k < |init| && init[k] == g[i];
            assert xs[k] == g[i];
          }
        }
      }
    }
  }

  /** With at least one page number, the report counts every occurrence, lists the distinct
      numbers in increasing order and the repeated ones as `dups`; with none, the check
      fails. */
  lemma CheckMeans(nums: seq<int>)
    ensures Check(nums).Failure? <==> nums == []
    ensures Check(nums).Success? ==>
      var r := Check(nums).value;
      && r.count == |nums|
      && StrictlyIncreasing(r.unique) && (forall x :: x in r.unique <==> x in nums)
      && r.dups == Dups(nums)
  {
    if nums != [] {
      assert nums[0] in SortedDistinct(nums);
    }
  }

  /** The largest page is the largest number found. */
  lemma CheckMax(nums: seq<int>)
    requires nums != []
    ensures var r := Check(nums).value;
      r.maxPage in nums && forall x :: x in nums ==> x <= r.maxPage
  {
    var unique := SortedDistinct(nums);
    assert nums[0] in unique;
    var m := unique[|unique| - 1];
    assert m in unique;
    forall x | x in nums
      ensures x <= m
    {
      var k :| 0 <= k < |unique| && unique[k] == x;
    }
  }

  /** The comprehension keeps, in increasing order, the numbers from 1 to `maxPage` that are
      not in `unique`. */
  lemma MissingOfMeans(unique: seq<int>, maxPage: int)
    ensures StrictlyIncreasing(Missing(unique, maxPage))
    ensures forall n :: n in Missing(unique, maxPage) <==> 1 <= n <= maxPage && n !in unique
  {
    RangeMeans(1, maxPage + 1);
    FilterOrdered(Range(1, maxPage + 1), (n: int) => n !in unique, (a: int, b: int) => a < b);
  }

  /** `missing` holds, in increasing order, exactly the numbers from 1 to the largest page that
      are not among the distinct numbers found. */
  lemma MissingMeans(nums: seq<int>)
    requires nums != []
    ensures var r := Check(nums).value;
      && StrictlyIncreasing(r.missing)
      && (forall n :: n in r.missing <==> 1 <= n <= r.maxPage && n !in r.unique)
  {
    var unique := SortedDistinct(nums);
    assert nums[0] in unique;
    var maxPage := unique[|unique| - 1];
    MissingOfMeans(unique, maxPage);
  }

  /** Together `unique` and `missing` cover 1 to the largest page, and no number is in both. */
  lemma MissingCovers(nums: seq<int>)
    requires nums != []
    ensures var r := Check(nums).value;
      && (forall n :: 1 <= n <= r.maxPage ==> (n in r.unique || n in r.missing))
      && (forall n :: !(n in r.unique && n in r.missing))
  {
    MissingMeans(nums);
  }
}
