/** Stable sorting, as the host language's `sorted` does it: `before(x, y)` says x's key is strictly
    smaller than y's. */
module StableSort {
  import opened Graphs

  ghost predicate StrictWeakOrder<T(!new)>(before: (T, T) -> bool) {
    && (forall x, y :: before(x, y) ==> !before(y, x))
    && (forall x, y, z :: before(x, y) && !before(z, y) ==> before(x, z))
  }

  ghost predicate SortedBy<T>(s: seq<T>, before: (T, T) -> bool) {
    forall i, j :: 0 <= i < j < |s| ==> !before(s[j], s[i])
  }

  function Filter<T>(s: seq<T>, keep: T -> bool): seq<T> {
    if s == [] then [] else Filter(s[..|s| - 1], keep) + if keep(s[|s| - 1]) then [s[|s| - 1]] else []
  }

  function Insert<T>(s: seq<T>, x: T, before: (T, T) -> bool): (r: seq<T>)
    ensures multiset(r) == multiset(s) + multiset{x}
    ensures |r| == |s| + 1
  {
    if s == [] || !before(x, s[|s| - 1]) then s + [x]
    else
      var r := Insert(s[..|s| - 1], x, before) + [s[|s| - 1]];
      assert s == s[..|s| - 1] + [s[|s| - 1]];
      r
  }

  function Sort<T>(s: seq<T>, before: (T, T) -> bool): (r: seq<T>)
    ensures multiset(r) == multiset(s)
  {
    if s == [] then []
    else
      assert s == s[..|s| - 1] + [s[|s| - 1]];
      Insert(Sort(s[..|s| - 1], before), s[|s| - 1], before)
  }

  lemma {:induction false} InsertSorted<T(!new)>(s: seq<T>, x: T, before: (T, T) -> bool)
    requires StrictWeakOrder(before) && SortedBy(s, before)
    ensures SortedBy(Insert(s, x, before), before)
  {
    if s != [] && before(x, s[|s| - 1]) {
      var front, last := s[..|s| - 1], s[|s| - 1];
      InsertSorted(front, x, before);
      var r := Insert(front, x, before);
      forall i | 0 <= i < |r| ensures !before(last, r[i]) {
        assert r[i] in multiset(r);
        assert r[i] == x || r[i] in front;
      }
    }
  }

  lemma {:induction false} SortSorts<T(!new)>(s: seq<T>, before: (T, T) -> bool)
    requires StrictWeakOrder(before)
    ensures SortedBy(Sort(s, before), before)
  {
    if s != [] {
      SortSorts(s[..|s| - 1], before);
      InsertSorted(Sort(s[..|s| - 1], before), s[|s| - 1], before);
    }
  }

  lemma {:induction false} FilterAppend<T>(s: seq<T>, x: T, keep: T -> bool)
    ensures Filter(s + [x], keep) == Filter(s, keep) + if keep(x) then [x] else []
  {
    assert (s + [x])[..|s|] == s;
  }

  /** Inserting `x` moves it past no element it must stay behind. */
  lemma {:induction false} InsertStable<T>(s: seq<T>, x: T, before: (T, T) -> bool, keep: T -> bool)
    requires keep(x) ==> forall y :: y in s && keep(y) ==> !before(x, y)
    ensures Filter(Insert(s, x, before), keep) == Filter(s, keep) + if keep(x) then [x] else []
  {
    FilterAppend(s, x, keep);
    if s != [] && before(x, s[|s| - 1]) {
      var front, last := s[..|s| - 1], s[|s| - 1];
      assert last in s;
      InsertStable(front, x, before, keep);
      FilterAppend(Insert(front, x, before), last, keep);
    }
  }

  /** Elements with equal keys keep their order. */
  lemma {:induction false} SortStable<T>(s: seq<T>, before: (T, T) -> bool, keep: T -> bool)
    requires forall y, z :: y in s && z in s && keep(y) && keep(z) ==> !before(z, y)
    ensures Filter(Sort(s, before), keep) == Filter(s, keep)
  {
    if s != [] {
      var front, last := s[..|s| - 1], s[|s| - 1];
      assert s == front + [last];
      SortStable(front, before, keep);
      var r := Sort(front, before);
      forall y | y in r && keep(y) && keep(last) ensures !before(last, y) {
        assert y in multiset(r);
        assert y in front;
      }
      InsertStable(r, last, before, keep);
    }
  }

  lemma {:induction false} FilterIsSubsequence<T>(s: seq<T>, keep: T -> bool)
    ensures forall x :: x in Filter(s, keep) <==> x in s && keep(x)
  {
    if s != [] {
      FilterIsSubsequence(s[..|s| - 1], keep);
      assert s == s[..|s| - 1] + [s[|s| - 1]];
    }
  }

  lemma {:induction false} FilterIsSame<T>(s: seq<T>, keep: T -> bool, keep': T -> bool)
    requires forall x :: x in s ==> keep(x) == keep'(x)
    ensures Filter(s, keep) == Filter(s, keep')
  {
    if s != [] {
      assert s == s[..|s| - 1] + [s[|s| - 1]];
      FilterIsSame(s[..|s| - 1], keep, keep');
    }
  }

  lemma {:induction false} FilterKeepsDistinct<T>(s: seq<T>, keep: T -> bool)
    requires Distinct(s)
    ensures Distinct(Filter(s, keep))
  {
    if s != [] {
      var front, last := s[..|s| - 1], s[|s| - 1];
      FilterKeepsDistinct(front, keep);
      FilterIsSubsequence(front, keep);
      assert last !in Filter(front, keep);
    }
  }

  lemma {:induction false} DistinctMeansCountedOnce<T>(s: seq<T>)
    ensures Distinct(s) <==> forall x :: multiset(s)[x] <= 1
  {
    if s != [] {
      var front, last := s[..|s| - 1], s[|s| - 1];
      DistinctMeansCountedOnce(front);
      assert s == front + [last];
      assert multiset(s) == multiset(front) + multiset{last};
      if !Distinct(front) {
        var x :| multiset(front)[x] > 1;
        assert multiset(s)[x] > 1;
      } else if last in front {
        assert multiset(s)[last] > 1;
      }
    }
  }

  lemma PermutationKeepsMembers<T>(s: seq<T>, r: seq<T>)
    requires multiset(r) == multiset(s)
    ensures |r| == |s| && (forall x :: x in r <==> x in s) && (Distinct(s) <==> Distinct(r))
  {
    DistinctMeansCountedOnce(s);
    DistinctMeansCountedOnce(r);
    assert |r| == |multiset(r)|;
    forall x ensures x in r <==> x in s {
      assert x in r <==> x in multiset(r);
    }
  }
}
