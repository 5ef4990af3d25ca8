/** Stable sorting by a numeric score, the part of pandas' `sort_values`,
    `nlargest` and `value_counts` that the dashboard relies on.  An
    ascending sort is the descending sort of the negated score. */
module Sorting {

  predicate Descending<T>(s: seq<T>, score: T -> real)
  {
    forall i, j :: 0 <= i < j < |s| ==> score(s[i]) >= score(s[j])
  }

  predicate NoDuplicates<T(==)>(s: seq<T>)
  {
    forall i, j :: 0 <= i < j < |s| ==> s[i] != s[j]
  }

  /** Places `e` in front of the first element that does not score higher,
      so that elements of equal score keep their order. */
  function InsertDesc<T>(e: T, s: seq<T>, score: T -> real): (r: seq<T>)
    ensures |r| == |s| + 1
  {
    if s == [] || score(s[0]) <= score(e) then [e] + s
    else [s[0]] + InsertDesc(e, s[1..], score)
  }

  /** Stable insertion sort, highest score first. */
  function SortDesc<T>(s: seq<T>, score: T -> real): (r: seq<T>)
    ensures |r| == |s|
  {
    if s == [] then [] else InsertDesc(s[0], SortDesc(s[1..], score), score)
  }

  lemma {:induction false} InsertDescPermutes<T>(e: T, s: seq<T>, score: T -> real)
    ensures multiset(InsertDesc(e, s, score)) == multiset(s) + multiset{e}
  {
    if !(s == [] || score(s[0]) <= score(e)) {
      InsertDescPermutes(e, s[1..], score);
      assert s == [s[0]] + s[1..];
    }
  }

  lemma {:induction false} InsertDescSorted<T>(e: T, s: seq<T>, score: T -> real)
    requires Descending(s, score)
    ensures Descending(InsertDesc(e, s, score), score)
  {
    if !(s == [] || score(s[0]) <= score(e)) {
      var rest := InsertDesc(e, s[1..], score);
      InsertDescSorted(e, s[1..], score);
      InsertDescPermutes(e, s[1..], score);
      forall j | 0 <= j < |rest| ensures score(s[0]) >= score(rest[j]) {
        assert rest[j] in multiset(rest);
        if rest[j] != e {
          assert rest[j] in s[1..];
        }
      }
    }
  }

  /** The sort returns a permutation of its input. */
  lemma {:induction false} SortDescPermutes<T>(s: seq<T>, score: T -> real)
    ensures multiset(SortDesc(s, score)) == multiset(s)
  {
    if s != [] {
      SortDescPermutes(s[1..], score);
      InsertDescPermutes(s[0], SortDesc(s[1..], score), score);
      assert s == [s[0]] + s[1..];
    }
  }

  /** The sort returns its input in descending order of score. */
  lemma {:induction false} SortDescSorted<T>(s: seq<T>, score: T -> real)
    ensures Descending(SortDesc(s, score), score)
  {
    if s != [] {
      SortDescSorted(s[1..], score);
      InsertDescSorted(s[0], SortDesc(s[1..], score), score);
    }
  }

  /** A sequence is duplicate-free exactly when no element occurs twice. */
  lemma {:induction false} NoDuplicatesMultiset<T>(s: seq<T>)
    ensures NoDuplicates(s) <==> forall x :: multiset(s)[x] <= 1
  {
    if s != [] {
      NoDuplicatesMultiset(s[1..]);
      assert s == [s[0]] + s[1..];
      if NoDuplicates(s) {
        assert s[0] !in s[1..];
      }
      if forall x :: multiset(s)[x] <= 1 {
        assert multiset(s) == multiset{s[0]} + multiset(s[1..]);
        assert multiset(s[1..])[s[0]] == 0;
        assert forall x :: multiset(s[1..])[x] <= multiset(s)[x];
        forall i, j | 0 <= i < j < |s| ensures s[i] != s[j] {
          if i > 0 {
            assert s[1..][i - 1] == s[i] && s[1..][j - 1] == s[j];
          } else {
            assert s[j] in s[1..];
          }
        }
      }
    }
  }

  /** Sorting a duplicate-free sequence keeps it duplicate-free. */
  lemma SortDescNoDuplicates<T>(s: seq<T>, score: T -> real)
    requires NoDuplicates(s)
    ensures NoDuplicates(SortDesc(s, score))
  {
    SortDescPermutes(s, score);
    NoDuplicatesMultiset(s);
    NoDuplicatesMultiset(SortDesc(s, score));
  }

  /** The sum of `f` over a sequence. */
  function Total<T>(s: seq<T>, f: T -> int): int
  {
    if s == [] then 0 else f(s[0]) + Total(s[1..], f)
  }

  lemma {:induction false} InsertDescTotal<T>(e: T, s: seq<T>, score: T -> real, f: T -> int)
    ensures Total(InsertDesc(e, s, score), f) == f(e) + Total(s, f)
  {
    if !(s == [] || score(s[0]) <= score(e)) {
      InsertDescTotal(e, s[1..], score, f);
    }
  }

  /** Sorting does not change any sum over the elements. */
  lemma {:induction false} SortDescTotal<T>(s: seq<T>, score: T -> real, f: T -> int)
    ensures Total(SortDesc(s, score), f) == Total(s, f)
  {
    if s != [] {
      SortDescTotal(s[1..], score, f);
      InsertDescTotal(s[0], SortDesc(s[1..], score), score, f);
    }
  }
}
