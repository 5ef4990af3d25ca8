/** `table[column].value_counts()` (Aula04.py:202, 279): each distinct value
    of a column with the number of rows that hold it, most frequent first.
    Values that occur equally often stay in order of first appearance. */
module Counts {
  import opened Keys
  import opened Salaries
  import opened Masks
  import opened Sorting
  import opened Stats

  /** A value-count row: the value and its number of occurrences. */
  type Tally = Entry<nat>

  function TallyCount(t: Tally): int
  {
    t.value
  }

  function CountScore(t: Tally): real
  {
    t.value as real
  }

  /** Every occurrence of `k` removed, the rest in order. */
  function RemoveAll(xs: seq<Key>, k: Key): seq<Key>
  {
    Mask(xs, y => y != k)
  }

  lemma {:induction false} RemoveAllFacts(xs: seq<Key>, k: Key)
    ensures |RemoveAll(xs, k)| + multiset(xs)[k] == |xs|
    ensures forall y :: multiset(RemoveAll(xs, k))[y] == if y == k then 0 else multiset(xs)[y]
  {
    forall y ensures multiset(RemoveAll(xs, k))[y] == if y == k then 0 else multiset(xs)[y] {
      MaskMultiplicity(xs, y => y != k, y);
    }
    if xs != [] {
      RemoveAllFacts(xs[1..], k);
      assert xs == [xs[0]] + xs[1..];
    }
  }

  /** The distinct values of `xs` in order of first appearance, each with its number of occurrences. */
  function Tallies(xs: seq<Key>): (t: seq<Tally>)
    ensures |t| <= |xs|
    ensures xs == [] <==> t == []
    decreases |xs|
  {
    if xs == [] then []
    else
      RemoveAllFacts(xs[1..], xs[0]);
      [Entry(xs[0], multiset(xs)[xs[0]])] + Tallies(RemoveAll(xs[1..], xs[0]))
  }

  lemma RemoveAllMembership(xs: seq<Key>, x: Key)
    ensures forall k :: k in RemoveAll(xs, x) <==> k in xs && k != x
  {
    forall k ensures k in RemoveAll(xs, x) <==> k in xs && k != x {
      MaskMembership(xs, y => y != x, k);
    }
  }

  /** Each entry counts how often its value occurs, and no count is zero. */
  lemma {:induction false} TalliesCount(xs: seq<Key>)
    ensures forall i :: 0 <= i < |Tallies(xs)| ==> 0 < Tallies(xs)[i].value == multiset(xs)[Tallies(xs)[i].key]
    decreases |xs|
  {
    if xs != [] {
      var rest := RemoveAll(xs[1..], xs[0]);
      RemoveAllFacts(xs[1..], xs[0]);
      TalliesCount(rest);
      assert xs == [xs[0]] + xs[1..];
      var t := Tallies(xs);
      assert t[1..] == Tallies(rest);
      forall i | 1 <= i < |t| ensures t[i].value == multiset(xs)[t[i].key] {
        assert t[i] == Tallies(rest)[i - 1];
        assert t[i].key != xs[0];
      }
    }
  }

  /** The table lists exactly the values that occur. */
  lemma {:induction false} TalliesKeys(xs: seq<Key>)
    ensures forall k :: k in KeysOf(Tallies(xs)) <==> k in xs
    decreases |xs|
  {
    if xs != [] {
      var rest := RemoveAll(xs[1..], xs[0]);
      RemoveAllFacts(xs[1..], xs[0]);
      RemoveAllMembership(xs[1..], xs[0]);
      TalliesKeys(rest);
      var t := Tallies(xs);
      assert KeysOf(t) == [xs[0]] + KeysOf(Tallies(rest));
      assert xs == [xs[0]] + xs[1..];
    }
  }

  /** No value is listed twice. */
  lemma {:induction false} TalliesDistinct(xs: seq<Key>)
    ensures NoDuplicates(KeysOf(Tallies(xs)))
    decreases |xs|
  {
    if xs != [] {
      var rest := RemoveAll(xs[1..], xs[0]);
      RemoveAllFacts(xs[1..], xs[0]);
      RemoveAllMembership(xs[1..], xs[0]);
      TalliesDistinct(rest);
      TalliesKeys(rest);
      var ks := KeysOf(Tallies(xs));
      assert ks == [xs[0]] + KeysOf(Tallies(rest));
      assert xs[0] !in KeysOf(Tallies(rest));
    }
  }

  /** The counts add up to the number of values counted. */
  lemma {:induction false} TalliesTotal(xs: seq<Key>)
    ensures Total(Tallies(xs), TallyCount) == |xs|
    decreases |xs|
  {
    if xs != [] {
      var rest := RemoveAll(xs[1..], xs[0]);
      RemoveAllFacts(xs[1..], xs[0]);
      TalliesTotal(rest);
      assert xs == [xs[0]] + xs[1..];
      assert Tallies(xs)[1..] == Tallies(rest);
    }
  }

  /** Reordering a table whose keys are distinct keeps them distinct. */
  lemma KeysDistinctOfEntries(u: seq<Tally>, t: seq<Tally>)
    requires NoDuplicates(KeysOf(u)) && multiset(t) == multiset(u)
    ensures NoDuplicates(KeysOf(t))
  {
    var ku, kt := KeysOf(u), KeysOf(t);
    assert NoDuplicates(u) by {
      forall i, j | 0 <= i < j < |u| ensures u[i] != u[j] {
        assert ku[i] != ku[j];
      }
    }
    NoDuplicatesMultiset(u);
    NoDuplicatesMultiset(t);
    forall i, j | 0 <= i < j < |t| ensures kt[i] != kt[j] {
      assert t[i] in multiset(u) && t[j] in multiset(u);
      var a :| 0 <= a < |u| && u[a] == t[i];
      var b :| 0 <= b < |u| && u[b] == t[j];
      assert a != b;
      if a < b {
        assert ku[a] != ku[b];
      } else {
        assert ku[b] != ku[a];
      }
    }
  }

  /** The value-count table of column `c`. */
  function ValueCounts(df: seq<Record>, c: Column): (t: seq<Tally>)
    ensures |t| <= |df|
  {
    TalliesTotal(Project(df, c));
    TalliesCount(Project(df, c));
    TotalAtLeastLength(Tallies(Project(df, c)));
    SortDesc(Tallies(Project(df, c)), CountScore)
  }

  lemma {:induction false} TotalAtLeastLength(t: seq<Tally>)
    requires forall i :: 0 <= i < |t| ==> t[i].value > 0
    ensures |t| <= Total(t, TallyCount)
  {
    if t != [] {
      TotalAtLeastLength(t[1..]);
    }
  }

  /** Every count is positive and is the number of rows holding that value. */
  lemma ValueCountsCount(df: seq<Record>, c: Column)
    ensures forall i :: 0 <= i < |ValueCounts(df, c)| ==>
              0 < ValueCounts(df, c)[i].value == Frequency(df, c, ValueCounts(df, c)[i].key)
  {
    var u := Tallies(Project(df, c));
    var t := ValueCounts(df, c);
    TalliesCount(Project(df, c));
    SortDescPermutes(u, CountScore);
    forall i | 0 <= i < |t| ensures 0 < t[i].value == Frequency(df, c, t[i].key) {
      assert t[i] in multiset(u);
    }
  }

  /** The table lists each value of the column exactly once, and nothing else. */
  lemma ValueCountsKeys(df: seq<Record>, c: Column)
    ensures forall k :: k in KeysOf(ValueCounts(df, c)) <==> exists r :: r in df && Value(r, c) == k
    ensures NoDuplicates(KeysOf(ValueCounts(df, c)))
  {
    var col := Project(df, c);
    var u := Tallies(col);
    var t := ValueCounts(df, c);
    TalliesKeys(col);
    TalliesDistinct(col);
    SortDescPermutes(u, CountScore);
    KeysDistinctOfEntries(u, t);
    forall k ensures k in KeysOf(t) <==> exists r :: r in df && Value(r, c) == k {
      ProjectMembership(df, c, k);
      EntriesKeys(u, t, k);
    }
  }

  /** The most frequent value comes first. */
  lemma ValueCountsDescending(df: seq<Record>, c: Column)
    ensures forall i, j :: 0 <= i < j < |ValueCounts(df, c)| ==> ValueCounts(df, c)[i].value >= ValueCounts(df, c)[j].value
  {
    SortDescSorted(Tallies(Project(df, c)), CountScore);
  }

  /** The counts add up to the number of rows counted. */
  lemma ValueCountsTotal(df: seq<Record>, c: Column)
    ensures Total(ValueCounts(df, c), TallyCount) == |df|
  {
    TalliesTotal(Project(df, c));
    SortDescTotal(Tallies(Project(df, c)), CountScore, TallyCount);
  }

  lemma EntriesKeys(u: seq<Tally>, t: seq<Tally>, k: Key)
    requires multiset(t) == multiset(u)
    ensures k in KeysOf(t) <==> k in KeysOf(u)
  {
    if k in KeysOf(t) {
      var i :| 0 <= i < |t| && KeysOf(t)[i] == k;
      assert t[i] in multiset(u);
      var j :| 0 <= j < |u| && u[j] == t[i];
      assert KeysOf(u)[j] == k;
    }
    if k in KeysOf(u) {
      var i :| 0 <= i < |u| && KeysOf(u)[i] == k;
      assert u[i] in multiset(t);
      var j :| 0 <= j < |t| && t[j] == u[i];
      assert KeysOf(t)[j] == k;
    }
  }
}
