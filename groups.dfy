/** Group-by means, `table.groupby(column)['usd'].mean()` (Aula04.py:235, 320,
    360, 390), and the top-10 job titles by mean salary,
    `.groupby('cargo')['usd'].mean().nlargest(10).sort_values(ascending=True)`
    (Aula04.py:134).  pandas lists the groups of a `groupby` in ascending
    key order. */
module Groups {
  import opened Keys
  import opened Salaries
  import opened Masks
  import opened Facets
  import opened Sorting
  import opened Stats

  /** A group-by row: the group's key and the mean `usd` of its rows. */
  type GroupMean = Entry<real>

  /** The rows whose column `c` holds `k`, in table order. */
  function Group(df: seq<Record>, c: Column, k: Key): (g: seq<Record>)
    ensures forall i :: 0 <= i < |g| ==> Value(g[i], c) == k
    ensures IsSubsequence(g, df)
    ensures forall r :: multiset(g)[r] == if Value(r, c) == k then multiset(df)[r] else 0
  {
    var g := Mask(df, r => Value(r, c) == k);
    forall i | 0 <= i < |g| ensures Value(g[i], c) == k {
      MaskMembership(df, r => Value(r, c) == k, g[i]);
    }
    forall r ensures multiset(g)[r] == if Value(r, c) == k then multiset(df)[r] else 0 {
      MaskMultiplicity(df, r => Value(r, c) == k, r);
    }
    MaskSubsequence(df, r => Value(r, c) == k);
    g
  }

  lemma GroupMembership(df: seq<Record>, c: Column, k: Key, r: Record)
    ensures r in Group(df, c, k) <==> r in df && Value(r, c) == k
  {
    MaskMembership(df, r => Value(r, c) == k, r);
  }

  /** The mean of each listed group, in the order of `keys`. */
  function MeansOf(df: seq<Record>, c: Column, keys: seq<Key>): (g: seq<GroupMean>)
    requires forall k :: k in keys ==> Group(df, c, k) != []
    ensures |g| == |keys|
    ensures forall i :: 0 <= i < |g| ==> g[i].key == keys[i] && g[i].value == MeanUsd(Group(df, c, keys[i]))
  {
    if keys == [] then []
    else [Entry(keys[0], MeanUsd(Group(df, c, keys[0])))] + MeansOf(df, c, keys[1..])
  }

  /** The key of every group and the usd mean of its rows, ascending by key. */
  function GroupMeans(df: seq<Record>, c: Column): (g: seq<GroupMean>)
    ensures df == [] <==> g == []
    ensures forall i, j :: 0 <= i < j < |g| ==> Less(g[i].key, g[j].key)
    ensures forall k :: k in KeysOf(g) <==> exists r :: r in df && Value(r, c) == k
    ensures forall i :: 0 <= i < |g| ==>
              var rows := Group(df, c, g[i].key);
              && rows != []
              && (forall r :: r in rows <==> r in df && Value(r, c) == g[i].key)
              && g[i].value == SumUsd(rows) as real / |rows| as real
  {
    var cat := Catalog(df, c);
    forall k | k in cat ensures Group(df, c, k) != [] {
      var r :| r in df && Value(r, c) == k;
      GroupMembership(df, c, k, r);
    }
    forall k, r ensures r in Group(df, c, k) <==> r in df && Value(r, c) == k {
      GroupMembership(df, c, k, r);
    }
    assert df != [] ==> Value(df[0], c) in cat;
    var g := MeansOf(df, c, cat);
    assert KeysOf(g) == cat;
    g
  }

  /** There is one group per distinct value of the column: the group keys are the column's catalog. */
  lemma GroupMeansKeysAreCatalog(df: seq<Record>, c: Column)
    ensures KeysOf(GroupMeans(df, c)) == Catalog(df, c)
  {
    var g := GroupMeans(df, c);
    var ks := KeysOf(g);
    assert StrictlyAscending(ks);
    CatalogIsTheSortedValues(df, c, ks);
  }

  /** Each group's mean lies between the smallest and the largest salary of that group. */
  lemma GroupMeanBounds(df: seq<Record>, c: Column, i: nat)
    requires i < |GroupMeans(df, c)|
    ensures var e := GroupMeans(df, c)[i];
      MinUsd(Group(df, c, e.key)) as real <= e.value <= MaxUsd(Group(df, c, e.key)) as real
  {
    MeanBetweenMinAndMax(Group(df, c, GroupMeans(df, c)[i].key));
  }

  function MeanScore(e: GroupMean): real
  {
    e.value
  }

  function NegatedMeanScore(e: GroupMean): real
  {
    -e.value
  }

  /** `.groupby(c)['usd'].mean().nlargest(n).sort_values(ascending=True)`:
      the `n` groups with the highest means (all of them if there are fewer),
      listed from the lowest mean to the highest.  Both sorts are stable and
      the groups start in key order, so on equal means the smaller key wins a
      place and comes first, as with pandas' `keep='first'`. */
  function TopByMean(df: seq<Record>, c: Column, n: nat): (t: seq<GroupMean>)
    ensures |t| == if n < |GroupMeans(df, c)| then n else |GroupMeans(df, c)|
  {
    SortDesc(Largest(GroupMeans(df, c), n), NegatedMeanScore)
  }

  /** `.nlargest(n)`: the first `n` groups in descending order of mean. */
  function Largest(g: seq<GroupMean>, n: nat): (top: seq<GroupMean>)
    ensures |top| == if n < |g| then n else |g|
  {
    var d := SortDesc(g, MeanScore);
    d[..if n < |d| then n else |d|]
  }

  /** `nlargest` keeps only given groups, and every group it drops has a mean
      no higher than each group it keeps. */
  lemma LargestFacts(g: seq<GroupMean>, n: nat)
    ensures forall x :: x in Largest(g, n) ==> x in g
    ensures forall e, x :: e in g && e !in Largest(g, n) && x in Largest(g, n) ==> e.value <= x.value
    ensures NoDuplicates(g) ==> NoDuplicates(Largest(g, n))
  {
    var d := SortDesc(g, MeanScore);
    var k := if n < |d| then n else |d|;
    var top := d[..k];
    SortDescPermutes(g, MeanScore);
    SortDescSorted(g, MeanScore);
    assert forall x :: x in d <==> x in g by {
      forall x ensures x in d <==> x in g {
        assert x in d <==> x in multiset(d);
        assert x in g <==> x in multiset(g);
      }
    }
    forall e, x | e in g && e !in top && x in top ensures e.value <= x.value {
      var a :| 0 <= a < |d| && d[a] == e;
      var b :| 0 <= b < k && top[b] == x;
      assert d[b] == x;
      assert a >= k;
    }
    if NoDuplicates(g) {
      SortDescNoDuplicates(g, MeanScore);
    }
  }

  lemma GroupMeansNoDuplicates(df: seq<Record>, c: Column)
    ensures NoDuplicates(GroupMeans(df, c))
  {
    var g := GroupMeans(df, c);
    forall p, q | 0 <= p < q < |g| ensures g[p] != g[q] {
      LessIrreflexive(g[p].key);
    }
  }

  lemma TopByMeanIsLargest(df: seq<Record>, c: Column, n: nat)
    ensures forall x :: x in TopByMean(df, c, n) <==> x in Largest(GroupMeans(df, c), n)
  {
    var top := Largest(GroupMeans(df, c), n);
    var t := TopByMean(df, c, n);
    SortDescPermutes(top, NegatedMeanScore);
    forall x ensures x in t <==> x in top {
      assert x in t <==> x in multiset(t);
      assert x in top <==> x in multiset(top);
    }
  }

  /** The top table lists only groups of the column, with their means. */
  lemma TopByMeanListsGroups(df: seq<Record>, c: Column, n: nat)
    ensures forall e :: e in TopByMean(df, c, n) ==> e in GroupMeans(df, c)
  {
    LargestFacts(GroupMeans(df, c), n);
    TopByMeanIsLargest(df, c, n);
  }

  /** The top table runs from the lowest mean to the highest. */
  lemma TopByMeanAscending(df: seq<Record>, c: Column, n: nat)
    ensures forall i, j :: 0 <= i < j < |TopByMean(df, c, n)| ==>
              TopByMean(df, c, n)[i].value <= TopByMean(df, c, n)[j].value
  {
    SortDescSorted(Largest(GroupMeans(df, c), n), NegatedMeanScore);
  }

  /** Two different entries of a table with strictly ascending keys have different keys. */
  lemma AscendingKeysDiffer(g: seq<GroupMean>, x: GroupMean, y: GroupMean)
    requires forall i, j :: 0 <= i < j < |g| ==> Less(g[i].key, g[j].key)
    requires x in g && y in g && x != y
    ensures x.key != y.key
  {
    var a :| 0 <= a < |g| && g[a] == x;
    var b :| 0 <= b < |g| && g[b] == y;
    if a < b {
      LessIrreflexive(g[a].key);
    } else {
      LessIrreflexive(g[b].key);
    }
  }

  /** No group appears twice in the top table. */
  lemma TopByMeanDistinct(df: seq<Record>, c: Column, n: nat)
    ensures NoDuplicates(KeysOf(TopByMean(df, c, n)))
  {
    var g := GroupMeans(df, c);
    var t := TopByMean(df, c, n);
    LargestFacts(g, n);
    GroupMeansNoDuplicates(df, c);
    SortDescNoDuplicates(Largest(g, n), NegatedMeanScore);
    TopByMeanListsGroups(df, c, n);
    var kt := KeysOf(t);
    forall i, j | 0 <= i < j < |t| ensures kt[i] != kt[j] {
      AscendingKeysDiffer(g, t[i], t[j]);
    }
  }

  /** No group left out of the top table has a higher mean than any group in it. */
  lemma TopByMeanOmitsOnlyLower(df: seq<Record>, c: Column, n: nat)
    ensures forall e, x :: e in GroupMeans(df, c) && e !in TopByMean(df, c, n) && x in TopByMean(df, c, n) ==>
              e.value <= x.value
  {
    LargestFacts(GroupMeans(df, c), n);
    TopByMeanIsLargest(df, c, n);
  }

  /** The top table has `n` entries, or one per distinct value of the column when there are fewer. */
  lemma TopByMeanSize(df: seq<Record>, c: Column, n: nat)
    ensures |TopByMean(df, c, n)| == if n < |Catalog(df, c)| then n else |Catalog(df, c)|
    ensures |TopByMean(df, c, n)| <= n
  {
    GroupMeansKeysAreCatalog(df, c);
  }
}
