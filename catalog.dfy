/** Facet catalog, `sorted(df[column].unique())`: the list of the distinct
    values of a column in ascending order.  The sidebar offers this list as
    the choices of a filter and also preselects all of it (Aula04.py:66-79). */
module Facets {
  import opened Keys
  import opened Salaries
  import opened Sorting

  /** Puts `x` into an ascending, duplicate-free list, unless it is already there. */
  function Insert(x: Key, s: seq<Key>): (r: seq<Key>)
    requires StrictlyAscending(s)
    ensures StrictlyAscending(r)
    ensures forall y :: y in r <==> y == x || y in s
    decreases |s|
  {
    if s == [] then [x]
    else if x == s[0] then s
    else if Less(x, s[0]) then
      assert forall j :: 0 < j < |s| ==> Less(x, s[j]) by {
        forall j | 0 < j < |s| ensures Less(x, s[j]) {
          LessTransitive(x, s[0], s[j]);
        }
      }
      [x] + s
    else
      LessTotal(x, s[0]);
      var rest := Insert(x, s[1..]);
      assert forall j :: 0 <= j < |rest| ==> Less(s[0], rest[j]) by {
        forall j | 0 <= j < |rest| ensures Less(s[0], rest[j]) {
          assert rest[j] in rest;
        }
      }
      [s[0]] + rest
  }

  /** `sorted(set(xs))`: the distinct values of `xs`, ascending. */
  function SortedDistinct(xs: seq<Key>): (r: seq<Key>)
    ensures StrictlyAscending(r)
    ensures forall y :: y in r <==> y in xs
  {
    if xs == [] then [] else Insert(xs[0], SortedDistinct(xs[1..]))
  }

  /** The catalog of one column of the table. */
  function Catalog(df: seq<Record>, c: Column): (cat: seq<Key>)
    ensures StrictlyAscending(cat)
    ensures forall v :: v in cat <==> exists r :: r in df && Value(r, c) == v
  {
    var cat := SortedDistinct(Project(df, c));
    forall v ensures v in cat <==> exists r :: r in df && Value(r, c) == v {
      ProjectMembership(df, c, v);
    }
    cat
  }

  /** A strictly ascending list is determined by its elements, so the
      catalog is the one ascending enumeration of the column's values and
      has no duplicates. */
  lemma {:induction false} AscendingUnique(a: seq<Key>, b: seq<Key>)
    requires StrictlyAscending(a) && StrictlyAscending(b)
    requires forall y :: y in a <==> y in b
    ensures a == b
    decreases |a|
  {
    if a != [] {
      assert a[0] in b;
    }
    if b != [] {
      assert b[0] in a;
    }
    if a != [] && b != [] {
      if a[0] != b[0] {
        var i :| 0 <= i < |a| && a[i] == b[0];
        var j :| 0 <= j < |b| && b[j] == a[0];
        assert Less(a[0], b[0]);
        assert Less(b[0], a[0]);
        LessAsymmetric(a[0], b[0]);
      }
      forall y ensures y in a[1..] <==> y in b[1..] {
        if y in a[1..] {
          var i :| 1 <= i < |a| && a[i] == y;
          assert Less(a[0], y);
          LessIrreflexive(y);
          assert y in b;
        }
        if y in b[1..] {
          var j :| 1 <= j < |b| && b[j] == y;
          assert Less(b[0], y);
          LessIrreflexive(y);
          assert y in a;
        }
      }
      AscendingUnique(a[1..], b[1..]);
      assert a == [a[0]] + a[1..] && b == [b[0]] + b[1..];
    }
  }

  /** Any ascending, duplicate-free list of exactly the column's values is the catalog. */
  lemma CatalogIsTheSortedValues(df: seq<Record>, c: Column, s: seq<Key>)
    requires StrictlyAscending(s)
    requires forall v :: v in s <==> exists r :: r in df && Value(r, c) == v
    ensures s == Catalog(df, c)
  {
    AscendingUnique(s, Catalog(df, c));
  }

  /** No value is listed twice. */
  lemma CatalogDistinct(df: seq<Record>, c: Column)
    ensures NoDuplicates(Catalog(df, c))
  {
    var cat := Catalog(df, c);
    forall i, j | 0 <= i < j < |cat| ensures cat[i] != cat[j] {
      LessIrreflexive(cat[i]);
    }
  }
}
