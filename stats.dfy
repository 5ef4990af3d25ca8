/** Column statistics and the four KPI cards of the dashboard
    (Aula04.py:113-119): mean and maximum of `usd`, the number of rows and
    the most frequent `cargo`, with fixed sentinels for an empty subset. */
module Stats {
  import opened Keys
  import opened Salaries
  import opened Facets
  import opened Sorting

  function Usd(r: Record): int
  {
    r.usd
  }

  /** `rows['usd'].sum()`. */
  function SumUsd(rows: seq<Record>): int
  {
    Total(rows, Usd)
  }

  /** `rows['usd'].mean()`, with exact arithmetic. */
  function MeanUsd(rows: seq<Record>): (m: real)
    requires rows != []
    ensures m * |rows| as real == SumUsd(rows) as real
  {
    SumUsd(rows) as real / |rows| as real
  }

  /** `rows['usd'].max()`. */
  function MaxUsd(rows: seq<Record>): (m: int)
    requires rows != []
    ensures exists i :: 0 <= i < |rows| && rows[i].usd == m
    ensures forall i :: 0 <= i < |rows| ==> rows[i].usd <= m
  {
    if |rows| == 1 then rows[0].usd
    else
      var m := MaxUsd(rows[1..]);
      assert forall i :: 1 <= i < |rows| ==> rows[i] == rows[1..][i - 1];
      if rows[0].usd >= m then rows[0].usd else m
  }

  /** `rows['usd'].min()`. */
  function MinUsd(rows: seq<Record>): (m: int)
    requires rows != []
    ensures exists i :: 0 <= i < |rows| && rows[i].usd == m
    ensures forall i :: 0 <= i < |rows| ==> m <= rows[i].usd
  {
    if |rows| == 1 then rows[0].usd
    else
      var m := MinUsd(rows[1..]);
      assert forall i :: 1 <= i < |rows| ==> rows[i] == rows[1..][i - 1];
      if rows[0].usd <= m then rows[0].usd else m
  }

  lemma {:induction false} SumBounds(rows: seq<Record>, lo: int, hi: int)
    requires forall i :: 0 <= i < |rows| ==> lo <= rows[i].usd <= hi
    ensures |rows| * lo <= SumUsd(rows) <= |rows| * hi
  {
    if rows != [] {
      SumBounds(rows[1..], lo, hi);
    }
  }

  /** Real division by a positive count keeps bounds that hold per element. */
  lemma QuotientBounds(total: real, n: real, lo: real, hi: real)
    requires n > 0.0 && n * lo <= total <= n * hi
    ensures lo <= total / n <= hi
  {
    var q := total / n;
    assert q * n == total;
    assert (q - lo) * n >= 0.0;
    assert (hi - q) * n >= 0.0;
  }

  /** The same for an integer total and count, read as reals. */
  lemma AverageBounds(total: int, n: nat, lo: int, hi: int)
    requires n > 0 && n * lo <= total <= n * hi
    ensures lo as real <= total as real / n as real <= hi as real
  {
    var nr, lr, hr := n as real, lo as real, hi as real;
    assert (n * lo) as real == nr * lr;
    assert (n * hi) as real == nr * hr;
    QuotientBounds(total as real, nr, lr, hr);
  }

  /** The mean lies between the smallest and the largest salary. */
  lemma MeanBetweenMinAndMax(rows: seq<Record>)
    requires rows != []
    ensures MinUsd(rows) as real <= MeanUsd(rows) <= MaxUsd(rows) as real
  {
    var lo, hi := MinUsd(rows), MaxUsd(rows);
    SumBounds(rows, lo, hi);
    AverageBounds(SumUsd(rows), |rows|, lo, hi);
  }

  /** How often `v` occurs in column `c`. */
  function Frequency(df: seq<Record>, c: Column, v: Key): nat
  {
    multiset(Project(df, c))[v]
  }

  /** Index of the first candidate that occurs most often in `xs`. */
  function FirstMostFrequent(cands: seq<Key>, xs: seq<Key>): (k: nat)
    requires cands != []
    ensures k < |cands|
    ensures forall i :: 0 <= i < |cands| ==> multiset(xs)[cands[i]] <= multiset(xs)[cands[k]]
    ensures forall i :: 0 <= i < k ==> multiset(xs)[cands[i]] < multiset(xs)[cands[k]]
  {
    if |cands| == 1 then 0
    else
      var front := cands[..|cands| - 1];
      var k := FirstMostFrequent(front, xs);
      assert forall i :: 0 <= i < |front| ==> front[i] == cands[i];
      if multiset(xs)[cands[|cands| - 1]] > multiset(xs)[cands[k]] then |cands| - 1 else k
  }

  /** `xs.mode()[0]`: a most frequent value, the smallest one when several tie
      (pandas returns the modes sorted). */
  function Mode(xs: seq<Key>): (m: Key)
    requires xs != []
    ensures m in xs
    ensures forall y :: y in xs ==> multiset(xs)[y] <= multiset(xs)[m]
    ensures forall y :: y in xs && y != m && multiset(xs)[y] == multiset(xs)[m] ==> Less(m, y)
  {
    var cands := SortedDistinct(xs);
    assert xs[0] in cands;
    var k := FirstMostFrequent(cands, xs);
    assert forall y :: y in xs && y != cands[k] && multiset(xs)[y] == multiset(xs)[cands[k]] ==> Less(cands[k], y) by {
      forall y | y in xs && y != cands[k] && multiset(xs)[y] == multiset(xs)[cands[k]] ensures Less(cands[k], y) {
        var i :| 0 <= i < |cands| && cands[i] == y;
        assert !(i < k);
      }
    }
    cands[k]
  }

  /** `df["cargo"].mode()[0]`: the most frequent job title, the smallest on a tie. */
  function ModalCargo(df: seq<Record>): (t: string)
    requires df != []
    ensures exists i :: 0 <= i < |df| && df[i].cargo == t
    ensures forall i :: 0 <= i < |df| ==>
      Frequency(df, Cargo, Str(df[i].cargo)) <= Frequency(df, Cargo, Str(t))
    ensures forall i ::
              0 <= i < |df| && df[i].cargo != t &&
              Frequency(df, Cargo, Str(df[i].cargo)) == Frequency(df, Cargo, Str(t))
              ==> StrLess(t, df[i].cargo)
  {
    var cargos := Project(df, Cargo);
    var m := Mode(cargos);
    var j :| 0 <= j < |cargos| && cargos[j] == m;
    assert m == Str(df[j].cargo);
    forall i | 0 <= i < |df|
      ensures Frequency(df, Cargo, Str(df[i].cargo)) <= Frequency(df, Cargo, m)
      ensures (df[i].cargo != m.s && Frequency(df, Cargo, Str(df[i].cargo)) == Frequency(df, Cargo, m))
        ==> StrLess(m.s, df[i].cargo)
    {
      assert cargos[i] == Str(df[i].cargo);
      assert cargos[i] in cargos;
    }
    m.s
  }

  /** The four KPI cards. */
  datatype Kpis = Kpis(salarioMedio: real, salarioMaximo: int, totalRegistros: nat, cargoMaisFrequente: string)

  const NoData := Kpis(0.0, 0, 0, "")

  /** The KPI block: statistics of a non-empty subset, or the sentinels `0, 0, 0, ""`. */
  function ComputeKpis(df: seq<Record>): (k: Kpis)
    ensures df == [] <==> k == NoData
    ensures df != [] ==>
      && (exists i :: 0 <= i < |df| && df[i].usd == k.salarioMaximo)
      && (forall i :: 0 <= i < |df| ==> df[i].usd <= k.salarioMaximo)
      && k.salarioMedio == SumUsd(df) as real / |df| as real
      && MinUsd(df) as real <= k.salarioMedio <= k.salarioMaximo as real
      && k.totalRegistros == |df|
      && (exists i :: 0 <= i < |df| && df[i].cargo == k.cargoMaisFrequente)
      && (forall i :: 0 <= i < |df| ==>
            Frequency(df, Cargo, Str(df[i].cargo)) <= Frequency(df, Cargo, Str(k.cargoMaisFrequente)))
      && (forall i :: 0 <= i < |df| && df[i].cargo != k.cargoMaisFrequente
            && Frequency(df, Cargo, Str(df[i].cargo)) == Frequency(df, Cargo, Str(k.cargoMaisFrequente))
            ==> StrLess(k.cargoMaisFrequente, df[i].cargo))
  {
    if df == [] then NoData
    else
      MeanBetweenMinAndMax(df);
      Kpis(MeanUsd(df), MaxUsd(df), |df|, ModalCargo(df))
  }
}
