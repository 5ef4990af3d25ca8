/** The worked example of the dashboard's behaviour: three records, filtered
    to the year 2023. */
module Scenario {
  import opened Keys
  import opened Salaries
  import opened Filter
  import opened Stats
  import opened Counts
  import opened Facets

  function Sample(): seq<Record>
  {
    [ Record(2023, "Senior", "CLT", "L", "Remoto", "Data Scientist", "BRA", 100),
      Record(2023, "Junior", "CLT", "L", "Presencial", "Data Analyst", "BRA", 50),
      Record(2022, "Senior", "PJ", "M", "Remoto", "Data Scientist", "USA", 200) ]
  }

  /** The year filter set to 2023, every other filter at its default (see `Only2023IsYearOnly`). */
  function Only2023(): Selection
  {
    Selection([Num(2023)], [Str("Junior"), Str("Senior")], [Str("CLT"), Str("PJ")], [Str("L"), Str("M")])
  }

  /** The sample's catalog of a column is a given two-value list. */
  lemma SampleCatalog(c: Column, lo: string, hi: string)
    requires c == Senioridade || c == Contrato || c == TamanhoEmpresa
    requires lo != [] && hi != [] && lo[0] < hi[0]
    requires forall r :: r in Sample() ==> Value(r, c) == Str(lo) || Value(r, c) == Str(hi)
    requires exists r :: r in Sample() && Value(r, c) == Str(lo)
    requires exists r :: r in Sample() && Value(r, c) == Str(hi)
    ensures Catalog(Sample(), c) == [Str(lo), Str(hi)]
  {
    var s := [Str(lo), Str(hi)];
    assert Less(s[0], s[1]);
    CatalogIsTheSortedValues(Sample(), c, s);
  }

  /** `Only2023` is the first render's selection with only the year narrowed. */
  lemma Only2023IsYearOnly()
    ensures Only2023() == DefaultSelection(Sample()).(anos := [Num(2023)])
  {
    var df := Sample();
    assert df[0] in df && df[1] in df && df[2] in df;
    SampleCatalog(Senioridade, "Junior", "Senior");
    SampleCatalog(Contrato, "CLT", "PJ");
    SampleCatalog(TamanhoEmpresa, "L", "M");
  }

  /** A one-row table keeps its row exactly when the row matches. */
  lemma FiltrarOneRow(r: Record, sel: Selection)
    ensures Filtrar([r], sel) == if Matches(r, sel) then [r] else []
  {
    assert [r][1..] == [];
  }

  lemma Only2023KeepsTwoRows()
    ensures Filtrar(Sample(), Only2023()) == Sample()[..2]
  {
    var df, sel := Sample(), Only2023();
    assert Matches(df[0], sel) && Matches(df[1], sel) && !Matches(df[2], sel);
    assert df == [df[0]] + [df[1]] + [df[2]];
    FiltrarPreservesOrder([df[0]] + [df[1]], [df[2]], sel);
    FiltrarPreservesOrder([df[0]], [df[1]], sel);
    FiltrarOneRow(df[0], sel);
    FiltrarOneRow(df[1], sel);
    FiltrarOneRow(df[2], sel);
  }

  /** "Data Analyst" sorts before "Data Scientist", and not the other way round. */
  lemma AnalystBeforeScientist()
    ensures StrLess("Data Analyst", "Data Scientist")
    ensures !StrLess("Data Scientist", "Data Analyst")
  {
    assert "Data Analyst" == "Data " + "Analyst";
    assert "Data Scientist" == "Data " + "Scientist";
    StrLessCommonPrefix("Data ", "Analyst", "Scientist");
    StrLessCommonPrefix("Data ", "Scientist", "Analyst");
  }

  /** Both 2023 titles occur once; the tie goes to the smaller title. */
  lemma ModalCargoOf2023()
    ensures ModalCargo(Sample()[..2]) == "Data Analyst"
  {
    var rows := Sample()[..2];
    assert Project(rows, Cargo) == [Str("Data Scientist"), Str("Data Analyst")];
    assert Frequency(rows, Cargo, Str("Data Scientist")) == 1;
    assert Frequency(rows, Cargo, Str("Data Analyst")) == 1;
    AnalystBeforeScientist();
  }

  /** Mean 75, maximum 100, two rows. */
  lemma Only2023Kpis()
    ensures ComputeKpis(Sample()[..2]) == Kpis(75.0, 100, 2, "Data Analyst")
  {
    var rows := Sample()[..2];
    assert SumUsd(rows) == 150;
    assert MaxUsd(rows) == 100;
    ModalCargoOf2023();
  }

  lemma ContractCounts()
    ensures ValueCounts(Sample(), Contrato) == [Entry(Str("CLT"), 2), Entry(Str("PJ"), 1)]
  {
  }
}
