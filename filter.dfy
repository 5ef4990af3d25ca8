/** Filter engine: the sidebar's four multiselects and the boolean mask that
    turns the full table `df` into `df_filtrado` (Aula04.py:66-88), plus the
    narrower `df_ds` subset of Data Scientist rows (Aula04.py:234). */
module Filter {
  import opened Keys
  import opened Salaries
  import opened Masks
  import opened Facets

  /** What the four multiselects return: the lists of accepted values. */
  datatype Selection = Selection(
    anos: seq<Key>,
    senioridades: seq<Key>,
    contratos: seq<Key>,
    tamanhos: seq<Key>)

  /** The row passes every one of the four `isin` tests. */
  predicate Matches(r: Record, sel: Selection)
  {
    && Value(r, Ano) in sel.anos
    && Value(r, Senioridade) in sel.senioridades
    && Value(r, Contrato) in sel.contratos
    && Value(r, TamanhoEmpresa) in sel.tamanhos
  }

  /** `df_filtrado`: the rows of `df` that match the selection, in table order. */
  function Filtrar(df: seq<Record>, sel: Selection): (f: seq<Record>)
    ensures forall r :: r in f <==> r in df && Matches(r, sel)
    ensures forall r :: multiset(f)[r] == if Matches(r, sel) then multiset(df)[r] else 0
    ensures IsSubsequence(f, df)
  {
    var f := Mask(df, r => Matches(r, sel));
    forall r ensures (r in f <==> r in df && Matches(r, sel))
                  && multiset(f)[r] == if Matches(r, sel) then multiset(df)[r] else 0 {
      MaskMembership(df, r => Matches(r, sel), r);
      MaskMultiplicity(df, r => Matches(r, sel), r);
    }
    MaskSubsequence(df, r => Matches(r, sel));
    f
  }

  /** The sidebar's initial state: every facet preselects its whole catalog. */
  function DefaultSelection(df: seq<Record>): (sel: Selection)
    ensures forall r :: r in df ==> Matches(r, sel)
    ensures StrictlyAscending(sel.anos) && StrictlyAscending(sel.senioridades)
    ensures StrictlyAscending(sel.contratos) && StrictlyAscending(sel.tamanhos)
  {
    Selection(Catalog(df, Ano), Catalog(df, Senioridade), Catalog(df, Contrato), Catalog(df, TamanhoEmpresa))
  }

  /** Each preselected list holds only values that some row has. */
  lemma DefaultSelectionOnlyPresent(df: seq<Record>)
    ensures var sel := DefaultSelection(df);
      && (forall v :: v in sel.anos ==> exists r :: r in df && Value(r, Ano) == v)
      && (forall v :: v in sel.senioridades ==> exists r :: r in df && Value(r, Senioridade) == v)
      && (forall v :: v in sel.contratos ==> exists r :: r in df && Value(r, Contrato) == v)
      && (forall v :: v in sel.tamanhos ==> exists r :: r in df && Value(r, TamanhoEmpresa) == v)
  {
  }

  /** The default selection is the one selection whose four lists are ascending
      enumerations of exactly the values present in their columns. */
  lemma DefaultSelectionUnique(df: seq<Record>, sel: Selection)
    requires StrictlyAscending(sel.anos) && StrictlyAscending(sel.senioridades)
    requires StrictlyAscending(sel.contratos) && StrictlyAscending(sel.tamanhos)
    requires forall v :: v in sel.anos <==> exists r :: r in df && Value(r, Ano) == v
    requires forall v :: v in sel.senioridades <==> exists r :: r in df && Value(r, Senioridade) == v
    requires forall v :: v in sel.contratos <==> exists r :: r in df && Value(r, Contrato) == v
    requires forall v :: v in sel.tamanhos <==> exists r :: r in df && Value(r, TamanhoEmpresa) == v
    ensures sel == DefaultSelection(df)
  {
    CatalogIsTheSortedValues(df, Ano, sel.anos);
    CatalogIsTheSortedValues(df, Senioridade, sel.senioridades);
    CatalogIsTheSortedValues(df, Contrato, sel.contratos);
    CatalogIsTheSortedValues(df, TamanhoEmpresa, sel.tamanhos);
  }

  /** With every filter at its default, `df_filtrado` is `df` itself. */
  lemma DefaultSelectionKeepsAll(df: seq<Record>)
    ensures Filtrar(df, DefaultSelection(df)) == df
  {
    var sel := DefaultSelection(df);
    forall i | 0 <= i < |df| ensures Matches(df[i], sel) {
      assert df[i] in df;
    }
    MaskAll(df, r => Matches(r, sel));
  }

  /** An emptied multiselect matches nothing, so the whole selection is empty. */
  lemma EmptyFacetEmptiesResult(df: seq<Record>, sel: Selection)
    requires sel.anos == [] || sel.senioridades == [] || sel.contratos == [] || sel.tamanhos == []
    ensures Filtrar(df, sel) == []
  {
    MaskNone(df, r => Matches(r, sel));
  }

  /** Filtering `df_filtrado` again with the same selection changes nothing. */
  lemma FiltrarIdempotent(df: seq<Record>, sel: Selection)
    ensures Filtrar(Filtrar(df, sel), sel) == Filtrar(df, sel)
  {
    MaskIdempotent(df, r => Matches(r, sel));
  }

  /** Two successive selections may be applied in either order. */
  lemma FiltrarCommutes(df: seq<Record>, s1: Selection, s2: Selection)
    ensures Filtrar(Filtrar(df, s1), s2) == Filtrar(Filtrar(df, s2), s1)
  {
    MaskCommutes(df, r => Matches(r, s1), r => Matches(r, s2));
  }

  /** Filtering a table split in two filters each part: kept rows keep their relative order. */
  lemma FiltrarPreservesOrder(a: seq<Record>, b: seq<Record>, sel: Selection)
    ensures Filtrar(a + b, sel) == Filtrar(a, sel) + Filtrar(b, sel)
  {
    MaskConcat(a, b, r => Matches(r, sel));
  }

  const DataScientist: string := "Data Scientist"

  predicate IsDataScientist(r: Record)
  {
    r.cargo == DataScientist
  }

  /** `df_ds`: the rows whose `cargo` is exactly "Data Scientist", in table order. */
  function DataScientists(df: seq<Record>): (ds: seq<Record>)
    ensures forall r :: r in ds <==> r in df && r.cargo == DataScientist
    ensures forall r :: multiset(ds)[r] == if r.cargo == DataScientist then multiset(df)[r] else 0
    ensures IsSubsequence(ds, df)
  {
    var ds := Mask(df, IsDataScientist);
    forall r ensures (r in ds <==> r in df && r.cargo == DataScientist)
                  && multiset(ds)[r] == if r.cargo == DataScientist then multiset(df)[r] else 0 {
      MaskMembership(df, IsDataScientist, r);
      MaskMultiplicity(df, IsDataScientist, r);
    }
    MaskSubsequence(df, IsDataScientist);
    ds
  }
}
