/** One render pass of the dashboard page (Aula04.py:83-421): the filtered
    table, the KPI cards and the data behind each chart.  Every chart block
    runs only when `df_filtrado` is non-empty and otherwise shows a warning,
    modelled as `None`. */
module Dashboard {
  import opened Keys
  import opened Salaries
  import opened Filter
  import opened Stats
  import opened Sorting
  import opened Counts
  import opened Groups

  datatype Option<T> = None | Some(value: T)

  datatype Page = Page(
    kpis: Kpis,
    topCargos: Option<seq<GroupMean>>,
    remoto: Option<seq<Tally>>,
    mediaDsPais: Option<seq<GroupMean>>,
    senioridadeDs: Option<seq<Tally>>,
    salarioSenioridadeDs: Option<seq<GroupMean>>,
    salarioTamanho: Option<seq<GroupMean>>,
    salarioContratoDs: Option<seq<GroupMean>>,
    detalhes: seq<Record>)

  /** How many job titles the top chart shows. */
  const TopN: nat := 10

  predicate AllChartsShown(p: Page)
  {
    && p.topCargos.Some? && p.remoto.Some? && p.mediaDsPais.Some? && p.senioridadeDs.Some?
    && p.salarioSenioridadeDs.Some? && p.salarioTamanho.Some? && p.salarioContratoDs.Some?
  }

  predicate NoChartShown(p: Page)
  {
    && p.topCargos.None? && p.remoto.None? && p.mediaDsPais.None? && p.senioridadeDs.None?
    && p.salarioSenioridadeDs.None? && p.salarioTamanho.None? && p.salarioContratoDs.None?
  }

  function Render(df: seq<Record>, sel: Selection): (p: Page)
    ensures p.detalhes == Filtrar(df, sel)
    ensures p.detalhes == [] ==> NoChartShown(p) && p.kpis == NoData
    ensures p.detalhes != [] ==> AllChartsShown(p) && p.kpis.totalRegistros == |p.detalhes|
    ensures p.topCargos.Some? ==> |p.topCargos.value| <= TopN
    ensures p.remoto.Some? ==> Total(p.remoto.value, TallyCount) == |p.detalhes|
    ensures p.senioridadeDs.Some? ==> Total(p.senioridadeDs.value, TallyCount) == |DataScientists(p.detalhes)|
    ensures p.mediaDsPais.Some? ==> forall k :: k in KeysOf(p.mediaDsPais.value) <==>
              exists r :: r in df && Matches(r, sel) && r.cargo == DataScientist && Value(r, ResidenciaIso3) == k
    ensures p.kpis == ComputeKpis(p.detalhes)
    ensures p.detalhes != [] ==>
      var f, ds := p.detalhes, DataScientists(p.detalhes);
      && p.topCargos == Some(TopByMean(f, Cargo, TopN))
      && p.remoto == Some(ValueCounts(f, Remoto))
      && p.mediaDsPais == Some(GroupMeans(ds, ResidenciaIso3))
      && p.senioridadeDs == Some(ValueCounts(ds, Senioridade))
      && p.salarioSenioridadeDs == Some(GroupMeans(ds, Senioridade))
      && p.salarioTamanho == Some(GroupMeans(f, TamanhoEmpresa))
      && p.salarioContratoDs == Some(GroupMeans(ds, Contrato))
  {
    var f := Filtrar(df, sel);
    if f == [] then
      Page(ComputeKpis(f), None, None, None, None, None, None, None, f)
    else
      var ds := DataScientists(f);
      ValueCountsTotal(f, Remoto);
      ValueCountsTotal(ds, Senioridade);
      Page(
        ComputeKpis(f),
        Some(TopByMean(f, Cargo, TopN)),
        Some(ValueCounts(f, Remoto)),
        Some(GroupMeans(ds, ResidenciaIso3)),
        Some(ValueCounts(ds, Senioridade)),
        Some(GroupMeans(ds, Senioridade)),
        Some(GroupMeans(f, TamanhoEmpresa)),
        Some(GroupMeans(ds, Contrato)),
        f)
  }

  /** On first load, with every filter at its default, the page shows the whole table. */
  lemma FirstRenderShowsEverything(df: seq<Record>)
    ensures Render(df, DefaultSelection(df)).detalhes == df
    ensures df != [] ==> AllChartsShown(Render(df, DefaultSelection(df)))
  {
    DefaultSelectionKeepsAll(df);
  }
}
