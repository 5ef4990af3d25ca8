/** The salary table: one record per row of the CSV file the dashboard loads.
    Only the columns the dashboard reads are modelled.  The `usd` column
    holds whole dollars, so it is an `int`; means computed from it are
    `real`, exact rather than floating point. */
module Salaries {
  import opened Keys

  datatype Record = Record(
    ano: int,
    senioridade: string,
    contrato: string,
    tamanhoEmpresa: string,
    remoto: string,
    cargo: string,
    residenciaIso3: string,
    usd: int)

  /** The columns the dashboard selects, groups or counts by. */
  datatype Column = Ano | Senioridade | Contrato | TamanhoEmpresa | Remoto | Cargo | ResidenciaIso3

  /** `row[column]`, as a key. */
  function Value(r: Record, c: Column): Key
  {
    match c
    case Ano => Num(r.ano)
    case Senioridade => Str(r.senioridade)
    case Contrato => Str(r.contrato)
    case TamanhoEmpresa => Str(r.tamanhoEmpresa)
    case Remoto => Str(r.remoto)
    case Cargo => Str(r.cargo)
    case ResidenciaIso3 => Str(r.residenciaIso3)
  }

  /** `df[column]`: the column as a sequence, row by row. */
  function Project(df: seq<Record>, c: Column): (col: seq<Key>)
    ensures |col| == |df|
    ensures forall i :: 0 <= i < |df| ==> col[i] == Value(df[i], c)
  {
    if df == [] then [] else [Value(df[0], c)] + Project(df[1..], c)
  }

  lemma ProjectMembership(df: seq<Record>, c: Column, v: Key)
    ensures v in Project(df, c) <==> exists r :: r in df && Value(r, c) == v
  {
    var col := Project(df, c);
    if v in col {
      var i :| 0 <= i < |col| && col[i] == v;
      assert df[i] in df;
    }
    if exists r :: r in df && Value(r, c) == v {
      var r :| r in df && Value(r, c) == v;
      var i :| 0 <= i < |df| && df[i] == r;
      assert col[i] == v;
    }
  }
}
