/**
 * INPEC/dashborad.py: cleaning of a module's sheet (every cell stripped, and
 * for the Entregables module a derived ESTADO column), the choice of columns
 * offered as filters, and the chain of sidebar filters.
 */
module Inpec {
  import opened Wrappers
  import opened Text
  import opened Frames

  const REALIZADO := "REALIZADO POR LA FUAA"
  const APROBADO := "APROBADO POR LA CNSC"
  const OBSERVACION := "OBSERVACIÓN Y/O STATUS"
  const ESTADO := "ESTADO"
  /** The default bound on distinct values for a filterable column. */
  const MAX_UNIQUE := 20

  /**
   * The ESTADO of a deliverable: approved when done and approved, rejected
   * when done, explicitly not approved and the observation mentions "rechaz"
   * in any case, delivered for any other done row, pending otherwise.
   */
  function EstadoEntregable(realizado: string, aprobado: string, observacion: string): (r: string)
    ensures r == "Aprobado" <==> realizado == "TRUE" && aprobado == "TRUE"
    ensures r == "Rechazado" <==> realizado == "TRUE" && aprobado == "FALSE" && Contains(Lower(observacion), "rechaz")
    ensures r == "Entregado" <==>
      realizado == "TRUE" && aprobado != "TRUE" && !(aprobado == "FALSE" && Contains(Lower(observacion), "rechaz"))
    ensures r == "Pendiente" <==> realizado != "TRUE"
  {
    if realizado == "TRUE" && aprobado == "TRUE" then "Aprobado"
    else if realizado == "TRUE" && aprobado == "FALSE" && Contains(Lower(observacion), "rechaz") then "Rechazado"
    else if realizado == "TRUE" then "Entregado"
    else "Pendiente"
  }

  /** An approval cell that is neither TRUE nor FALSE still counts as delivered, whatever the observation. */
  lemma UnknownApprovalIsDelivered(observacion: string)
    ensures EstadoEntregable("TRUE", "N/A", observacion) == "Entregado"
    ensures EstadoEntregable("FALSE", "TRUE", observacion) == "Pendiente"
  {
  }

  /** A rejection is recognised in upper case too. */
  lemma RejectionIgnoresCase()
    ensures EstadoEntregable("TRUE", "FALSE", "RECHAZADO") == "Rechazado"
  {
    assert Lower("RECHAZADO") == "rechazado";
    assert OccursAt(Lower("RECHAZADO"), "rechaz", 0);
  }

  /** The ESTADO values need no stripping. */
  lemma EstadoStripped(realizado: string, aprobado: string, observacion: string)
    ensures Strip(EstadoEntregable(realizado, aprobado, observacion)) == EstadoEntregable(realizado, aprobado, observacion)
  {
    var e := EstadoEntregable(realizado, aprobado, observacion);
    assert !IsSpace(e[0]) && !IsSpace(e[|e| - 1]);
    StripLeadingFixed(e);
    StripTrailingFixed(e);
  }

  /** df[col] = df[col].astype(str).str.strip() */
  function StripColumn(t: Table, col: string): (r: Table)
    requires t.WellFormed() && col in t.columns
    ensures r.WellFormed() && r.columns == t.columns && |r.rows| == |t.rows|
    ensures forall k, c :: 0 <= k < |t.rows| && c in t.columns ==>
      r.rows[k][c] == if c == col then Strip(t.rows[k][c]) else t.rows[k][c]
  {
    Table(t.columns, seq(|t.rows|, k requires 0 <= k < |t.rows| => t.rows[k][col := Strip(t.rows[k][col])]))
  }

  /** The np.where chain: ESTADO set on every row, added as a last column when the sheet had none. */
  function WithEstado(t: Table): (r: Table)
    requires t.WellFormed() && REALIZADO in t.columns && APROBADO in t.columns && OBSERVACION in t.columns
    ensures r.WellFormed() && |r.rows| == |t.rows|
    ensures r.columns == if ESTADO in t.columns then t.columns else t.columns + [ESTADO]
    ensures forall k :: 0 <= k < |t.rows| ==>
      r.rows[k] == t.rows[k][ESTADO := EstadoEntregable(t.rows[k][REALIZADO], t.rows[k][APROBADO], t.rows[k][OBSERVACION])]
  {
    var columns := if ESTADO in t.columns then t.columns else t.columns + [ESTADO];
    var r := Table(columns, seq(|t.rows|, k requires 0 <= k < |t.rows| =>
      t.rows[k][ESTADO := EstadoEntregable(t.rows[k][REALIZADO], t.rows[k][APROBADO], t.rows[k][OBSERVACION])]));
    assert r.ColumnSet() == t.ColumnSet() + {ESTADO};
    assert Distinct(columns) by {
      if ESTADO !in t.columns {
        forall i, j | 0 <= i < j < |columns| ensures columns[i] != columns[j] {
          if j == |t.columns| {
            assert columns[i] == t.columns[i];
          }
        }
      }
    }
    r
  }

  /** The first column the ESTADO rule reads that the sheet lacks, in the order the rule reads them. */
  function MissingForEstado(t: Table): Option<string> {
    if REALIZADO !in t.columns then Some(REALIZADO)
    else if APROBADO !in t.columns then Some(APROBADO)
    else if OBSERVACION !in t.columns then Some(OBSERVACION)
    else None
  }

  /** Every cell of the table is already stripped. */
  ghost predicate AllStripped(t: Table) {
    forall k, c :: 0 <= k < |t.rows| && c in t.rows[k] ==> Strip(t.rows[k][c]) == t.rows[k][c]
  }

  /** After i steps of the loop: the first i columns stripped, the others as in df. */
  ghost predicate StrippedUpTo(df: Table, t: Table, i: int)
    requires df.WellFormed() && 0 <= i <= |df.columns|
  {
    && t.WellFormed() && t.columns == df.columns && |t.rows| == |df.rows|
    && forall k, c :: 0 <= k < |df.rows| && c in df.columns ==>
      t.rows[k][c] == if c in df.columns[..i] then Strip(df.rows[k][c]) else df.rows[k][c]
  }

  /** One turn of the loop: df[col] = df[col].astype(str).str.strip() for the i-th column. */
  method StripNext(ghost df: Table, t: Table, i: int) returns (next: Table)
    requires df.WellFormed() && 0 <= i < |df.columns| && StrippedUpTo(df, t, i)
    ensures StrippedUpTo(df, next, i + 1)
  {
    var col := t.columns[i];
    assert col !in df.columns[..i];
    assert df.columns[..i + 1] == df.columns[..i] + [col];
    next := StripColumn(t, col);
  }

  lemma StripDone(df: Table, t: Table)
    requires df.WellFormed() && StrippedUpTo(df, t, |df.columns|)
    ensures forall k, c :: 0 <= k < |df.rows| && c in df.columns ==> t.rows[k][c] == Strip(df.rows[k][c])
    ensures AllStripped(t)
  {
    assert df.columns[..|df.columns|] == df.columns;
    forall k, c | 0 <= k < |t.rows| && c in t.rows[k] ensures Strip(t.rows[k][c]) == t.rows[k][c] {
      StripIdempotent(df.rows[k][c]);
    }
  }

  /** The loop over df.columns: each column in turn replaced by its stripped cells. */
  method StripCells(df: Table) returns (t: Table)
    requires df.WellFormed()
    ensures t.WellFormed() && t.columns == df.columns && |t.rows| == |df.rows|
    ensures forall k, c :: 0 <= k < |df.rows| && c in df.columns ==> t.rows[k][c] == Strip(df.rows[k][c])
    ensures AllStripped(t)
  {
    t := df;
    var i := 0;
    assert df.columns[..0] == [];
    while i < |df.columns|
      invariant 0 <= i <= |df.columns|
      invariant StrippedUpTo(df, t, i)
    {
      t := StripNext(df, t, i);
      i := i + 1;
    }
    StripDone(df, t);
  }

  lemma EstadoKeepsStripped(t: Table)
    requires t.WellFormed() && REALIZADO in t.columns && APROBADO in t.columns && OBSERVACION in t.columns
    requires AllStripped(t)
    ensures AllStripped(WithEstado(t))
  {
    var e := WithEstado(t);
    forall k, c | 0 <= k < |e.rows| && c in e.rows[k] ensures Strip(e.rows[k][c]) == e.rows[k][c] {
      EstadoStripped(t.rows[k][REALIZADO], t.rows[k][APROBADO], t.rows[k][OBSERVACION]);
    }
  }

  /**
   * What a cleaned sheet looks like: every original cell stripped and, for
   * Entregables, an ESTADO column computed from the stripped cells.
   */
  ghost predicate CleanedFrom(modulo: string, df: Table, u: Table) {
    && u.WellFormed()
    && |u.rows| == |df.rows|
    && u.columns == (if modulo == "Entregables" && ESTADO !in df.columns then df.columns + [ESTADO] else df.columns)
    && (forall k, c :: 0 <= k < |df.rows| && c in df.rows[k] && !(modulo == "Entregables" && c == ESTADO) ==>
          c in u.rows[k] && u.rows[k][c] == Strip(df.rows[k][c]))
    && (modulo == "Entregables" ==>
          && REALIZADO in df.columns && APROBADO in df.columns && OBSERVACION in df.columns
          && forall k :: 0 <= k < |df.rows| ==>
            && REALIZADO in df.rows[k] && APROBADO in df.rows[k] && OBSERVACION in df.rows[k] && ESTADO in u.rows[k]
            && u.rows[k][ESTADO] == EstadoEntregable(
              Strip(df.rows[k][REALIZADO]), Strip(df.rows[k][APROBADO]), Strip(df.rows[k][OBSERVACION])))
    && AllStripped(u)
  }

  /** Deriving ESTADO leaves every other stripped cell as it was. */
  lemma EstadoKeepsCells(df: Table, t: Table)
    requires df.WellFormed() && t.WellFormed() && t.columns == df.columns && |t.rows| == |df.rows|
    requires forall k, c :: 0 <= k < |df.rows| && c in df.columns ==> t.rows[k][c] == Strip(df.rows[k][c])
    requires REALIZADO in df.columns && APROBADO in df.columns && OBSERVACION in df.columns
    ensures forall k, c :: 0 <= k < |df.rows| && c in df.rows[k] && c != ESTADO ==>
      c in WithEstado(t).rows[k] && WithEstado(t).rows[k][c] == Strip(df.rows[k][c])
  {
    var u := WithEstado(t);
    forall k, c | 0 <= k < |df.rows| && c in df.rows[k] && c != ESTADO
      ensures c in u.rows[k] && u.rows[k][c] == Strip(df.rows[k][c])
    {
      assert c in df.ColumnSet();
    }
  }

  /** ESTADO applies the rule to the stripped cells of the original row. */
  lemma EstadoFromStripped(df: Table, t: Table)
    requires df.WellFormed() && t.WellFormed() && t.columns == df.columns && |t.rows| == |df.rows|
    requires forall k, c :: 0 <= k < |df.rows| && c in df.columns ==> t.rows[k][c] == Strip(df.rows[k][c])
    requires REALIZADO in df.columns && APROBADO in df.columns && OBSERVACION in df.columns
    ensures forall k :: 0 <= k < |df.rows| ==>
      && REALIZADO in df.rows[k] && APROBADO in df.rows[k] && OBSERVACION in df.rows[k] && ESTADO in WithEstado(t).rows[k]
      && WithEstado(t).rows[k][ESTADO] == EstadoEntregable(
        Strip(df.rows[k][REALIZADO]), Strip(df.rows[k][APROBADO]), Strip(df.rows[k][OBSERVACION]))
  {
    var u := WithEstado(t);
    forall k | 0 <= k < |df.rows|
      ensures REALIZADO in df.rows[k] && APROBADO in df.rows[k] && OBSERVACION in df.rows[k] && ESTADO in u.rows[k]
      ensures u.rows[k][ESTADO] == EstadoEntregable(
        Strip(df.rows[k][REALIZADO]), Strip(df.rows[k][APROBADO]), Strip(df.rows[k][OBSERVACION]))
    {
      assert REALIZADO in df.ColumnSet() && APROBADO in df.ColumnSet() && OBSERVACION in df.ColumnSet();
    }
  }

  /** The Entregables branch: ESTADO derived from a fully stripped copy. */
  lemma EstadoCleaned(df: Table, t: Table)
    requires df.WellFormed() && t.WellFormed() && t.columns == df.columns && |t.rows| == |df.rows|
    requires forall k, c :: 0 <= k < |df.rows| && c in df.columns ==> t.rows[k][c] == Strip(df.rows[k][c])
    requires AllStripped(t)
    requires REALIZADO in df.columns && APROBADO in df.columns && OBSERVACION in df.columns
    ensures CleanedFrom("Entregables", df, WithEstado(t))
  {
    EstadoKeepsStripped(t);
    EstadoKeepsCells(df, t);
    EstadoFromStripped(df, t);
  }

  /**
   * limpiar_datos_por_modulo: on a copy, strip every cell column by column;
   * for Entregables then derive ESTADO from the stripped cells, which raises
   * KeyError when one of the three columns it reads is missing.
   */
  method CleanModuleData(modulo: string, df: Table) returns (r: Result<Table, KeyError>)
    requires df.WellFormed()
    ensures r.Failure? <==> modulo == "Entregables" && MissingForEstado(df).Some?
    ensures r.Failure? ==> r.error == KeyError(MissingForEstado(df).value)
    ensures r.Success? ==> CleanedFrom(modulo, df, r.value)
  {
    var t := StripCells(df);
    if modulo == "Entregables" {
      if REALIZADO !in t.columns {
        return Failure(KeyError(REALIZADO));
      }
      if APROBADO !in t.columns {
        return Failure(KeyError(APROBADO));
      }
      if OBSERVACION !in t.columns {
        return Failure(KeyError(OBSERVACION));
      }
      EstadoCleaned(df, t);
      return Success(WithEstado(t));
    }
    return Success(t);
  }

  /** The distinct values of a column (nunique). */
  function DistinctValues(t: Table, c: string): set<string>
    requires t.WellFormed() && c in t.columns
  {
    set k | 0 <= k < |t.rows| :: t.rows[k][c]
  }

  /** Offered as a filter: few distinct values, and not a pandas placeholder name. */
  predicate Filterable(t: Table, c: string, maxUnique: int)
    requires t.WellFormed() && c in t.columns
  {
    |DistinctValues(t, c)| <= maxUnique && !StartsWith(Lower(c), "unnamed")
  }

  function {:induction false} FilterableAmong(t: Table, cols: seq<string>, maxUnique: int): (r: seq<string>)
    requires t.WellFormed() && forall c :: c in cols ==> c in t.columns
    ensures IsSubsequence(r, cols)
    ensures forall c :: c in r <==> c in cols && Filterable(t, c, maxUnique)
  {
    if cols == [] then []
    else
      var rest := FilterableAmong(t, cols[1..], maxUnique);
      assert forall c :: c in cols <==> c == cols[0] || c in cols[1..];
      if Filterable(t, cols[0], maxUnique) then
        assert ([cols[0]] + rest)[1..] == rest;
        [cols[0]] + rest
      else
        SubsequenceDropsHead(rest, cols);
        rest
  }

  lemma SubsequenceDropsHead(a: seq<string>, b: seq<string>)
    requires b != [] && IsSubsequence(a, b[1..])
    ensures IsSubsequence(a, b)
  {
  }

  /**
   * detectar_columnas_filtrables: the columns, in table order, with at most
   * maxUnique distinct values whose lower-cased name does not start with
   * "unnamed".
   */
  function DetectFilterableColumns(t: Table, maxUnique: int): (r: seq<string>)
    requires t.WellFormed()
    ensures IsSubsequence(r, t.columns)
    ensures forall c :: c in r <==> c in t.columns && Filterable(t, c, maxUnique)
  {
    FilterableAmong(t, t.columns, maxUnique)
  }

  /** Columns named "Unnamed: n" (a pandas placeholder) are never offered. */
  lemma PlaceholderNeverFilterable(t: Table)
    requires t.WellFormed() && "Unnamed: 0" in t.columns
    ensures "Unnamed: 0" !in DetectFilterableColumns(t, MAX_UNIQUE)
  {
    assert Lower("Unnamed: 0")[..7] == "unnamed";
  }

  /** The filter dictionary, in insertion order: a column and the value selected for it. */
  type FilterChoices = seq<(string, string)>

  /** The conditions the non-"Todos" filters impose, in dictionary order. */
  function {:induction false} ActiveFilters(filtros: FilterChoices): (cs: seq<Cond>)
    ensures forall j :: 0 <= j < |cs| ==> cs[j].Equals?
    ensures forall c :: c in cs <==> exists i :: 0 <= i < |filtros| && filtros[i].1 != "Todos" && c == Equals(filtros[i].0, filtros[i].1)
  {
    if filtros == [] then []
    else
      var init := filtros[..|filtros| - 1];
      var last := filtros[|filtros| - 1];
      var front := ActiveFilters(init);
      assert forall i :: 0 <= i < |init| ==> init[i] == filtros[i];
      if last.1 != "Todos" then front + [Equals(last.0, last.1)] else front
  }

  /** The first non-"Todos" filter whose column the table lacks: df[col] raises KeyError there. */
  function {:induction false} FirstMissingFilter(t: Table, filtros: FilterChoices): Option<string> {
    if filtros == [] then None
    else
      var front := FirstMissingFilter(t, filtros[..|filtros| - 1]);
      var last := filtros[|filtros| - 1];
      if front.Some? then front
      else if last.1 != "Todos" && last.0 !in t.columns then Some(last.0)
      else None
  }

  lemma {:induction false} FirstMissingExtends(t: Table, filtros: FilterChoices, j: nat)
    requires j <= |filtros| && FirstMissingFilter(t, filtros[..j]).Some?
    ensures FirstMissingFilter(t, filtros) == FirstMissingFilter(t, filtros[..j])
    decreases |filtros| - j
  {
    if j < |filtros| {
      assert filtros[..j + 1][..j] == filtros[..j];
      FirstMissingExtends(t, filtros, j + 1);
    } else {
      assert filtros[..j] == filtros;
    }
  }

  /** With no missing column, every active filter reads a column of the table. */
  lemma {:induction false} ActiveFiltersReadable(t: Table, filtros: FilterChoices)
    requires t.WellFormed() && FirstMissingFilter(t, filtros).None?
    ensures forall j :: 0 <= j < |ActiveFilters(filtros)| ==> ActiveFilters(filtros)[j].column in t.columns
  {
    if filtros != [] {
      ActiveFiltersReadable(t, filtros[..|filtros| - 1]);
    }
  }

  /**
   * aplicar_filtros_dinamicos: each filter whose value is not "Todos" keeps
   * the rows whose cell equals it exactly ("" included); a filter on a
   * missing column raises KeyError.
   */
  method ApplyDynamicFilters(df: Table, filtros: FilterChoices) returns (r: Result<Table, KeyError>)
    requires df.WellFormed()
    ensures r.Failure? <==> FirstMissingFilter(df, filtros).Some?
    ensures r.Failure? ==> r.error == KeyError(FirstMissingFilter(df, filtros).value)
    ensures r.Success? ==>
      && ReadableAll(ActiveFilters(filtros), df.rows)
      && r.value == Table(df.columns, Where(df.rows, ActiveFilters(filtros)))
      && r.value.WellFormed()
  {
    var out := df;
    var i := 0;
    WhereNothing(df.rows);
    while i < |filtros|
      invariant 0 <= i <= |filtros|
      invariant FirstMissingFilter(df, filtros[..i]).None?
      invariant ReadableAll(ActiveFilters(filtros[..i]), df.rows)
      invariant out == Table(df.columns, Where(df.rows, ActiveFilters(filtros[..i])))
    {
      var (col, val) := filtros[i];
      assert filtros[..i + 1][..i] == filtros[..i];
      if val != "Todos" {
        if col !in out.columns {
          FirstMissingExtends(df, filtros, i + 1);
          return Failure(KeyError(col));
        }
        ActiveFiltersReadable(df, filtros[..i + 1]);
        WhereAppend(df.rows, ActiveFilters(filtros[..i]), [Equals(col, val)]);
        out := Table(out.columns, Where(out.rows, [Equals(col, val)]));
      }
      i := i + 1;
    }
    assert filtros[..i] == filtros;
    WhereWellFormed(df, ActiveFilters(filtros));
    return Success(out);
  }

  /** With every filter at "Todos" the table comes back whole. */
  lemma {:induction false} AllTodosKeepsAll(df: Table, filtros: FilterChoices)
    requires forall i :: 0 <= i < |filtros| ==> filtros[i].1 == "Todos"
    ensures ActiveFilters(filtros) == []
    ensures FirstMissingFilter(df, filtros).None?
    ensures Where(df.rows, ActiveFilters(filtros)) == df.rows
  {
    if filtros != [] {
      AllTodosKeepsAll(df, filtros[..|filtros| - 1]);
    }
    WhereNothing(df.rows);
  }

  /** Every row kept matches each non-"Todos" filter, and the kept rows are in input order. */
  lemma {:induction false} DynamicRowsMatch(df: Table, filtros: FilterChoices, x: Row, i: int)
    requires ReadableAll(ActiveFilters(filtros), df.rows)
    requires x in Where(df.rows, ActiveFilters(filtros))
    requires 0 <= i < |filtros| && filtros[i].1 != "Todos"
    ensures filtros[i].0 in x && x[filtros[i].0] == filtros[i].1
    ensures IsSubsequence(Where(df.rows, ActiveFilters(filtros)), df.rows)
  {
    var cs := ActiveFilters(filtros);
    assert Equals(filtros[i].0, filtros[i].1) in cs;
    var j :| 0 <= j < |cs| && cs[j] == Equals(filtros[i].0, filtros[i].1);
    assert Holds(cs[j], x);
  }
}
