/**
 * app.py: its own role tables (which differ from DIAN_VA/utils/logic.py for
 * "Equipos"), meta_acumulada, and the chain of sidebar filters applied to the
 * loaded table.
 */
module DianApp {
  import opened Wrappers
  import opened Text
  import opened Frames
  import opened Enums
  import opened Calendar
  import Aggregation
  import DianLogic

  /** sujetos_col: here the audit team is identified by the equipo column. */
  function SubjectColumn(modulo: string): (r: Result<string, KeyError>)
    ensures r.Failure? <==> ParseRole(modulo).None?
    ensures r.Failure? ==> r.error == KeyError(modulo)
    ensures ParseRole(modulo) == Some(Analistas) ==> r == Success("analista")
    ensures ParseRole(modulo) == Some(Supervisores) ==> r == Success("supervisor")
    ensures ParseRole(modulo) == Some(Equipos) ==> r == Success("equipo")
  {
    var columns := map["Analistas" := "analista", "Supervisores" := "supervisor", "Equipos" := "equipo"];
    if modulo in columns then Success(columns[modulo]) else Failure(KeyError(modulo))
  }

  /** estados_validos: two states for Supervisores, three for every other name. */
  function ValidStates(modulo: string): (r: seq<string>)
    ensures "auditada" in r && "aprobada" in r
    ensures forall s :: s in r ==> ParseState(s).Some? && ParseState(s).value in {Calificada, Aprobada, Auditada}
    ensures "calificada" in r <==> modulo != "Supervisores"
  {
    if modulo == "Supervisores" then ["auditada", "aprobada"]
    else ["auditada", "aprobada", "calificada"]
  }

  /** The per-subject daily quota written inline in meta_acumulada and modulo_vista. */
  function PerSubjectQuota(modulo: string): (r: nat)
    ensures r == 34 <==> modulo == "Supervisores"
    ensures r == 17 <==> modulo != "Supervisores"
  {
    if modulo == "Supervisores" then 34 else 17
  }

  function Config(role: Role): (cfg: Aggregation.RoleConfig)
    ensures cfg.role == role
    ensures Success(cfg.column) == SubjectColumn(role.Name())
    ensures cfg.validStates == ValidStates(role.Name())
  {
    Aggregation.RoleConfig(role, SubjectColumn(role.Name()).value, ValidStates(role.Name()))
  }

  /** The two files agree on Analistas and Supervisores and disagree on all three tables for Equipos. */
  lemma VariantsCompared()
    ensures forall r: Role :: r != Equipos ==>
      && SubjectColumn(r.Name()) == DianLogic.SubjectColumn(r.Name())
      && ValidStates(r.Name()) == DianLogic.ValidStates(r.Name())
      && PerSubjectQuota(r.Name()) == DianLogic.MetaPerSubject(r.Name())
    ensures SubjectColumn("Equipos") == Success("equipo") && DianLogic.SubjectColumn("Equipos") == Success("auditor")
    ensures |ValidStates("Equipos")| == 3 && |DianLogic.ValidStates("Equipos")| == 1
    ensures PerSubjectQuota("Equipos") == 17 && DianLogic.MetaPerSubject("Equipos") == 34
  {
  }

  /** How a subject cell is normalised before counting distinct subjects. */
  function Normalize(v: string): string {
    Lower(Strip(v))
  }

  /** The distinct non-empty normalised subjects of a column. */
  function DistinctSubjects(t: Table, col: string): set<string>
    requires t.WellFormed() && col in t.columns
  {
    set i | 0 <= i < |t.rows| && Normalize(t.rows[i][col]) != "" :: Normalize(t.rows[i][col])
  }

  /**
   * meta_acumulada: the quota accrued up to yesterday for all subjects of the
   * module, and their number. It is (0, 0) when no business day has passed,
   * when the subject column is missing or when no subject is named; a module
   * name outside the tables raises KeyError, but only once a business day has passed.
   */
  function MetaAcumulada(modulo: string, t: Table, today: int): (r: Result<(nat, nat), KeyError>)
    requires t.WellFormed()
    ensures var dias := BusinessDaysSinceStart(today - 1);
      && (r.Failure? <==> dias > 0 && ParseRole(modulo).None?)
      && (r == Success((0, 0)) <==>
            || dias == 0
            || (ParseRole(modulo).Some? && SubjectColumn(modulo).value !in t.columns)
            || (ParseRole(modulo).Some? && SubjectColumn(modulo).value in t.columns
                && DistinctSubjects(t, SubjectColumn(modulo).value) == {}))
      && (r.Success? && r != Success((0, 0)) ==>
            var col := SubjectColumn(modulo).value;
            && col in t.columns
            && r.value.1 == |DistinctSubjects(t, col)|
            && r.value.0 == dias * PerSubjectQuota(modulo) * r.value.1)
  {
    var ayer := today - 1;
    var dias := BusinessDaysSinceStart(ayer);
    if dias <= 0 then Success((0, 0))
    else
      match SubjectColumn(modulo)
      case Failure(e) => Failure(e)
      case Success(col) =>
        if col !in t.columns then Success((0, 0))
        else
          var n := |DistinctSubjects(t, col)|;
          if n == 0 then Success((0, 0))
          else
            var porSujeto := PerSubjectQuota(modulo);
            ProductPositive(dias, porSujeto, n);
            Success((dias * porSujeto * n, n))
  }

  lemma ProductPositive(a: int, b: int, c: int)
    requires a > 0 && b > 0 && c > 0
    ensures a * b * c > 0
  {
    assert a * b >= 1;
  }

  /** The quota of the first program day is zero: the day itself is never counted. */
  lemma NothingAccruesOnStartDay(modulo: string, t: Table)
    requires t.WellFormed()
    ensures MetaAcumulada(modulo, t, START_DATE) == Success((0, 0))
  {
  }

  /** A selectbox value narrows the table unless it is None, the falsy "" or "Todos". */
  predicate Narrows(v: Option<string>) {
    v.Some? && v.value != "" && v.value != "Todos"
  }

  /** The five sidebar selections; None when the column is absent from the data. */
  datatype Selection = Selection(
    profesional: Option<string>,
    supervisor: Option<string>,
    analista: Option<string>,
    estado: Option<string>,
    nivel: Option<string>)

  /** The condition one selectbox contributes: none, or equality on its column. */
  function Step(v: Option<string>, column: string, lower: bool): seq<Cond> {
    if !Narrows(v) then []
    else if lower then [EqualsLower(column, v.value)]
    else [Equals(column, v.value)]
  }

  /** All the conditions the sidebar imposes, in the order they are applied. */
  function SidebarConds(sel: Selection): seq<Cond> {
    Step(sel.profesional, "profesional", false)
    + Step(sel.supervisor, "supervisor", false)
    + Step(sel.analista, "analista", false)
    + Step(sel.estado, "estado_carpeta", true)
    + Step(sel.nivel, "nivel", false)
  }

  /** A selection is only offered for a column the table has. */
  ghost predicate SelectionFits(sel: Selection, t: Table) {
    && (Narrows(sel.profesional) ==> "profesional" in t.columns)
    && (Narrows(sel.supervisor) ==> "supervisor" in t.columns)
    && (Narrows(sel.analista) ==> "analista" in t.columns)
    && (Narrows(sel.estado) ==> "estado_carpeta" in t.columns)
    && (Narrows(sel.nivel) ==> "nivel" in t.columns)
  }

  lemma ConditionsReadable(t: Table, cs: seq<Cond>)
    requires t.WellFormed() && forall j :: 0 <= j < |cs| ==> cs[j].column in t.columns
    ensures ReadableAll(cs, t.rows)
  {
  }

  /**
   * One step of the chain: when the selection is neither missing, empty nor
   * "Todos", keep the rows whose cell in column matches it.
   */
  method NarrowBy(ghost df: Table, out: Table, ghost applied: seq<Cond>, v: Option<string>, column: string, lower: bool)
    returns (next: Table, ghost appliedNext: seq<Cond>)
    requires df.WellFormed() && (Narrows(v) ==> column in df.columns)
    requires forall j :: 0 <= j < |applied| ==> applied[j].column in df.columns
    requires out == Table(df.columns, Where(df.rows, applied))
    ensures appliedNext == applied + Step(v, column, lower)
    ensures forall j :: 0 <= j < |appliedNext| ==> appliedNext[j].column in df.columns
    ensures next == Table(df.columns, Where(df.rows, appliedNext))
  {
    if v.Some? && v.value != "Todos" && v.value != "" {
      var c := if lower then EqualsLower(column, v.value) else Equals(column, v.value);
      appliedNext := applied + [c];
      ConditionsReadable(df, appliedNext);
      WhereAppend(df.rows, applied, [c]);
      next := Table(out.columns, Where(out.rows, [c]));
    } else {
      appliedNext := applied;
      next := out;
    }
  }

  /**
   * The sidebar filter chain: starting from a copy of the table, each active
   * selection keeps only the rows whose cell equals it (the state compared
   * lower-cased). The outcome is the table narrowed by all of them at once.
   */
  method ApplySidebarFilters(df: Table, sel: Selection) returns (out: Table)
    requires df.WellFormed() && SelectionFits(sel, df)
    ensures ReadableAll(SidebarConds(sel), df.rows)
    ensures out == Table(df.columns, Where(df.rows, SidebarConds(sel)))
    ensures out.WellFormed()
  {
    ghost var applied: seq<Cond> := [];
    WhereNothing(df.rows);
    out := df;
    out, applied := NarrowBy(df, out, applied, sel.profesional, "profesional", false);
    assert applied == Step(sel.profesional, "profesional", false);
    out, applied := NarrowBy(df, out, applied, sel.supervisor, "supervisor", false);
    out, applied := NarrowBy(df, out, applied, sel.analista, "analista", false);
    out, applied := NarrowBy(df, out, applied, sel.estado, "estado_carpeta", true);
    out, applied := NarrowBy(df, out, applied, sel.nivel, "nivel", false);
    assert applied == SidebarConds(sel);
    ConditionsReadable(df, applied);
    WhereWellFormed(df, applied);
  }

  /** With nothing selected, or only "Todos" and "", the table comes back whole. */
  lemma NoSelectionKeepsAll(t: Table, sel: Selection)
    requires !Narrows(sel.profesional) && !Narrows(sel.supervisor) && !Narrows(sel.analista)
    requires !Narrows(sel.estado) && !Narrows(sel.nivel)
    ensures SidebarConds(sel) == []
    ensures Where(t.rows, SidebarConds(sel)) == t.rows
  {
    WhereNothing(t.rows);
  }

  /** Every row left satisfies each active selection. */
  lemma SidebarRowsMatch(t: Table, sel: Selection, r: Row)
    requires t.WellFormed() && SelectionFits(sel, t)
    requires ReadableAll(SidebarConds(sel), t.rows)
    requires r in Where(t.rows, SidebarConds(sel))
    ensures Narrows(sel.supervisor) ==> "supervisor" in r && r["supervisor"] == sel.supervisor.value
    ensures Narrows(sel.analista) ==> "analista" in r && r["analista"] == sel.analista.value
    ensures Narrows(sel.profesional) ==> "profesional" in r && r["profesional"] == sel.profesional.value
    ensures Narrows(sel.nivel) ==> "nivel" in r && r["nivel"] == sel.nivel.value
    ensures Narrows(sel.estado) ==> "estado_carpeta" in r && Lower(r["estado_carpeta"]) == Lower(sel.estado.value)
  {
    var cs := SidebarConds(sel);
    var p := Step(sel.profesional, "profesional", false);
    var s := Step(sel.supervisor, "supervisor", false);
    var a := Step(sel.analista, "analista", false);
    var e := Step(sel.estado, "estado_carpeta", true);
    assert Readable(cs, r) && HoldsAll(cs, r);
    if Narrows(sel.profesional) {
      assert cs[0] == p[0];
    }
    if Narrows(sel.supervisor) {
      assert cs[|p|] == s[0];
    }
    if Narrows(sel.analista) {
      assert cs[|p| + |s|] == a[0];
    }
    if Narrows(sel.estado) {
      assert cs[|p| + |s| + |a|] == e[0];
    }
    if Narrows(sel.nivel) {
      assert cs[|p| + |s| + |a| + |e|] == Equals("nivel", sel.nivel.value);
    }
  }
}
