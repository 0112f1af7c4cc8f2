/**
 * DIAN_VA/utils/filters.py: the per-subject category tables of each role and
 * the cross-role filter that keeps the case rows whose category (by analyst,
 * else supervisor, else auditor) is the selected one. This file takes its
 * role tables from DIAN_VA/utils/logic.py.
 */
module Filters {
  import opened Wrappers
  import opened Frames
  import opened Enums
  import opened Categories
  import opened Aggregation
  import DianLogic

  const TEAM_COLUMN := "EQUIPO"

  /** One row of a category table: Sujeto, Categoria, EQUIPO (missing after an unmatched left join) and Modulo. */
  datatype CategoryRow = CategoryRow(subject: string, categoria: Category, equipo: Option<string>, modulo: string)

  ghost predicate HasPairFields(rows: seq<Row>, col: string) {
    forall i :: 0 <= i < |rows| ==> col in rows[i] && TEAM_COLUMN in rows[i]
  }

  predicate PairAt(rows: seq<Row>, col: string, i: int, s: string, t: string)
    requires HasPairFields(rows, col)
  {
    0 <= i < |rows| && rows[i][col] == s && rows[i][TEAM_COLUMN] == t
  }

  /** Some row names subject s together with team t. */
  ghost predicate PairOccurs(rows: seq<Row>, col: string, s: string, t: string)
    requires HasPairFields(rows, col)
  {
    exists i :: PairAt(rows, col, i, s, t)
  }

  /** drop_duplicates on the (subject, EQUIPO) columns: each pair once, at its first occurrence. */
  function {:induction false} TeamPairs(rows: seq<Row>, col: string): (p: seq<(string, string)>)
    requires HasPairFields(rows, col)
    ensures Distinct(p)
    ensures forall s, t :: (s, t) in p <==> PairOccurs(rows, col, s, t)
  {
    if rows == [] then []
    else
      var init := rows[..|rows| - 1];
      var last := rows[|rows| - 1];
      var prefix := TeamPairs(init, col);
      var q := (last[col], last[TEAM_COLUMN]);
      assert forall i, s, t :: PairAt(init, col, i, s, t) ==> PairAt(rows, col, i, s, t);
      assert PairAt(rows, col, |rows| - 1, q.0, q.1);
      assert forall i, s, t :: PairAt(rows, col, i, s, t) && i < |rows| - 1 ==> PairAt(init, col, i, s, t);
      if q in prefix then prefix else prefix + [q]
  }

  /** The teams paired with subject s, in the pairs' order. */
  function {:induction false} TeamsOf(pairs: seq<(string, string)>, s: string): (r: seq<string>)
    ensures forall t :: t in r <==> (s, t) in pairs
  {
    if pairs == [] then []
    else
      var rest := TeamsOf(pairs[1..], s);
      assert forall t :: (s, t) in pairs <==> (s, t) == pairs[0] || (s, t) in pairs[1..];
      if pairs[0].0 == s then [pairs[0].1] + rest else rest
  }

  /** With distinct pairs, no team is listed twice for a subject. */
  lemma {:induction false} TeamsOfDistinct(pairs: seq<(string, string)>, s: string)
    requires Distinct(pairs)
    ensures Distinct(TeamsOf(pairs, s))
  {
    if pairs != [] {
      assert Distinct(pairs[1..]) by {
        forall i, j | 0 <= i < j < |pairs[1..]| ensures pairs[1..][i] != pairs[1..][j] {
          assert pairs[1..][i] == pairs[i + 1] && pairs[1..][j] == pairs[j + 1];
        }
      }
      assert pairs[0] !in pairs[1..] by {
        forall j | 0 <= j < |pairs[1..]| ensures pairs[1..][j] != pairs[0] {
          assert pairs[1..][j] == pairs[j + 1];
        }
      }
      TeamsOfDistinct(pairs[1..], s);
      var rest := TeamsOf(pairs[1..], s);
      if pairs[0].0 == s {
        assert pairs[0].1 !in rest;
        var r := [pairs[0].1] + rest;
        forall i, j | 0 <= i < j < |r| ensures r[i] != r[j] {
          assert r[j] == rest[j - 1];
          if i > 0 {
            assert r[i] == rest[i - 1];
          }
        }
      }
    }
  }

  /** The rows the left join gives one summary row: one per team, or one with no team. */
  function {:induction false} TeamRows(x: SummaryRow, teams: seq<string>, modulo: string): (r: seq<CategoryRow>)
    ensures |r| == |teams|
    ensures forall i :: 0 <= i < |teams| ==> r[i] == CategoryRow(x.subject, x.categoria, Some(teams[i]), modulo)
  {
    if teams == [] then []
    else [CategoryRow(x.subject, x.categoria, Some(teams[0]), modulo)] + TeamRows(x, teams[1..], modulo)
  }

  function Block(x: SummaryRow, teams: seq<string>, modulo: string): seq<CategoryRow> {
    if teams == [] then [CategoryRow(x.subject, x.categoria, None, modulo)] else TeamRows(x, teams, modulo)
  }

  /** A category row the join may give summary row x: its subject and category, and one of its teams if it has any. */
  ghost predicate JoinedFrom(y: CategoryRow, x: SummaryRow, pairs: seq<(string, string)>, modulo: string) {
    && y.subject == x.subject && y.categoria == x.categoria && y.modulo == modulo
    && (y.equipo.None? <==> TeamsOf(pairs, x.subject) == [])
    && (y.equipo.Some? ==> y.equipo.value in TeamsOf(pairs, x.subject))
  }

  /**
   * tab.merge(equipo_map, how="left") followed by tab["Modulo"] = modulo: the
   * summary rows in order, each repeated once per team of its subject.
   */
  function {:induction false} AttachTeams(tab: seq<SummaryRow>, pairs: seq<(string, string)>, modulo: string): (r: seq<CategoryRow>)
  {
    if tab == [] then []
    else
      var x := tab[|tab| - 1];
      AttachTeams(tab[..|tab| - 1], pairs, modulo) + Block(x, TeamsOf(pairs, x.subject), modulo)
  }

  /** Each joined row comes from one summary row, and every (summary row, team) pair gives one. */
  lemma {:induction false} AttachTeamsMembers(tab: seq<SummaryRow>, pairs: seq<(string, string)>, modulo: string)
    ensures forall y :: y in AttachTeams(tab, pairs, modulo) ==> exists j :: 0 <= j < |tab| && JoinedFrom(y, tab[j], pairs, modulo)
    ensures forall j, t :: 0 <= j < |tab| && t in TeamsOf(pairs, tab[j].subject) ==>
      CategoryRow(tab[j].subject, tab[j].categoria, Some(t), modulo) in AttachTeams(tab, pairs, modulo)
    ensures forall y :: y in AttachTeams(tab, pairs, modulo) ==> y.subject in SubjectsOf(tab)
  {
    if tab != [] {
      var init := tab[..|tab| - 1];
      var x := tab[|tab| - 1];
      var teams := TeamsOf(pairs, x.subject);
      var front := AttachTeams(init, pairs, modulo);
      var block := Block(x, teams, modulo);
      AttachTeamsMembers(init, pairs, modulo);
      assert forall j :: 0 <= j < |init| ==> init[j] == tab[j];
      assert SubjectsOf(tab) == SubjectsOf(init) + {x.subject};
      forall y | y in front + block ensures exists j :: 0 <= j < |tab| && JoinedFrom(y, tab[j], pairs, modulo) {
        if y in block {
          assert JoinedFrom(y, tab[|tab| - 1], pairs, modulo);
        } else {
          var j :| 0 <= j < |init| && JoinedFrom(y, init[j], pairs, modulo);
          assert JoinedFrom(y, tab[j], pairs, modulo);
        }
      }
      forall j, t | 0 <= j < |tab| && t in TeamsOf(pairs, tab[j].subject)
        ensures CategoryRow(tab[j].subject, tab[j].categoria, Some(t), modulo) in front + block
      {
        if j == |tab| - 1 {
          var k :| 0 <= k < |teams| && teams[k] == t;
          assert block[k] == CategoryRow(x.subject, x.categoria, Some(t), modulo);
        } else {
          assert CategoryRow(init[j].subject, init[j].categoria, Some(t), modulo) in front;
        }
      }
    }
  }

  /** With distinct subjects and distinct pairs, no category row is repeated. */
  lemma {:induction false} AttachTeamsDistinct(tab: seq<SummaryRow>, pairs: seq<(string, string)>, modulo: string)
    requires DistinctSubjects(tab) && Distinct(pairs)
    ensures Distinct(AttachTeams(tab, pairs, modulo))
  {
    if tab != [] {
      var init := tab[..|tab| - 1];
      var x := tab[|tab| - 1];
      var teams := TeamsOf(pairs, x.subject);
      var front := AttachTeams(init, pairs, modulo);
      var block := Block(x, teams, modulo);
      AttachTeamsDistinct(init, pairs, modulo);
      AttachTeamsMembers(init, pairs, modulo);
      TeamsOfDistinct(pairs, x.subject);
      assert x.subject !in SubjectsOf(init);
      assert Distinct(block);
      var r := front + block;
      forall i, k | 0 <= i < k < |r| ensures r[i] != r[k] {
        if k >= |front| {
          assert r[k] == block[k - |front|];
          if i < |front| {
            assert r[i] in front;
          } else {
            assert r[i] == block[i - |front|];
          }
        }
      }
    }
  }

  /** The rows a category table must hold: a completed subject, its category, the module and one of its teams. */
  ghost predicate CategoryRowOf(y: CategoryRow, rows: seq<Row>, cfg: RoleConfig, perSubjectMeta: int)
    requires HasFields(rows, cfg) && HasPairFields(rows, cfg.column)
  {
    && CountFor(rows, cfg, y.subject) > 0
    && y.categoria == Classify(perSubjectMeta - CountFor(rows, cfg, y.subject), cfg.role.Name())
    && y.modulo == cfg.role.Name()
    && y.equipo.Some? && PairOccurs(rows, cfg.column, y.subject, y.equipo.value)
  }

  lemma WellFormedPairFields(t: Table, col: string)
    requires t.WellFormed() && col in t.columns && TEAM_COLUMN in t.columns
    ensures HasPairFields(t.rows, col)
  {
  }

  /** Every joined row is one CategoryRowOf describes. */
  lemma JoinedRowSound(rows: seq<Row>, cfg: RoleConfig, perSubjectMeta: int, tab: seq<SummaryRow>, y: CategoryRow)
    requires HasFields(rows, cfg) && HasPairFields(rows, cfg.column)
    requires forall x :: x in tab ==>
      && x.developed == CountFor(rows, cfg, x.subject)
      && x.categoria == Classify(perSubjectMeta - x.developed, cfg.role.Name())
    requires forall k :: k in SubjectsOf(tab) <==> CountFor(rows, cfg, k) > 0
    requires y in AttachTeams(tab, TeamPairs(rows, cfg.column), cfg.role.Name())
    ensures CategoryRowOf(y, rows, cfg, perSubjectMeta)
  {
    var pairs := TeamPairs(rows, cfg.column);
    var m := cfg.role.Name();
    AttachTeamsMembers(tab, pairs, m);
    var j :| 0 <= j < |tab| && JoinedFrom(y, tab[j], pairs, m);
    assert tab[j] in tab;
    CountForPositive(rows, cfg, y.subject);
    var i :| CompletedBy(rows, cfg, y.subject, i);
    assert PairAt(rows, cfg.column, i, y.subject, rows[i][TEAM_COLUMN]);
    assert rows[i][TEAM_COLUMN] in TeamsOf(pairs, y.subject);
  }

  /** Every row CategoryRowOf describes is among the joined rows. */
  lemma JoinedRowComplete(rows: seq<Row>, cfg: RoleConfig, perSubjectMeta: int, tab: seq<SummaryRow>, y: CategoryRow)
    requires HasFields(rows, cfg) && HasPairFields(rows, cfg.column)
    requires forall x :: x in tab ==>
      && x.developed == CountFor(rows, cfg, x.subject)
      && x.categoria == Classify(perSubjectMeta - x.developed, cfg.role.Name())
    requires forall k :: k in SubjectsOf(tab) <==> CountFor(rows, cfg, k) > 0
    requires CategoryRowOf(y, rows, cfg, perSubjectMeta)
    ensures y in AttachTeams(tab, TeamPairs(rows, cfg.column), cfg.role.Name())
  {
    var pairs := TeamPairs(rows, cfg.column);
    var m := cfg.role.Name();
    AttachTeamsMembers(tab, pairs, m);
    assert y.subject in SubjectsOf(tab);
    var j :| 0 <= j < |tab| && tab[j].subject == y.subject;
    assert tab[j] in tab;
    assert y.equipo.value in TeamsOf(pairs, tab[j].subject);
    assert y == CategoryRow(tab[j].subject, tab[j].categoria, Some(y.equipo.value), m);
  }

  /** Joining the summary with the subject/team pairs gives exactly the rows CategoryRowOf describes. */
  lemma JoinedRowsCharacterised(rows: seq<Row>, cfg: RoleConfig, perSubjectMeta: int, tab: seq<SummaryRow>)
    requires HasFields(rows, cfg) && HasPairFields(rows, cfg.column)
    requires forall x :: x in tab ==>
      && x.developed == CountFor(rows, cfg, x.subject)
      && x.categoria == Classify(perSubjectMeta - x.developed, cfg.role.Name())
    requires forall k :: k in SubjectsOf(tab) <==> CountFor(rows, cfg, k) > 0
    ensures forall y :: y in AttachTeams(tab, TeamPairs(rows, cfg.column), cfg.role.Name()) <==>
      CategoryRowOf(y, rows, cfg, perSubjectMeta)
  {
    var joined := AttachTeams(tab, TeamPairs(rows, cfg.column), cfg.role.Name());
    forall y ensures y in joined <==> CategoryRowOf(y, rows, cfg, perSubjectMeta) {
      if y in joined {
        JoinedRowSound(rows, cfg, perSubjectMeta, tab, y);
      }
      if CategoryRowOf(y, rows, cfg, perSubjectMeta) {
        JoinedRowComplete(rows, cfg, perSubjectMeta, tab, y);
      }
    }
  }

  /**
   * categorias_por_sujeto: the summary of one role (logic.py's tables, with
   * quota get_meta_por_sujeto × business days) joined with the distinct
   * (subject, EQUIPO) pairs of the case table, with Modulo set to the role.
   * A missing estado_carpeta, subject or EQUIPO column raises KeyError, in
   * that order. Each completed subject gets one row per team it appears with.
   */
  method CategoriesBySubject(dfBase: Table, role: Role, diasHabiles: int) returns (r: Result<seq<CategoryRow>, KeyError>)
    requires dfBase.WellFormed()
    ensures var col := DianLogic.Config(role).column;
      r.Failure? <==> STATE_COLUMN !in dfBase.columns || col !in dfBase.columns || TEAM_COLUMN !in dfBase.columns
    ensures var col := DianLogic.Config(role).column;
      r.Failure? ==> r.error == KeyError(
        if STATE_COLUMN !in dfBase.columns then STATE_COLUMN
        else if col !in dfBase.columns then col
        else TEAM_COLUMN)
    ensures r.Success? ==>
      var cfg := DianLogic.Config(role);
      && HasFields(dfBase.rows, cfg) && HasPairFields(dfBase.rows, cfg.column)
      && Distinct(r.value)
      && forall y :: y in r.value <==>
        CategoryRowOf(y, dfBase.rows, cfg, DianLogic.MetaPerSubject(role.Name()) * diasHabiles)
  {
    var cfg := DianLogic.Config(role);
    var dfm := PrepareModuleFrame(dfBase, cfg);
    var perSubject := DianLogic.MetaPerSubject(role.Name());
    var perSubjectMeta := perSubject * diasHabiles;
    var summary := SummaryTable(dfm, cfg, perSubjectMeta);
    if summary.Failure? {
      return Failure(summary.error);
    }
    var tab := summary.value;
    if cfg.column !in dfBase.columns {
      return Failure(KeyError(cfg.column));
    }
    if TEAM_COLUMN !in dfBase.columns {
      return Failure(KeyError(TEAM_COLUMN));
    }
    WellFormedPairFields(dfBase, cfg.column);
    var pairs := TeamPairs(dfBase.rows, cfg.column);
    var joined := AttachTeams(tab.rows, pairs, role.Name());
    JoinedRowsCharacterised(dfBase.rows, cfg, perSubjectMeta, tab.rows);
    AttachTeamsDistinct(tab.rows, pairs, role.Name());
    r := Success(joined);
  }

  /** The three category tables the cross filter receives, one per role. */
  datatype CategoryTables = CategoryTables(analistas: seq<CategoryRow>, supervisores: seq<CategoryRow>, equipos: seq<CategoryRow>) {
    function For(role: Role): seq<CategoryRow> {
      match role
      case Analistas => analistas
      case Supervisores => supervisores
      case Equipos => equipos
    }

    /** No table lists a subject twice. */
    ghost predicate UniqueSubjects() {
      UniqueKeys(analistas) && UniqueKeys(supervisores) && UniqueKeys(equipos)
    }

    /** The role's table is merged: the case table has its join column and the table has rows. */
    predicate JoinsInto(t: Table, role: Role) {
      JoinColumn(role) in t.columns && For(role) != []
    }
  }

  ghost predicate UniqueKeys(cat: seq<CategoryRow>) {
    forall i, j :: 0 <= i < j < |cat| ==> cat[i].subject != cat[j].subject
  }

  /** The case-table column each role's table is joined on, and the column its category lands in. */
  function JoinColumn(role: Role): string {
    match role
    case Analistas => "analista"
    case Supervisores => "supervisor"
    case Equipos => "auditor"
  }

  function CategoryColumn(role: Role): string {
    match role
    case Analistas => "cat_analista"
    case Supervisores => "cat_supervisor"
    case Equipos => "cat_auditor"
  }

  /** The join columns are the subject columns of logic.py's tables. */
  lemma JoinColumnIsSubjectColumn(role: Role)
    ensures DianLogic.SubjectColumn(role.Name()) == Success(JoinColumn(role))
  {
  }

  /** A case row after the joins: its cells and the three joined categories (None where the join found nothing). */
  datatype JoinedRow = JoinedRow(row: Row, catAnalista: Option<Category>, catSupervisor: Option<Category>, catAuditor: Option<Category>) {
    function CategoryOf(role: Role): Option<Category> {
      match role
      case Analistas => catAnalista
      case Supervisores => catSupervisor
      case Equipos => catAuditor
    }

    function WithCategory(role: Role, c: Option<Category>): JoinedRow {
      match role
      case Analistas => this.(catAnalista := c)
      case Supervisores => this.(catSupervisor := c)
      case Equipos => this.(catAuditor := c)
    }

    /** categoria_global: cat_analista, filled from cat_supervisor, then from cat_auditor. */
    function Global(): Option<Category> {
      if catAnalista.Some? then catAnalista
      else if catSupervisor.Some? then catSupervisor
      else catAuditor
    }
  }

  /** What the cross filter returns: its input untouched, the narrowed joined rows, or a KeyError. */
  datatype Outcome = Input(table: Table) | Joined(rows: seq<JoinedRow>) | Raised(error: KeyError)

  /** The categories a table lists for subject s, in table order. */
  function {:induction false} Matches(cat: seq<CategoryRow>, s: string): (r: seq<Category>)
    ensures |r| <= |cat|
    ensures forall c :: c in r <==> exists e :: e in cat && e.subject == s && e.categoria == c
  {
    if cat == [] then []
    else
      var rest := Matches(cat[1..], s);
      assert forall e :: e in cat <==> e == cat[0] || e in cat[1..];
      if cat[0].subject == s then [cat[0].categoria] + rest else rest
  }

  /** The first category listed for s, as a left join with unique keys finds it. */
  function Lookup(cat: seq<CategoryRow>, s: string): Option<Category> {
    var ms := Matches(cat, s);
    if ms == [] then None else Some(ms[0])
  }

  lemma {:induction false} MatchesNone(cat: seq<CategoryRow>, s: string)
    requires forall e :: e in cat ==> e.subject != s
    ensures Matches(cat, s) == []
  {
    if cat != [] {
      assert cat[0] in cat;
      MatchesNone(cat[1..], s);
    }
  }

  lemma {:induction false} MatchesUnique(cat: seq<CategoryRow>, s: string)
    requires UniqueKeys(cat)
    ensures |Matches(cat, s)| <= 1
  {
    if cat != [] {
      MatchesUnique(cat[1..], s);
      if cat[0].subject == s {
        forall e | e in cat[1..] ensures e.subject != s {
          var k :| 0 <= k < |cat[1..]| && cat[1..][k] == e;
          assert cat[k + 1] == e;
          assert cat[0].subject != cat[k + 1].subject;
        }
        MatchesNone(cat[1..], s);
      }
    }
  }

  /** The positions of the table rows that list subject s, and of those that list it with category c. */
  ghost function Listed(cat: seq<CategoryRow>, s: string): set<int> {
    set i | 0 <= i < |cat| && cat[i].subject == s
  }

  ghost function ListedAs(cat: seq<CategoryRow>, s: string, c: Category): set<int> {
    set i | 0 <= i < |cat| && cat[i].subject == s && cat[i].categoria == c
  }

  lemma {:induction false} MatchesSnoc(cat: seq<CategoryRow>, e: CategoryRow, s: string)
    ensures Matches(cat + [e], s) == Matches(cat, s) + (if e.subject == s then [e.categoria] else [])
  {
    if cat == [] {
      assert cat + [e] == [e];
      assert [e][1..] == [];
    } else {
      assert (cat + [e])[0] == cat[0];
      assert (cat + [e])[1..] == cat[1..] + [e];
      MatchesSnoc(cat[1..], e, s);
    }
  }

  lemma ListedSnoc(cat: seq<CategoryRow>, e: CategoryRow, s: string)
    ensures Listed(cat + [e], s) == Listed(cat, s) + (if e.subject == s then {|cat|} else {})
  {
    assert forall i :: 0 <= i < |cat| ==> (cat + [e])[i] == cat[i];
  }

  lemma ListedAsSnoc(cat: seq<CategoryRow>, e: CategoryRow, s: string, c: Category)
    ensures ListedAs(cat + [e], s, c) == ListedAs(cat, s, c) + (if e.subject == s && e.categoria == c then {|cat|} else {})
  {
    assert forall i :: 0 <= i < |cat| ==> (cat + [e])[i] == cat[i];
  }

  /** A subject gets one category per table row that lists it. */
  lemma {:induction false} MatchesCount(cat: seq<CategoryRow>, s: string)
    ensures |Matches(cat, s)| == |Listed(cat, s)|
  {
    if cat == [] {
      assert Listed(cat, s) == {};
    } else {
      var n := |cat| - 1;
      var init, e := cat[..n], cat[n];
      assert cat == init + [e];
      MatchesSnoc(init, e, s);
      MatchesCount(init, s);
      ListedSnoc(init, e, s);
      assert n !in Listed(init, s);
    }
  }

  /** Each category is listed for s as often as a table row pairs s with it. */
  lemma {:induction false} MatchesCountAs(cat: seq<CategoryRow>, s: string, c: Category)
    ensures multiset(Matches(cat, s))[c] == |ListedAs(cat, s, c)|
  {
    if cat == [] {
      assert ListedAs(cat, s, c) == {};
    } else {
      var n := |cat| - 1;
      var init, e := cat[..n], cat[n];
      assert cat == init + [e];
      MatchesSnoc(init, e, s);
      MatchesCountAs(init, s, c);
      ListedAsSnoc(init, e, s, c);
      assert n !in ListedAs(init, s, c);
      var extra := if e.subject == s then [e.categoria] else [];
      assert multiset(Matches(init, s) + extra)[c] == multiset(Matches(init, s))[c] + multiset(extra)[c];
    }
  }

  /** One copy of x per matching category. */
  function {:induction false} Expand(x: JoinedRow, role: Role, ms: seq<Category>): (r: seq<JoinedRow>)
    ensures |r| == |ms|
    ensures forall i :: 0 <= i < |ms| ==> r[i] == x.WithCategory(role, Some(ms[i]))
  {
    if ms == [] then [] else [x.WithCategory(role, Some(ms[0]))] + Expand(x, role, ms[1..])
  }

  /**
   * A left merge on the role's join column: each row once per matching
   * category row, or once with no category. (A row always holds the join
   * column when the merge runs; without it the row matches nothing.)
   */
  function {:induction false} MergeCategory(rows: seq<JoinedRow>, cat: seq<CategoryRow>, role: Role): (r: seq<JoinedRow>)
  {
    if rows == [] then []
    else
      var x := rows[0];
      var ms := if JoinColumn(role) in x.row then Matches(cat, x.row[JoinColumn(role)]) else [];
      (if ms == [] then [x.WithCategory(role, None)] else Expand(x, role, ms)) + MergeCategory(rows[1..], cat, role)
  }

  function Lift(rows: seq<Row>): (r: seq<JoinedRow>)
    ensures |r| == |rows|
    ensures forall i :: 0 <= i < |rows| ==> r[i] == JoinedRow(rows[i], None, None, None)
  {
    seq(|rows|, i requires 0 <= i < |rows| => JoinedRow(rows[i], None, None, None))
  }

  /** The three merges in the order the source performs them. */
  function JoinAll(rows: seq<Row>, tables: CategoryTables): seq<JoinedRow> {
    var a := MergeCategory(Lift(rows), tables.analistas, Analistas);
    var s := MergeCategory(a, tables.supervisores, Supervisores);
    MergeCategory(s, tables.equipos, Equipos)
  }

  /** out[out["categoria_global"] == categoria_sel]: the joined rows whose global category is the selected label. */
  function {:induction false} Keep(rows: seq<JoinedRow>, sel: string): (r: seq<JoinedRow>)
    ensures forall y :: y in r ==> y in rows && y.Global().Some? && y.Global().value.Label() == sel
    ensures forall y :: y in rows && y.Global().Some? && y.Global().value.Label() == sel ==> y in r
  {
    if rows == [] then []
    else
      var x := rows[0];
      assert forall y :: y in rows <==> y == x || y in rows[1..];
      (if x.Global().Some? && x.Global().value.Label() == sel then [x] else []) + Keep(rows[1..], sel)
  }

  /** Every row with the selected global category is kept as many times as it occurs, and no other row is kept. */
  lemma {:induction false} KeepCount(rows: seq<JoinedRow>, sel: string, y: JoinedRow)
    ensures multiset(Keep(rows, sel))[y] == if y.Global().Some? && y.Global().value.Label() == sel then multiset(rows)[y] else 0
  {
    if rows != [] {
      KeepCount(rows[1..], sel, y);
      assert rows == [rows[0]] + rows[1..];
      var x := rows[0];
      var head := if x.Global().Some? && x.Global().value.Label() == sel then [x] else [];
      assert multiset(head + Keep(rows[1..], sel))[y] == multiset(head)[y] + multiset(Keep(rows[1..], sel))[y];
      assert multiset(rows)[y] == multiset([x])[y] + multiset(rows[1..])[y];
    }
  }

  function Project(rows: seq<JoinedRow>): (r: seq<Row>)
    ensures |r| == |rows| && forall i :: 0 <= i < |rows| ==> r[i] == rows[i].row
  {
    seq(|rows|, i requires 0 <= i < |rows| => rows[i].row)
  }

  /** A role's category on a joined row is one its table lists for the row's subject. */
  ghost predicate Traced(y: JoinedRow, tables: CategoryTables, role: Role) {
    y.CategoryOf(role).Some? ==>
      JoinColumn(role) in y.row && y.CategoryOf(role).value in Matches(tables.For(role), y.row[JoinColumn(role)])
  }

  /** A joined row is one of the input rows with categories taken from the tables. */
  ghost predicate SoundRow(y: JoinedRow, rows: seq<Row>, tables: CategoryTables) {
    y.row in rows && Traced(y, tables, Analistas) && Traced(y, tables, Supervisores) && Traced(y, tables, Equipos)
  }

  /** A merge keeps every row's cells and other categories and takes its own from the table. */
  lemma {:induction false} MergeSound(rows: seq<JoinedRow>, input: seq<Row>, tables: CategoryTables, role: Role)
    requires forall x :: x in rows ==> SoundRow(x, input, tables)
    ensures forall y :: y in MergeCategory(rows, tables.For(role), role) ==> SoundRow(y, input, tables)
  {
    if rows != [] {
      var x := rows[0];
      MergeSound(rows[1..], input, tables, role);
      var ms := if JoinColumn(role) in x.row then Matches(tables.For(role), x.row[JoinColumn(role)]) else [];
      var block := if ms == [] then [x.WithCategory(role, None)] else Expand(x, role, ms);
      assert x in rows;
      forall y | y in block ensures SoundRow(y, input, tables) {
        if ms != [] {
          var i :| 0 <= i < |ms| && block[i] == y;
        }
      }
    }
  }

  lemma JoinAllSound(rows: seq<Row>, tables: CategoryTables)
    ensures forall y :: y in JoinAll(rows, tables) ==> SoundRow(y, rows, tables)
  {
    var lifted := Lift(rows);
    forall x | x in lifted ensures SoundRow(x, rows, tables) {
      var i :| 0 <= i < |lifted| && lifted[i] == x;
    }
    MergeSound(lifted, rows, tables, Analistas);
    var a := MergeCategory(lifted, tables.analistas, Analistas);
    MergeSound(a, rows, tables, Supervisores);
    MergeSound(MergeCategory(a, tables.supervisores, Supervisores), rows, tables, Equipos);
  }

  /** With unique subjects a merge is one-for-one: each row gains the category its subject looks up. */
  lemma {:induction false} MergeOneForOne(rows: seq<JoinedRow>, cat: seq<CategoryRow>, role: Role)
    requires UniqueKeys(cat)
    requires forall i :: 0 <= i < |rows| ==> JoinColumn(role) in rows[i].row
    ensures |MergeCategory(rows, cat, role)| == |rows|
    ensures forall i :: 0 <= i < |rows| ==>
      MergeCategory(rows, cat, role)[i] == rows[i].WithCategory(role, Lookup(cat, rows[i].row[JoinColumn(role)]))
  {
    if rows != [] {
      MergeOneForOne(rows[1..], cat, role);
      var x := rows[0];
      var ms := Matches(cat, x.row[JoinColumn(role)]);
      MatchesUnique(cat, x.row[JoinColumn(role)]);
      var head := if ms == [] then [x.WithCategory(role, None)] else Expand(x, role, ms);
      assert |head| == 1 && head[0] == x.WithCategory(role, Lookup(cat, x.row[JoinColumn(role)]));
      var tail := MergeCategory(rows[1..], cat, role);
      var r := MergeCategory(rows, cat, role);
      assert r == head + tail;
      forall i | 0 <= i < |rows|
        ensures r[i] == rows[i].WithCategory(role, Lookup(cat, rows[i].row[JoinColumn(role)]))
      {
        if i > 0 {
          assert rows[1..][i - 1] == rows[i];
          assert r[i] == tail[i - 1];
        }
      }
    }
  }

  /** categoria_global as the lookups give it, for a case row holding all three join columns. */
  function ExpectedGlobal(r: Row, tables: CategoryTables): Option<Category>
    requires "analista" in r && "supervisor" in r && "auditor" in r
  {
    JoinedRow(r, Lookup(tables.analistas, r["analista"]), Lookup(tables.supervisores, r["supervisor"]),
      Lookup(tables.equipos, r["auditor"])).Global()
  }

  ghost predicate HasJoinColumns(rows: seq<Row>) {
    forall i :: 0 <= i < |rows| ==> "analista" in rows[i] && "supervisor" in rows[i] && "auditor" in rows[i]
  }

  /** Reference selection: the case rows, in order, whose looked-up global category is the selected label. */
  function {:induction false} SelectRows(rows: seq<Row>, tables: CategoryTables, sel: string): (r: seq<Row>)
    requires HasJoinColumns(rows)
    ensures IsSubsequence(r, rows)
    ensures forall x :: x in r ==> x in rows
  {
    if rows == [] then []
    else
      var g := ExpectedGlobal(rows[0], tables);
      var tail := SelectRows(rows[1..], tables, sel);
      if g.Some? && g.value.Label() == sel then [rows[0]] + tail else tail
  }

  lemma {:induction false} JoinAllOneForOne(rows: seq<Row>, tables: CategoryTables)
    requires tables.UniqueSubjects() && HasJoinColumns(rows)
    ensures |JoinAll(rows, tables)| == |rows|
    ensures forall i :: 0 <= i < |rows| ==>
      JoinAll(rows, tables)[i] == JoinedRow(rows[i], Lookup(tables.analistas, rows[i]["analista"]),
        Lookup(tables.supervisores, rows[i]["supervisor"]), Lookup(tables.equipos, rows[i]["auditor"]))
  {
    var lifted := Lift(rows);
    MergeOneForOne(lifted, tables.analistas, Analistas);
    var a := MergeCategory(lifted, tables.analistas, Analistas);
    MergeOneForOne(a, tables.supervisores, Supervisores);
    var s := MergeCategory(a, tables.supervisores, Supervisores);
    MergeOneForOne(s, tables.equipos, Equipos);
  }

  /** js carries rows one for one, each with the global category its lookups give. */
  ghost predicate Pointwise(js: seq<JoinedRow>, rows: seq<Row>, tables: CategoryTables)
    requires HasJoinColumns(rows)
  {
    |js| == |rows| && forall i :: 0 <= i < |rows| ==> js[i].row == rows[i] && js[i].Global() == ExpectedGlobal(rows[i], tables)
  }

  lemma ProjectCons(x: JoinedRow, rest: seq<JoinedRow>)
    ensures Project([x] + rest) == [x.row] + Project(rest)
  {
    assert forall i :: 0 < i <= |rest| ==> ([x] + rest)[i] == rest[i - 1];
  }

  lemma {:induction false} KeepProjects(js: seq<JoinedRow>, rows: seq<Row>, tables: CategoryTables, sel: string)
    requires HasJoinColumns(rows) && Pointwise(js, rows, tables)
    ensures Project(Keep(js, sel)) == SelectRows(rows, tables, sel)
  {
    if rows != [] {
      assert HasJoinColumns(rows[1..]) && Pointwise(js[1..], rows[1..], tables) by {
        forall i | 0 <= i < |rows[1..]| ensures js[1..][i] == js[i + 1] && rows[1..][i] == rows[i + 1] { }
      }
      KeepProjects(js[1..], rows[1..], tables, sel);
      var x := js[0];
      if x.Global().Some? && x.Global().value.Label() == sel {
        assert Keep(js, sel) == [x] + Keep(js[1..], sel);
        ProjectCons(x, Keep(js[1..], sel));
      } else {
        assert Keep(js, sel) == Keep(js[1..], sel);
      }
    }
  }

  /** What the narrowed join holds: sound rows of the selected category, and with unique subjects the reference selection. */
  lemma JoinedOutcome(rows: seq<Row>, tables: CategoryTables, sel: string)
    requires HasJoinColumns(rows)
    ensures forall y :: y in Keep(JoinAll(rows, tables), sel) ==>
      && SoundRow(y, rows, tables)
      && y.Global().Some? && y.Global().value.Label() == sel
    ensures tables.UniqueSubjects() ==> Project(Keep(JoinAll(rows, tables), sel)) == SelectRows(rows, tables, sel)
  {
    JoinAllSound(rows, tables);
    if tables.UniqueSubjects() {
      JoinAllOneForOne(rows, tables);
      KeepProjects(JoinAll(rows, tables), rows, tables, sel);
    }
  }

  /**
   * aplicar_filtro_categoria_transversal: with no selection ("", None or
   * "Todos") the input comes back as is. Otherwise each role's table is
   * left-joined when the case table has its join column and the table is not
   * empty; a category column left uncreated raises KeyError when
   * categoria_global is computed; the rest keeps the rows whose global
   * category is the selected one.
   */
  method CrossCategoryFilter(dfIn: Table, categoriaSel: Option<string>, tables: CategoryTables) returns (o: Outcome)
    requires dfIn.WellFormed()
    ensures o.Input? <==> categoriaSel.None? || categoriaSel.value == "" || categoriaSel.value == "Todos"
    ensures o.Input? ==> o.table == dfIn
    ensures o.Raised? <==> (!o.Input? &&
      !(tables.JoinsInto(dfIn, Analistas) && tables.JoinsInto(dfIn, Supervisores) && tables.JoinsInto(dfIn, Equipos)))
    ensures o.Raised? ==> o.error == KeyError(
      if !tables.JoinsInto(dfIn, Analistas) then CategoryColumn(Analistas)
      else if !tables.JoinsInto(dfIn, Supervisores) then CategoryColumn(Supervisores)
      else CategoryColumn(Equipos))
    ensures o.Joined? ==> o.rows == Keep(JoinAll(dfIn.rows, tables), categoriaSel.value)
    ensures o.Joined? ==> forall y :: y in o.rows ==>
      && SoundRow(y, dfIn.rows, tables)
      && y.Global().Some? && y.Global().value.Label() == categoriaSel.value
    ensures o.Joined? && tables.UniqueSubjects() ==>
      HasJoinColumns(dfIn.rows) && Project(o.rows) == SelectRows(dfIn.rows, tables, categoriaSel.value)
  {
    if categoriaSel.None? || categoriaSel.value == "" || categoriaSel.value == "Todos" {
      return Input(dfIn);
    }
    var out := Lift(dfIn.rows);
    var catAnalista, catSupervisor, catAuditor := false, false, false;
    if "analista" in dfIn.columns && tables.analistas != [] {
      out := MergeCategory(out, tables.analistas, Analistas);
      catAnalista := true;
    }
    if "supervisor" in dfIn.columns && tables.supervisores != [] {
      out := MergeCategory(out, tables.supervisores, Supervisores);
      catSupervisor := true;
    }
    if "auditor" in dfIn.columns && tables.equipos != [] {
      out := MergeCategory(out, tables.equipos, Equipos);
      catAuditor := true;
    }
    // categoria_global reads cat_analista, cat_supervisor and cat_auditor in turn
    if !catAnalista {
      return Raised(KeyError("cat_analista"));
    }
    if !catSupervisor {
      return Raised(KeyError("cat_supervisor"));
    }
    if !catAuditor {
      return Raised(KeyError("cat_auditor"));
    }
    assert out == JoinAll(dfIn.rows, tables);
    JoinColumnsPresent(dfIn);
    JoinedOutcome(dfIn.rows, tables, categoriaSel.value);
    o := Joined(Keep(out, categoriaSel.value));
  }

  /** A well-formed case table with the three join columns has them in every row. */
  lemma JoinColumnsPresent(t: Table)
    requires t.WellFormed() && "analista" in t.columns && "supervisor" in t.columns && "auditor" in t.columns
    ensures HasJoinColumns(t.rows)
  {
    assert "analista" in t.ColumnSet() && "supervisor" in t.ColumnSet() && "auditor" in t.ColumnSet();
  }

  /**
   * The analyst's category decides even when the supervisor's is the
   * selected one: such a row is dropped under "Atraso alto".
   */
  lemma AnalystTakesPrecedence(r: Row)
    ensures JoinedRow(r, Some(AtrasoNormal), Some(AtrasoAlto), None).Global() == Some(AtrasoNormal)
    ensures Keep([JoinedRow(r, Some(AtrasoNormal), Some(AtrasoAlto), None)], "Atraso alto") == []
  {
    var x := JoinedRow(r, Some(AtrasoNormal), Some(AtrasoAlto), None);
    assert Keep([x], "Atraso alto") == [] + Keep([], "Atraso alto");
  }

  /** A kept row matched at least one table on its own subject column. */
  lemma KeptRowsMatched(y: JoinedRow, rows: seq<Row>, tables: CategoryTables)
    requires SoundRow(y, rows, tables) && y.Global().Some?
    ensures exists role: Role :: JoinColumn(role) in y.row && Matches(tables.For(role), y.row[JoinColumn(role)]) != []
  {
    var role := if y.catAnalista.Some? then Analistas else if y.catSupervisor.Some? then Supervisores else Equipos;
    assert Traced(y, tables, role);
    assert y.CategoryOf(role).value in Matches(tables.For(role), y.row[JoinColumn(role)]);
  }
}
