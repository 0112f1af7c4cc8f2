/**
 * The per-subject aggregation of app.py: prepara_df_modulo,
 * desarrolladas_por_sujeto and tabla_resumen. They are written once,
 * parameterised by the role tables they consult (RoleConfig): app.py's own
 * tables give app.py's behaviour, those of DIAN_VA/utils/logic.py give the
 * behaviour DIAN_VA/utils/filters.py relies on.
 */
module Aggregation {
  import opened Wrappers
  import opened Text
  import opened Frames
  import opened Enums
  import opened Categories

  const STATE_COLUMN: string := "estado_carpeta"

  /** What a module view needs from the role tables: the subject column and the completion states. */
  datatype RoleConfig = RoleConfig(role: Role, column: string, validStates: seq<string>)

  /**
   * prepara_df_modulo: a copy of the table in which the subject column exists;
   * if it was missing it is added with "" in every row.
   */
  method PrepareModuleFrame(dfIn: Table, cfg: RoleConfig) returns (dfm: Table)
    requires dfIn.WellFormed()
    ensures dfm.WellFormed() && cfg.column in dfm.columns
    ensures cfg.column in dfIn.columns ==> dfm == dfIn
    ensures cfg.column !in dfIn.columns ==>
      && dfm.columns == dfIn.columns + [cfg.column]
      && |dfm.rows| == |dfIn.rows|
      && forall i :: 0 <= i < |dfIn.rows| ==> dfm.rows[i] == dfIn.rows[i][cfg.column := ""]
  {
    dfm := dfIn;
    if cfg.column !in dfm.columns {
      dfm := AddConstantColumn(dfm, cfg.column, "");
    }
  }

  /** Every row has the subject column and estado_carpeta. */
  ghost predicate HasFields(rows: seq<Row>, cfg: RoleConfig) {
    forall i :: 0 <= i < |rows| ==> cfg.column in rows[i] && STATE_COLUMN in rows[i]
  }

  /** The folder's state, lower-cased, is one of the role's completion states. */
  predicate Qualifies(r: Row, cfg: RoleConfig)
    requires STATE_COLUMN in r
  {
    Lower(r[STATE_COLUMN]) in cfg.validStates
  }

  /** Reference count: the completed rows whose raw subject cell is k. */
  function CountFor(rows: seq<Row>, cfg: RoleConfig, k: string): nat
    requires HasFields(rows, cfg)
  {
    if rows == [] then 0
    else
      var last := rows[|rows| - 1];
      CountFor(rows[..|rows| - 1], cfg, k) + (if Qualifies(last, cfg) && last[cfg.column] == k then 1 else 0)
  }

  /** Reference count: all completed rows. */
  function QualifyingCount(rows: seq<Row>, cfg: RoleConfig): nat
    requires HasFields(rows, cfg)
  {
    if rows == [] then 0
    else QualifyingCount(rows[..|rows| - 1], cfg) + (if Qualifies(rows[|rows| - 1], cfg) then 1 else 0)
  }

  predicate CompletedBy(rows: seq<Row>, cfg: RoleConfig, k: string, i: int)
    requires HasFields(rows, cfg)
  {
    0 <= i < |rows| && Qualifies(rows[i], cfg) && rows[i][cfg.column] == k
  }

  /** A subject has a positive count exactly when some completed row names it. */
  lemma {:induction false} CountForPositive(rows: seq<Row>, cfg: RoleConfig, k: string)
    requires HasFields(rows, cfg)
    ensures CountFor(rows, cfg, k) > 0 <==> exists i :: CompletedBy(rows, cfg, k, i)
  {
    if rows != [] {
      var init := rows[..|rows| - 1];
      CountForPositive(init, cfg, k);
      forall i | 0 <= i < |init| ensures init[i] == rows[i] { }
      var last := rows[|rows| - 1];
      if Qualifies(last, cfg) && last[cfg.column] == k {
        assert CompletedBy(rows, cfg, k, |rows| - 1);
      }
      if CountFor(init, cfg, k) > 0 {
        var i :| CompletedBy(init, cfg, k, i);
        assert CompletedBy(rows, cfg, k, i);
      }
      if exists i :: CompletedBy(rows, cfg, k, i) {
        var i :| CompletedBy(rows, cfg, k, i);
        if i < |rows| - 1 {
          assert CompletedBy(init, cfg, k, i);
        }
      }
    }
  }

  /** One row of the groupby result: a raw subject value and its number of completed folders. */
  datatype SubjectCount = SubjectCount(subject: string, developed: nat)

  ghost predicate GroupsSorted(g: seq<SubjectCount>) {
    forall i, j :: 0 <= i < j < |g| ==> StrLess(g[i].subject, g[j].subject)
  }

  ghost predicate Positive(g: seq<SubjectCount>) {
    forall i :: 0 <= i < |g| ==> g[i].developed >= 1
  }

  /** The count listed for k, or 0 when k is not listed. */
  function CountOf(g: seq<SubjectCount>, k: string): nat {
    if g == [] then 0 else if g[0].subject == k then g[0].developed else CountOf(g[1..], k)
  }

  function Total(g: seq<SubjectCount>): nat {
    if g == [] then 0 else g[0].developed + Total(g[1..])
  }

  function Subjects(g: seq<SubjectCount>): set<string> {
    set i | 0 <= i < |g| :: g[i].subject
  }

  lemma {:induction false} CountOfAbsent(g: seq<SubjectCount>, k: string)
    requires k !in Subjects(g)
    ensures CountOf(g, k) == 0
  {
    if g != [] {
      assert g[0].subject in Subjects(g);
      assert Subjects(g[1..]) <= Subjects(g) by {
        forall x | x in Subjects(g[1..]) ensures x in Subjects(g) {
          var i :| 0 <= i < |g[1..]| && g[1..][i].subject == x;
          assert g[i + 1].subject == x;
        }
      }
      CountOfAbsent(g[1..], k);
    }
  }

  lemma {:induction false} CountOfAt(g: seq<SubjectCount>, i: int)
    requires GroupsSorted(g) && 0 <= i < |g|
    ensures CountOf(g, g[i].subject) == g[i].developed
  {
    if i > 0 {
      StrLessIrreflexive(g[i].subject);
      assert g[0].subject != g[i].subject;
      assert g[1..][i - 1] == g[i];
      CountOfAt(g[1..], i - 1);
    }
  }

  /** With sorted groups of positive counts, a subject is listed exactly when its count is positive. */
  lemma CountOfPositive(g: seq<SubjectCount>, k: string)
    requires GroupsSorted(g) && Positive(g)
    ensures CountOf(g, k) > 0 <==> k in Subjects(g)
  {
    if k in Subjects(g) {
      var i :| 0 <= i < |g| && g[i].subject == k;
      CountOfAt(g, i);
    } else {
      CountOfAbsent(g, k);
    }
  }

  lemma SubjectsOfTail(g: seq<SubjectCount>)
    requires g != []
    ensures Subjects(g) == {g[0].subject} + Subjects(g[1..])
  {
    forall x | x in Subjects(g) ensures x in {g[0].subject} + Subjects(g[1..]) {
      var i :| 0 <= i < |g| && g[i].subject == x;
      if i > 0 {
        assert g[1..][i - 1].subject == x;
      }
    }
    forall x | x in Subjects(g[1..]) ensures x in Subjects(g) {
      var i :| 0 <= i < |g[1..]| && g[1..][i].subject == x;
      assert g[i + 1].subject == x;
    }
  }

  /** Putting x in front of t: how the listed subjects, the counts and the total change. */
  lemma ConsFacts(x: SubjectCount, t: seq<SubjectCount>)
    ensures ([x] + t)[1..] == t
    ensures Subjects([x] + t) == {x.subject} + Subjects(t)
    ensures forall k :: CountOf([x] + t, k) == if x.subject == k then x.developed else CountOf(t, k)
    ensures Total([x] + t) == x.developed + Total(t)
  {
    assert ([x] + t)[1..] == t;
    SubjectsOfTail([x] + t);
  }

  /** [x] + t is sorted when t is and x's subject comes before every subject of t. */
  lemma ConsSorted(x: SubjectCount, t: seq<SubjectCount>)
    requires GroupsSorted(t)
    requires forall y :: y in Subjects(t) ==> StrLess(x.subject, y)
    ensures GroupsSorted([x] + t)
  {
    var r := [x] + t;
    forall i, j | 0 <= i < j < |r| ensures StrLess(r[i].subject, r[j].subject) {
      if i == 0 {
        assert r[j] == t[j - 1];
        assert t[j - 1].subject in Subjects(t);
      } else {
        assert r[i] == t[i - 1] && r[j] == t[j - 1];
      }
    }
  }

  /** Every subject after the head of sorted groups comes after the head's subject. */
  lemma HeadFirst(g: seq<SubjectCount>)
    requires GroupsSorted(g) && g != []
    ensures forall y :: y in Subjects(g[1..]) ==> StrLess(g[0].subject, y)
  {
    forall y | y in Subjects(g[1..]) ensures StrLess(g[0].subject, y) {
      var i :| 0 <= i < |g[1..]| && g[1..][i].subject == y;
      assert g[i + 1] == g[1..][i];
    }
  }

  /** r is g with one more completed folder for k, still sorted by subject. */
  ghost predicate Bumped(g: seq<SubjectCount>, k: string, r: seq<SubjectCount>) {
    && GroupsSorted(r) && Positive(r)
    && Subjects(r) == Subjects(g) + {k}
    && CountOf(r, k) == CountOf(g, k) + 1
    && (forall k' :: k' != k ==> CountOf(r, k') == CountOf(g, k'))
    && Total(r) == Total(g) + 1
  }

  /** k is new and comes before every listed subject: it goes in front with count 1. */
  lemma BumpInFront(g: seq<SubjectCount>, k: string)
    requires GroupsSorted(g) && Positive(g)
    requires g == [] || StrLess(k, g[0].subject)
    ensures Bumped(g, k, [SubjectCount(k, 1)] + g)
  {
    var x := SubjectCount(k, 1);
    ConsFacts(x, g);
    if g != [] {
      ConsFacts(g[0], g[1..]);
      HeadFirst(g);
      assert g == [g[0]] + g[1..];
      forall y | y in Subjects(g) ensures StrLess(k, y) {
        if y != g[0].subject {
          StrLessTransitive(k, g[0].subject, y);
        }
      }
    }
    StrLessIrreflexive(k);
    CountOfAbsent(g, k);
    ConsSorted(x, g);
  }

  /** k heads the groups: its count goes up by one. */
  lemma BumpAtHead(g: seq<SubjectCount>, k: string)
    requires GroupsSorted(g) && Positive(g) && g != [] && g[0].subject == k
    ensures Bumped(g, k, [SubjectCount(k, g[0].developed + 1)] + g[1..])
  {
    var x := SubjectCount(k, g[0].developed + 1);
    ConsFacts(x, g[1..]);
    ConsFacts(g[0], g[1..]);
    HeadFirst(g);
    ConsSorted(x, g[1..]);
    assert g == [g[0]] + g[1..];
  }

  /** The head's subject comes before every subject of the bumped tail. */
  lemma HeadBeforeBumped(g: seq<SubjectCount>, k: string, t: seq<SubjectCount>)
    requires GroupsSorted(g) && g != [] && StrLess(g[0].subject, k)
    requires Subjects(t) == Subjects(g[1..]) + {k}
    ensures forall y :: y in Subjects(t) ==> StrLess(g[0].subject, y)
  {
    HeadFirst(g);
  }

  /** k comes after the head: the head stays in front of the bumped tail. */
  lemma BumpBehindHead(g: seq<SubjectCount>, k: string, t: seq<SubjectCount>)
    requires GroupsSorted(g) && Positive(g) && g != [] && StrLess(g[0].subject, k)
    requires Bumped(g[1..], k, t)
    ensures Bumped(g, k, [g[0]] + t)
  {
    var r := [g[0]] + t;
    assert r[0] == g[0] && r[1..] == t;
    StrLessIrreflexive(k);
    assert g[0].subject != k;
    HeadBeforeBumped(g, k, t);
    ConsSorted(g[0], t);
    forall i | 0 <= i < |r| ensures r[i].developed >= 1 {
      if i > 0 {
        assert r[i] == t[i - 1];
      }
    }
    SubjectsOfTail(r);
    SubjectsOfTail(g);
    forall k' | k' != k ensures CountOf(r, k') == CountOf(g, k') {
    }
  }

  /** Adds one completed folder for k, keeping the groups sorted by subject. */
  function Bump(g: seq<SubjectCount>, k: string): (r: seq<SubjectCount>)
    requires GroupsSorted(g) && Positive(g)
    ensures GroupsSorted(r) && Positive(r)
    ensures Subjects(r) == Subjects(g) + {k}
    ensures CountOf(r, k) == CountOf(g, k) + 1
    ensures forall k' :: k' != k ==> CountOf(r, k') == CountOf(g, k')
    ensures Total(r) == Total(g) + 1
  {
    if g == [] || StrLess(k, g[0].subject) then
      BumpInFront(g, k);
      [SubjectCount(k, 1)] + g
    else if g[0].subject == k then
      BumpAtHead(g, k);
      [SubjectCount(k, g[0].developed + 1)] + g[1..]
    else
      StrLessTotal(k, g[0].subject);
      var t := Bump(g[1..], k);
      BumpBehindHead(g, k, t);
      [g[0]] + t
  }

  /**
   * The grouping of desarrolladas_por_sujeto once both columns are known to
   * exist: keeps the rows whose lower-cased state is a completion state and
   * counts them per raw subject value (so "" is a subject of its own). Like
   * groupby, the groups come out sorted by subject.
   */
  function CompletedPerSubject(rows: seq<Row>, cfg: RoleConfig): (g: seq<SubjectCount>)
    requires HasFields(rows, cfg)
    ensures GroupsSorted(g) && Positive(g)
    ensures forall k :: CountOf(g, k) == CountFor(rows, cfg, k)
    ensures Total(g) == QualifyingCount(rows, cfg)
  {
    if rows == [] then []
    else
      var last := rows[|rows| - 1];
      var g0 := CompletedPerSubject(rows[..|rows| - 1], cfg);
      if Qualifies(last, cfg) then Bump(g0, last[cfg.column]) else g0
  }

  lemma WellFormedFields(t: Table, cfg: RoleConfig)
    requires t.WellFormed() && cfg.column in t.columns && STATE_COLUMN in t.columns
    ensures HasFields(t.rows, cfg)
  {
  }

  /**
   * desarrolladas_por_sujeto on a whole table: reading estado_carpeta raises
   * KeyError when that column is missing, and grouping by the subject column
   * raises KeyError when it is missing; otherwise the per-subject counts.
   */
  function DevelopedPerSubject(t: Table, cfg: RoleConfig): (r: Result<seq<SubjectCount>, KeyError>)
    requires t.WellFormed()
    ensures r.Failure? <==> STATE_COLUMN !in t.columns || cfg.column !in t.columns
    ensures r.Failure? ==> r.error == KeyError(if STATE_COLUMN !in t.columns then STATE_COLUMN else cfg.column)
    ensures r.Success? ==>
      && HasFields(t.rows, cfg)
      && GroupsSorted(r.value) && Positive(r.value)
      && (forall k :: CountOf(r.value, k) == CountFor(t.rows, cfg, k))
      && Total(r.value) == QualifyingCount(t.rows, cfg)
  {
    if STATE_COLUMN !in t.columns then Failure(KeyError(STATE_COLUMN))
    else if cfg.column !in t.columns then Failure(KeyError(cfg.column))
    else
      WellFormedFields(t, cfg);
      Success(CompletedPerSubject(t.rows, cfg))
  }

  /** The subjects listed are exactly those with a completed folder. */
  lemma DevelopedSubjects(rows: seq<Row>, cfg: RoleConfig, k: string)
    requires HasFields(rows, cfg)
    ensures k in Subjects(CompletedPerSubject(rows, cfg)) <==> exists i :: CompletedBy(rows, cfg, k, i)
  {
    CountOfPositive(CompletedPerSubject(rows, cfg), k);
    CountForPositive(rows, cfg, k);
  }

  lemma {:induction false} TotalPositive(g: seq<SubjectCount>)
    requires Positive(g)
    ensures Total(g) == 0 <==> g == []
  {
  }

  /** One row of tabla_resumen: Categoria, the subject, Desarrolladas and Meta. */
  datatype SummaryRow = SummaryRow(categoria: Category, subject: string, developed: nat, meta: int)

  /** A summary: its column names, in pandas' order, and its rows. */
  datatype Summary = Summary(columns: seq<string>, rows: seq<SummaryRow>)

  /**
   * The display order: by category, then by Desarrolladas; the sort is stable
   * and its input is sorted by subject, so ties fall back to the subject.
   */
  predicate Before(a: SummaryRow, b: SummaryRow) {
    || a.categoria.Rank() < b.categoria.Rank()
    || (a.categoria.Rank() == b.categoria.Rank() && a.developed < b.developed)
    || (a.categoria.Rank() == b.categoria.Rank() && a.developed == b.developed && StrLess(a.subject, b.subject))
  }

  ghost predicate Ordered(s: seq<SummaryRow>) {
    forall i, j :: 0 <= i < j < |s| ==> Before(s[i], s[j])
  }

  ghost predicate DistinctSubjects(s: seq<SummaryRow>) {
    forall i, j :: 0 <= i < j < |s| ==> s[i].subject != s[j].subject
  }

  function SubjectsOf(s: seq<SummaryRow>): set<string> {
    set i | 0 <= i < |s| :: s[i].subject
  }

  lemma BeforeTransitive(a: SummaryRow, b: SummaryRow, c: SummaryRow)
    requires Before(a, b) && Before(b, c)
    ensures Before(a, c)
  {
    if a.categoria.Rank() == b.categoria.Rank() == c.categoria.Rank() && a.developed == b.developed == c.developed {
      StrLessTransitive(a.subject, b.subject, c.subject);
    }
  }

  lemma BeforeTotal(a: SummaryRow, b: SummaryRow)
    requires a.subject != b.subject
    ensures Before(a, b) || Before(b, a)
  {
    StrLessTotal(a.subject, b.subject);
  }

  lemma BeforeIrreflexive(a: SummaryRow)
    ensures !Before(a, a)
  {
    StrLessIrreflexive(a.subject);
  }

  /** Inserts x at its place in an ordered list that does not yet hold its subject. */
  function InsertRow(s: seq<SummaryRow>, x: SummaryRow): (r: seq<SummaryRow>)
    requires Ordered(s)
    requires forall y :: y in s ==> y.subject != x.subject
    ensures Ordered(r)
    ensures multiset(r) == multiset(s) + multiset{x}
  {
    if s == [] then [x]
    else if Before(x, s[0]) then
      InsertInFront(s, x);
      [x] + s
    else
      BeforeTotal(x, s[0]);
      var t := InsertRow(s[1..], x);
      InsertBehindHead(s, x, t);
      [s[0]] + t
  }

  /** x goes before the head of ordered rows, so before all of them. */
  lemma InsertInFront(s: seq<SummaryRow>, x: SummaryRow)
    requires Ordered(s) && s != [] && Before(x, s[0])
    ensures Ordered([x] + s)
  {
    forall j | 1 <= j < |s| ensures Before(x, s[j]) {
      BeforeTransitive(x, s[0], s[j]);
    }
    var r := [x] + s;
    forall i, j | 0 <= i < j < |r| ensures Before(r[i], r[j]) {
      if i > 0 {
        assert r[i] == s[i - 1] && r[j] == s[j - 1];
      } else {
        assert r[j] == s[j - 1];
      }
    }
  }

  /** The head stays in front when x is inserted into the rest. */
  lemma InsertBehindHead(s: seq<SummaryRow>, x: SummaryRow, t: seq<SummaryRow>)
    requires Ordered(s) && s != [] && Before(s[0], x)
    requires Ordered(t) && multiset(t) == multiset(s[1..]) + multiset{x}
    ensures Ordered([s[0]] + t)
    ensures multiset([s[0]] + t) == multiset(s) + multiset{x}
  {
    forall j | 0 <= j < |t| ensures Before(s[0], t[j]) {
      assert t[j] in multiset(t);
      if t[j] != x {
        assert t[j] in multiset(s[1..]);
        var i :| 0 <= i < |s[1..]| && s[1..][i] == t[j];
        assert s[i + 1] == t[j];
      }
    }
    var r := [s[0]] + t;
    forall i, j | 0 <= i < j < |r| ensures Before(r[i], r[j]) {
      if i > 0 {
        assert r[i] == t[i - 1] && r[j] == t[j - 1];
      } else {
        assert r[j] == t[j - 1];
      }
    }
    assert s == [s[0]] + s[1..];
  }

  /** sort_values(["Categoria", "Desarrolladas"]) on rows whose subjects are distinct. */
  function SortByCategory(s: seq<SummaryRow>): (r: seq<SummaryRow>)
    requires DistinctSubjects(s)
    ensures Ordered(r)
    ensures multiset(r) == multiset(s)
  {
    if s == [] then []
    else
      var init := s[..|s| - 1];
      DistinctPrefix(s);
      var sorted := SortByCategory(init);
      SameMembers(sorted, init);
      SplitLast(s);
      InsertRow(sorted, s[|s| - 1])
  }

  /** Sequences with the same multiset have the same members. */
  lemma SameMembers(a: seq<SummaryRow>, b: seq<SummaryRow>)
    requires multiset(a) == multiset(b)
    ensures forall y :: y in a ==> y in b
  {
    forall y | y in a ensures y in b {
      assert y in multiset(a);
    }
  }

  lemma SplitLast(s: seq<SummaryRow>)
    requires s != []
    ensures multiset(s) == multiset(s[..|s| - 1]) + multiset{s[|s| - 1]}
  {
    assert s == s[..|s| - 1] + [s[|s| - 1]];
  }

  /** Dropping the last row keeps the subjects distinct, and none of them is the last row's. */
  lemma DistinctPrefix(s: seq<SummaryRow>)
    requires DistinctSubjects(s) && s != []
    ensures DistinctSubjects(s[..|s| - 1])
    ensures forall y :: y in s[..|s| - 1] ==> y.subject != s[|s| - 1].subject
  {
    forall y | y in s[..|s| - 1] ensures y.subject != s[|s| - 1].subject {
      var i :| 0 <= i < |s| - 1 && s[..|s| - 1][i] == y;
      assert s[i] == y;
    }
  }

  /** The summary row tabla_resumen builds for one group. */
  function SummaryRowFor(e: SubjectCount, perSubjectMeta: int, cfg: RoleConfig): SummaryRow {
    var atraso := perSubjectMeta - e.developed;
    SummaryRow(Classify(atraso, cfg.role.Name()), e.subject, e.developed, perSubjectMeta)
  }

  /** The rows built for sorted groups: one per group, in group order. */
  ghost predicate BuiltFrom(dev: seq<SubjectCount>, built: seq<SummaryRow>, perSubjectMeta: int, cfg: RoleConfig) {
    |built| == |dev| && forall j :: 0 <= j < |dev| ==> built[j] == SummaryRowFor(dev[j], perSubjectMeta, cfg)
  }

  lemma BuiltDistinct(dev: seq<SubjectCount>, built: seq<SummaryRow>, perSubjectMeta: int, cfg: RoleConfig)
    requires GroupsSorted(dev) && BuiltFrom(dev, built, perSubjectMeta, cfg)
    ensures DistinctSubjects(built)
  {
    forall a, b | 0 <= a < b < |built| ensures built[a].subject != built[b].subject {
      StrLessIrreflexive(dev[a].subject);
    }
  }

  lemma SortedRowFacts(rows: seq<Row>, cfg: RoleConfig, perSubjectMeta: int, dev: seq<SubjectCount>, built: seq<SummaryRow>, sorted: seq<SummaryRow>)
    requires HasFields(rows, cfg) && dev == CompletedPerSubject(rows, cfg)
    requires BuiltFrom(dev, built, perSubjectMeta, cfg) && multiset(sorted) == multiset(built)
    ensures forall r :: r in sorted ==>
      && r.meta == perSubjectMeta
      && r.developed == CountFor(rows, cfg, r.subject)
      && r.developed >= 1
      && r.categoria == Classify(perSubjectMeta - r.developed, cfg.role.Name())
  {
    forall r | r in sorted
      ensures r.meta == perSubjectMeta && r.developed == CountFor(rows, cfg, r.subject) && r.developed >= 1
      ensures r.categoria == Classify(perSubjectMeta - r.developed, cfg.role.Name())
    {
      assert r in multiset(built);
      var j :| 0 <= j < |built| && built[j] == r;
      CountOfAt(dev, j);
    }
  }

  lemma SortedSubjectFacts(rows: seq<Row>, cfg: RoleConfig, perSubjectMeta: int, dev: seq<SubjectCount>, built: seq<SummaryRow>, sorted: seq<SummaryRow>)
    requires HasFields(rows, cfg) && dev == CompletedPerSubject(rows, cfg)
    requires BuiltFrom(dev, built, perSubjectMeta, cfg) && multiset(sorted) == multiset(built)
    ensures forall k :: k in SubjectsOf(sorted) <==> CountFor(rows, cfg, k) > 0
  {
    forall k ensures k in SubjectsOf(sorted) <==> CountFor(rows, cfg, k) > 0 {
      CountOfPositive(dev, k);
      if k in SubjectsOf(sorted) {
        var j :| 0 <= j < |sorted| && sorted[j].subject == k;
        assert sorted[j] in multiset(built);
        var m :| 0 <= m < |built| && built[m] == sorted[j];
        assert dev[m].subject == k;
      }
      if k in Subjects(dev) {
        var m :| 0 <= m < |dev| && dev[m].subject == k;
        assert built[m] in multiset(sorted);
        var j :| 0 <= j < |sorted| && sorted[j] == built[m];
        assert sorted[j].subject == k;
      }
    }
  }

  /** An ordered permutation of rows with distinct subjects has distinct subjects too. */
  lemma OrderedDistinct(s: seq<SummaryRow>, built: seq<SummaryRow>)
    requires Ordered(s) && DistinctSubjects(built) && multiset(s) == multiset(built)
    ensures DistinctSubjects(s)
  {
    forall a, b | 0 <= a < b < |s| ensures s[a].subject != s[b].subject {
      if s[a].subject == s[b].subject {
        assert s[a] in multiset(built) && s[b] in multiset(built);
        var m :| 0 <= m < |built| && built[m] == s[a];
        var n :| 0 <= n < |built| && built[n] == s[b];
        assert m == n;
        BeforeIrreflexive(s[a]);
        assert false;
      }
    }
  }

  /**
   * The table tabla_resumen builds once both columns are known to exist: one
   * row per subject with a completed folder, giving its count, the per-subject
   * quota and the category of quota minus count, in category order then by
   * count. With no completed folder the table is empty and its columns come
   * in a different order.
   */
  method SummaryOfRows(rows: seq<Row>, cfg: RoleConfig, perSubjectMeta: int) returns (s: Summary)
    requires HasFields(rows, cfg)
    ensures s.rows == [] <==> QualifyingCount(rows, cfg) == 0
    ensures s.rows == [] ==> s.columns == ["Categoria", Capitalize(cfg.column), "Desarrolladas", "Meta"]
    ensures s.rows != [] ==> s.columns == [Capitalize(cfg.column), "Desarrolladas", "Meta", "Categoria"]
    ensures forall r :: r in s.rows ==>
      && r.meta == perSubjectMeta
      && r.developed == CountFor(rows, cfg, r.subject)
      && r.developed >= 1
      && r.categoria == Classify(perSubjectMeta - r.developed, cfg.role.Name())
    ensures forall k :: k in SubjectsOf(s.rows) <==> CountFor(rows, cfg, k) > 0
    ensures DistinctSubjects(s.rows)
    ensures Ordered(s.rows)
  {
    var dev := CompletedPerSubject(rows, cfg);
    TotalPositive(dev);
    if dev == [] {
      s := Summary(["Categoria", Capitalize(cfg.column), "Desarrolladas", "Meta"], []);
      forall k ensures CountFor(rows, cfg, k) == 0 {
        assert CountOf(dev, k) == 0;
      }
      return;
    }
    // dev["meta"], dev["atraso"] and dev["Categoria"], row by row
    var built: seq<SummaryRow> := [];
    var i := 0;
    while i < |dev|
      invariant 0 <= i <= |dev|
      invariant |built| == i
      invariant forall j :: 0 <= j < i ==> built[j] == SummaryRowFor(dev[j], perSubjectMeta, cfg)
    {
      var meta := perSubjectMeta;
      var atraso := meta - dev[i].developed;
      built := built + [SummaryRow(Classify(atraso, cfg.role.Name()), dev[i].subject, dev[i].developed, meta)];
      i := i + 1;
    }
    BuiltDistinct(dev, built, perSubjectMeta, cfg);
    var sorted := SortByCategory(built);
    s := Summary([Capitalize(cfg.column), "Desarrolladas", "Meta", "Categoria"], sorted);
    SortedRowFacts(rows, cfg, perSubjectMeta, dev, built, sorted);
    SortedSubjectFacts(rows, cfg, perSubjectMeta, dev, built, sorted);
    OrderedDistinct(sorted, built);
  }

  /**
   * tabla_resumen on a whole table: the KeyError of desarrolladas_por_sujeto
   * when estado_carpeta or the subject column is missing, otherwise the summary.
   */
  method SummaryTable(t: Table, cfg: RoleConfig, perSubjectMeta: int) returns (r: Result<Summary, KeyError>)
    requires t.WellFormed()
    ensures r.Failure? <==> STATE_COLUMN !in t.columns || cfg.column !in t.columns
    ensures r.Failure? ==> r.error == KeyError(if STATE_COLUMN !in t.columns then STATE_COLUMN else cfg.column)
    ensures r.Success? ==> HasFields(t.rows, cfg)
    ensures r.Success? ==> (r.value.rows == [] <==> QualifyingCount(t.rows, cfg) == 0)
    ensures r.Success? && r.value.rows == [] ==> r.value.columns == ["Categoria", Capitalize(cfg.column), "Desarrolladas", "Meta"]
    ensures r.Success? && r.value.rows != [] ==> r.value.columns == [Capitalize(cfg.column), "Desarrolladas", "Meta", "Categoria"]
    ensures r.Success? ==> forall y :: y in r.value.rows ==>
      && y.meta == perSubjectMeta
      && y.developed == CountFor(t.rows, cfg, y.subject)
      && y.developed >= 1
      && y.categoria == Classify(perSubjectMeta - y.developed, cfg.role.Name())
    ensures r.Success? ==> forall k :: k in SubjectsOf(r.value.rows) <==> CountFor(t.rows, cfg, k) > 0
    ensures r.Success? ==> DistinctSubjects(r.value.rows) && Ordered(r.value.rows)
  {
    var dev := DevelopedPerSubject(t, cfg);
    if dev.Failure? {
      return Failure(dev.error);
    }
    var s := SummaryOfRows(t.rows, cfg, perSubjectMeta);
    r := Success(s);
  }
}
