/**
 * A pandas DataFrame of string cells: an ordered list of distinct column
 * names and a list of rows, each row keyed by exactly those columns.
 * Boolean-mask selection (`df[df[col] == val]`) is `Where` with a list of
 * equality conditions that must all hold.
 */
module Frames {
  import opened Text

  type Row = map<string, string>

  ghost predicate Distinct<T>(s: seq<T>) {
    forall i, j :: 0 <= i < j < |s| ==> s[i] != s[j]
  }

  datatype Table = Table(columns: seq<string>, rows: seq<Row>) {
    function ColumnSet(): set<string> {
      set c | c in columns
    }

    ghost predicate WellFormed() {
      Distinct(columns) && forall i :: 0 <= i < |rows| ==> rows[i].Keys == ColumnSet()
    }
  }

  /** b keeps the elements of a in their order, possibly dropping some. */
  ghost predicate IsSubsequence<T>(a: seq<T>, b: seq<T>)
    decreases |b|
  {
    if a == [] then true
    else if b == [] then false
    else (a[0] == b[0] && IsSubsequence(a[1..], b[1..])) || IsSubsequence(a, b[1..])
  }

  /** One element of a boolean mask: a cell equal to a value, compared as is or lower-cased on both sides. */
  datatype Cond = Equals(column: string, value: string) | EqualsLower(column: string, value: string)

  predicate Holds(c: Cond, r: Row)
    requires c.column in r
  {
    match c
    case Equals(col, v) => r[col] == v
    case EqualsLower(col, v) => Lower(r[col]) == Lower(v)
  }

  ghost predicate Readable(cs: seq<Cond>, r: Row) {
    forall j :: 0 <= j < |cs| ==> cs[j].column in r
  }

  ghost predicate ReadableAll(cs: seq<Cond>, rows: seq<Row>) {
    forall i :: 0 <= i < |rows| ==> Readable(cs, rows[i])
  }

  predicate HoldsAll(cs: seq<Cond>, r: Row)
    requires Readable(cs, r)
  {
    forall j :: 0 <= j < |cs| ==> Holds(cs[j], r)
  }

  /** The rows, in order, on which every condition holds. */
  function Where(rows: seq<Row>, cs: seq<Cond>): (r: seq<Row>)
    requires ReadableAll(cs, rows)
    ensures |r| <= |rows|
    ensures IsSubsequence(r, rows)
    ensures forall x :: x in r ==> x in rows && Readable(cs, x) && HoldsAll(cs, x)
    ensures forall i :: 0 <= i < |rows| && HoldsAll(cs, rows[i]) ==> rows[i] in r
  {
    if rows == [] then []
    else
      var tail := Where(rows[1..], cs);
      assert forall i :: 1 <= i < |rows| ==> rows[i] == rows[1..][i - 1];
      if HoldsAll(cs, rows[0]) then [rows[0]] + tail else tail
  }

  /** Every row on which the conditions hold is kept as many times as it occurs, and no other row is kept. */
  lemma {:induction false} WhereCount(rows: seq<Row>, cs: seq<Cond>, x: Row)
    requires ReadableAll(cs, rows)
    ensures multiset(Where(rows, cs))[x] == if Readable(cs, x) && HoldsAll(cs, x) then multiset(rows)[x] else 0
  {
    if rows != [] {
      WhereCount(rows[1..], cs, x);
      assert rows == [rows[0]] + rows[1..];
      var tail := Where(rows[1..], cs);
      var head := if HoldsAll(cs, rows[0]) then [rows[0]] else [];
      assert Where(rows, cs) == head + tail;
      assert multiset(head + tail)[x] == multiset(head)[x] + multiset(tail)[x];
      assert multiset(rows)[x] == multiset([rows[0]])[x] + multiset(rows[1..])[x];
    }
  }

  lemma {:induction false} WhereNothing(rows: seq<Row>)
    ensures Where(rows, []) == rows
  {
    if rows != [] {
      WhereNothing(rows[1..]);
    }
  }

  lemma HoldsAllAppend(a: seq<Cond>, b: seq<Cond>, r: Row)
    requires Readable(a + b, r)
    ensures Readable(a, r) && Readable(b, r)
    ensures HoldsAll(a + b, r) <==> HoldsAll(a, r) && HoldsAll(b, r)
  {
    assert forall j :: 0 <= j < |a| ==> (a + b)[j] == a[j];
    assert forall j :: 0 <= j < |b| ==> (a + b)[|a| + j] == b[j];
  }

  /** Narrowing by a, then by b, is narrowing by both at once. */
  lemma {:induction false} WhereAppend(rows: seq<Row>, a: seq<Cond>, b: seq<Cond>)
    requires ReadableAll(a + b, rows)
    ensures ReadableAll(a, rows) && ReadableAll(b, Where(rows, a))
    ensures Where(Where(rows, a), b) == Where(rows, a + b)
  {
    forall i | 0 <= i < |rows| ensures Readable(a, rows[i]) && Readable(b, rows[i]) {
      HoldsAllAppend(a, b, rows[i]);
    }
    if rows != [] {
      WhereAppend(rows[1..], a, b);
      HoldsAllAppend(a, b, rows[0]);
    }
  }

  /** Filtering keeps the columns and keeps the table well formed. */
  lemma WhereWellFormed(t: Table, cs: seq<Cond>)
    requires t.WellFormed() && ReadableAll(cs, t.rows)
    ensures Table(t.columns, Where(t.rows, cs)).WellFormed()
  {
    var w := Where(t.rows, cs);
    forall i | 0 <= i < |w| ensures w[i].Keys == t.ColumnSet() {
      assert w[i] in t.rows;
    }
  }

  /** `df[col] = v` for a column that is not there yet: the column is appended and every row gets v. */
  function AddConstantColumn(t: Table, col: string, v: string): (r: Table)
    requires t.WellFormed() && col !in t.columns
    ensures r.WellFormed()
    ensures r.columns == t.columns + [col] && |r.rows| == |t.rows|
    ensures forall i :: 0 <= i < |t.rows| ==> r.rows[i] == t.rows[i][col := v]
  {
    var r := Table(t.columns + [col], seq(|t.rows|, i requires 0 <= i < |t.rows| => t.rows[i][col := v]));
    assert r.ColumnSet() == t.ColumnSet() + {col};
    r
  }
}
