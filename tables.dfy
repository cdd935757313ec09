/**
 * The pandas DataFrames the scripts read from TSV files, as values: an ordered list of
 * column names and a sequence of rows, each row a map from column name to cell. A cell
 * is None where pandas holds NaN (an empty field of the TSV).
 */
module Tables {
  import opened Wrappers

  type Cell = Option<string>
  type Row = map<string, Cell>

  datatype Table = Table(columns: seq<string>, rows: seq<Row>)

  predicate Distinct<T(==)>(s: seq<T>) {
    forall i, j :: 0 <= i < j < |s| ==> s[i] != s[j]
  }

  function ColumnSet(cols: seq<string>): set<string> {
    set c | c in cols
  }

  /** Column names are unique and every row has exactly the table's columns. */
  predicate WellFormed(t: Table) {
    Distinct(t.columns) && forall r :: r in t.rows ==> r.Keys == ColumnSet(t.columns)
  }

  /** The cell of column c; a column the row lacks reads as NaN, as after pandas' reindexing. */
  function Get(r: Row, c: string): Cell {
    if c in r then r[c] else None
  }

  /** `list(df[c])` */
  function ColumnValues(rows: seq<Row>, c: string): (vs: seq<Cell>)
    ensures |vs| == |rows|
    ensures forall i :: 0 <= i < |rows| ==> vs[i] == Get(rows[i], c)
  {
    seq(|rows|, i requires 0 <= i < |rows| => Get(rows[i], c))
  }

  // ---------------------------------------------------------------- row selection (df.loc[mask])

  /** The rows that satisfy keep, in their order: `df.loc[mask]`. */
  function Filter(rows: seq<Row>, keep: Row -> bool): (r: seq<Row>)
    ensures |r| <= |rows|
    ensures forall x :: x in r <==> x in rows && keep(x)
  {
    if rows == [] then []
    else (if keep(rows[0]) then [rows[0]] else []) + Filter(rows[1..], keep)
  }

  lemma {:induction false} FilterAppend(a: seq<Row>, b: seq<Row>, keep: Row -> bool)
    ensures Filter(a + b, keep) == Filter(a, keep) + Filter(b, keep)
  {
    if a == [] {
      assert a + b == b;
    } else {
      assert (a + b)[1..] == a[1..] + b;
      FilterAppend(a[1..], b, keep);
    }
  }

  /** Two kept rows stay in their order in the selection. */
  lemma FilterKeepsOrder(rows: seq<Row>, keep: Row -> bool, i: nat, j: nat)
    requires i < j < |rows| && keep(rows[i]) && keep(rows[j])
    ensures exists a, b :: 0 <= a < b < |Filter(rows, keep)| && Filter(rows, keep)[a] == rows[i] && Filter(rows, keep)[b] == rows[j]
  {
    var pre, post := rows[..j], rows[j..];
    assert rows == pre + post;
    FilterAppend(pre, post, keep);
    assert post[0] == rows[j];
    var front := Filter(pre, keep);
    assert rows[i] in pre;
    var a :| 0 <= a < |front| && front[a] == rows[i];
    assert Filter(rows, keep)[a] == rows[i];
    assert Filter(rows, keep)[|front|] == rows[j];
  }

  /** Filtering in two passes is filtering once: `df.loc[m1].loc[m2]`. */
  lemma {:induction false} FilterFilter(rows: seq<Row>, p: Row -> bool, q: Row -> bool)
    ensures Filter(Filter(rows, p), q) == Filter(rows, x => p(x) && q(x))
  {
    if rows != [] {
      FilterFilter(rows[1..], p, q);
      var head := if p(rows[0]) then [rows[0]] else [];
      FilterAppend(head, Filter(rows[1..], p), q);
    }
  }

  // ---------------------------------------------------------------- column assignment (df[c] = ...)

  /** `df[c] = v` for a constant v: an existing column keeps its place, a new one goes last. */
  function SetColumn(t: Table, c: string, v: Cell): (r: Table)
    ensures WellFormed(t) ==> WellFormed(r)
    ensures ColumnSet(r.columns) == ColumnSet(t.columns) + {c}
    ensures |r.rows| == |t.rows|
    ensures forall i :: 0 <= i < |t.rows| ==> r.rows[i] == t.rows[i][c := v]
  {
    var cols := if c in t.columns then t.columns else t.columns + [c];
    assert ColumnSet(cols) == ColumnSet(t.columns) + {c};
    Table(cols, seq(|t.rows|, i requires 0 <= i < |t.rows| => t.rows[i][c := v]))
  }

  // ---------------------------------------------------------------- pd.concat(..., ignore_index=True)

  /** The union of two column lists in order of first appearance. */
  function UnionColumns(a: seq<string>, b: seq<string>): (r: seq<string>)
    ensures ColumnSet(r) == ColumnSet(a) + ColumnSet(b)
    ensures |a| <= |r| && r[..|a|] == a
    ensures Distinct(a) ==> Distinct(r)
    decreases |b|
  {
    if b == [] then a
    else if b[0] in a then UnionColumns(a, b[1..])
    else
      var r := UnionColumns(a + [b[0]], b[1..]);
      assert r[..|a|] == (r[..|a| + 1])[..|a|];
      r
  }

  /** A row re-indexed to the given columns; the columns it lacks become NaN. */
  function Reindex(r: Row, cols: seq<string>): (r': Row)
    ensures r'.Keys == ColumnSet(cols)
    ensures forall c :: c in cols ==> r'[c] == Get(r, c)
  {
    map c | c in ColumnSet(cols) :: Get(r, c)
  }

  function ReindexAll(rows: seq<Row>, cols: seq<string>): (rs: seq<Row>)
    ensures |rs| == |rows|
    ensures forall i :: 0 <= i < |rows| ==> rs[i] == Reindex(rows[i], cols)
  {
    seq(|rows|, i requires 0 <= i < |rows| => Reindex(rows[i], cols))
  }

  /** `pd.concat([a, b], ignore_index=True)`: the rows of a, then those of b, over the union of their columns. */
  function Concat(a: Table, b: Table): (r: Table)
    ensures Distinct(a.columns) ==> WellFormed(r)
    ensures ColumnSet(r.columns) == ColumnSet(a.columns) + ColumnSet(b.columns)
    ensures |r.rows| == |a.rows| + |b.rows|
    ensures forall i :: 0 <= i < |a.rows| ==> r.rows[i] == Reindex(a.rows[i], r.columns)
    ensures forall i :: 0 <= i < |b.rows| ==> r.rows[|a.rows| + i] == Reindex(b.rows[i], r.columns)
  {
    var cols := UnionColumns(a.columns, b.columns);
    Table(cols, ReindexAll(a.rows, cols) + ReindexAll(b.rows, cols))
  }

  /** A row re-indexed to columns it already has exactly is unchanged. */
  lemma ReindexSame(r: Row, cols: seq<string>)
    requires r.Keys == ColumnSet(cols)
    ensures Reindex(r, cols) == r
  {
  }

  /** A union with columns already present adds nothing. */
  lemma {:induction false} UnionColumnsSubsumed(a: seq<string>, b: seq<string>)
    requires forall c :: c in b ==> c in a
    ensures UnionColumns(a, b) == a
    decreases |b|
  {
    if b != [] {
      UnionColumnsSubsumed(a, b[1..]);
    }
  }

  /** A test every row passes keeps them all. */
  lemma {:induction false} FilterAll(rows: seq<Row>, keep: Row -> bool)
    requires forall x :: x in rows ==> keep(x)
    ensures Filter(rows, keep) == rows
  {
    if rows != [] {
      assert forall x :: x in rows[1..] ==> x in rows;
      FilterAll(rows[1..], keep);
    }
  }

  /** Appending no rows, in columns the table already has, changes nothing. */
  lemma ConcatNothing(t: Table, cols: seq<string>)
    requires WellFormed(t) && forall c :: c in cols ==> c in t.columns
    ensures Concat(t, Table(cols, [])) == t
  {
    UnionColumnsSubsumed(t.columns, cols);
    var r := Concat(t, Table(cols, []));
    forall i | 0 <= i < |t.rows| ensures r.rows[i] == t.rows[i] {
      assert t.rows[i] in t.rows;
      ReindexSame(t.rows[i], t.columns);
    }
  }

  /** Concatenating two tables with the same distinct columns keeps the columns and appends the rows. */
  lemma ConcatSame(cols: seq<string>, a: seq<Row>, b: seq<Row>)
    requires Distinct(cols)
    requires forall r :: r in a ==> r.Keys == ColumnSet(cols)
    requires forall r :: r in b ==> r.Keys == ColumnSet(cols)
    ensures Concat(Table(cols, a), Table(cols, b)) == Table(cols, a + b)
  {
    UnionColumnsSubsumed(cols, cols);
    var r := Concat(Table(cols, a), Table(cols, b));
    forall i | 0 <= i < |a + b| ensures r.rows[i] == (a + b)[i] {
      if i < |a| {
        assert a[i] in a;
        ReindexSame(a[i], cols);
      } else {
        assert b[i - |a|] in b;
        ReindexSame(b[i - |a|], cols);
      }
    }
  }

  lemma ReindexAllAppend(a: seq<Row>, b: seq<Row>, cols: seq<string>)
    ensures ReindexAll(a + b, cols) == ReindexAll(a, cols) + ReindexAll(b, cols)
  {
  }

  // ---------------------------------------------------------------- df.drop(columns=...)

  /** The columns not in cs, in their order. */
  function Without(cols: seq<string>, cs: set<string>): (r: seq<string>)
    ensures forall c :: c in r <==> c in cols && c !in cs
    ensures Distinct(cols) ==> Distinct(r)
    ensures |r| <= |cols|
    ensures (exists c :: c in cols && c in cs) ==> |r| < |cols|
  {
    if cols == [] then []
    else (if cols[0] in cs then [] else [cols[0]]) + Without(cols[1..], cs)
  }

  /** `df.drop(columns=cs)` once every column of cs is known to exist. */
  function DropColumns(t: Table, cs: set<string>): (r: Table)
    ensures r.columns == Without(t.columns, cs)
    ensures |r.rows| == |t.rows|
    ensures forall i :: 0 <= i < |t.rows| ==> r.rows[i] == t.rows[i] - cs
    ensures WellFormed(t) ==> WellFormed(r)
  {
    var cols := Without(t.columns, cs);
    assert ColumnSet(cols) == ColumnSet(t.columns) - cs;
    Table(cols, seq(|t.rows|, i requires 0 <= i < |t.rows| => t.rows[i] - cs))
  }

  /** `df[c] = values` for one value per row: an existing column keeps its place, a new one goes last. */
  function SetColumnValues(t: Table, c: string, vs: seq<Cell>): (r: Table)
    requires |vs| == |t.rows|
    ensures WellFormed(t) ==> WellFormed(r)
    ensures r.columns == if c in t.columns then t.columns else t.columns + [c]
    ensures |r.rows| == |t.rows|
    ensures forall i :: 0 <= i < |t.rows| ==> r.rows[i] == t.rows[i][c := vs[i]]
  {
    var cols := if c in t.columns then t.columns else t.columns + [c];
    assert ColumnSet(cols) == ColumnSet(t.columns) + {c};
    Table(cols, seq(|t.rows|, i requires 0 <= i < |t.rows| => t.rows[i][c := vs[i]]))
  }

  /** An empty DataFrame with no columns, `pd.DataFrame()`. */
  const Empty: Table := Table([], [])
}
