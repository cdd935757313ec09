/**
 * The whole-table transforms of the schema-migration helpers. Each helper reads one or two
 * node TSVs (`temp_{project_id}_{node}.tsv`), transforms them and writes the result back;
 * here a table that was read is an input, a file that could not be read is None, and the
 * transformed table is the result. A Python exception that escapes the helper is an Err.
 */
module Migration {
  import opened Wrappers
  import opened Tables

  datatype MigrationError =
    | NothingToConcat               // `pd.concat([])`: ValueError
    | MissingColumn(name: string)   // `df[name]` or `df[[..., name, ...]]` on a missing column: KeyError
    | NoSubmitterIdAttribute        // `df_to.submitter_id` on a table without that column: AttributeError

  /** `"{x}s.submitter_id"`: the column holding a record's link to its parent x. */
  function LinkColumn(x: string): string {
    x + "s.submitter_id"
  }

  /** A link column is never `submitter_id` or `type`. */
  lemma LinkColumnReserved(x: string)
    ensures LinkColumn(x) != "submitter_id" && LinkColumn(x) != "type"
  {
    assert |LinkColumn(x)| > |"submitter_id"|;
  }

  /** The first of names that is not among cols, as the first KeyError of a loop over names. */
  function FirstAbsent(names: seq<string>, cols: seq<string>): (r: Option<string>)
    ensures r.None? <==> forall n :: n in names ==> n in cols
    ensures r.Some? ==> exists k :: 0 <= k < |names| && names[k] == r.value && r.value !in cols &&
                                    forall j :: 0 <= j < k ==> names[j] in cols
  {
    if names == [] then None
    else if names[0] !in cols then Some(names[0])
    else
      var r := FirstAbsent(names[1..], cols);
      assert forall n :: n in names[1..] ==> n in names;
      if r.Some? then
        var k :| 0 <= k < |names[1..]| && names[1..][k] == r.value && r.value !in cols &&
                 forall j :: 0 <= j < k ==> names[1..][j] in cols;
        assert names[k + 1] == r.value;
        r
      else r
  }

  // ---------------------------------------------------------------- merge_nodes

  /** The tables that could be read, in the order of in_nodes. */
  function Readable(files: seq<Option<Table>>): (ts: seq<Table>)
    ensures |ts| <= |files|
    ensures forall t :: t in ts <==> Some(t) in files
    ensures ts == [] <==> forall x :: x in files ==> x.None?
  {
    if files == [] then []
    else
      var rest := Readable(files[1..]);
      assert forall x :: x in files <==> x == files[0] || x in files[1..];
      (if files[0].Some? then [files[0].value] else []) + rest
  }

  /** The columns of all of ts. */
  function ColumnsOf(ts: seq<Table>): set<string> {
    if ts == [] then {} else ColumnSet(ts[0].columns) + ColumnsOf(ts[1..])
  }

  /** The columns of a concatenation of ts, after acc: each in order of first appearance. */
  function AllColumns(acc: seq<string>, ts: seq<Table>): (cols: seq<string>)
    ensures ColumnSet(cols) == ColumnSet(acc) + ColumnsOf(ts)
    ensures Distinct(acc) ==> Distinct(cols)
    decreases |ts|
  {
    if ts == [] then acc else AllColumns(UnionColumns(acc, ts[0].columns), ts[1..])
  }

  /** The rows of all of ts, table after table. */
  function AllRows(ts: seq<Table>): seq<Row> {
    if ts == [] then [] else ts[0].rows + AllRows(ts[1..])
  }

  /** `pd.concat(ts, ignore_index=True)` for a list of tables. */
  function ConcatAll(ts: seq<Table>): (r: Table)
    ensures WellFormed(r)
    ensures ColumnSet(r.columns) == ColumnsOf(ts)
    ensures |r.rows| == |AllRows(ts)|
    ensures forall i :: 0 <= i < |r.rows| ==> r.rows[i] == Reindex(AllRows(ts)[i], r.columns)
  {
    var cols := AllColumns([], ts);
    Table(cols, ReindexAll(AllRows(ts), cols))
  }

  /**
   * `merge_nodes(project_id, in_nodes, out_node)`: files[k] is the table of in_nodes[k], or None
   * where that file could not be read and was skipped. The readable tables are concatenated in
   * order and `type` is set to out_node; with no readable table pandas has nothing to concatenate.
   */
  function MergeNodes(files: seq<Option<Table>>, outNode: string): (r: Result<Table, MigrationError>)
    ensures r.Err? <==> forall x :: x in files ==> x.None?
    ensures r.Ok? ==> WellFormed(r.value) && ColumnSet(r.value.columns) == ColumnsOf(Readable(files)) + {"type"}
    ensures r.Ok? ==> |r.value.rows| == |AllRows(Readable(files))|
    ensures r.Ok? ==> forall i :: 0 <= i < |r.value.rows| ==>
                        r.value.rows[i]["type"] == Some(outNode) &&
                        forall c :: c in r.value.columns && c != "type" ==> r.value.rows[i][c] == Get(AllRows(Readable(files))[i], c)
  {
    var ts := Readable(files);
    if ts == [] then Err(NothingToConcat) else Ok(SetColumn(ConcatAll(ts), "type", Some(outNode)))
  }

  /** A union that finds nothing it already has appends b as it is. */
  lemma {:induction false} UnionColumnsAppends(a: seq<string>, b: seq<string>)
    requires Distinct(a + b)
    ensures UnionColumns(a, b) == a + b
    decreases |b|
  {
    if b != [] {
      assert b[0] == (a + b)[|a|];
      assert b[0] !in a by {
        forall j | 0 <= j < |a| ensures a[j] != b[0] {
          assert a[j] == (a + b)[j];
        }
      }
      assert (a + [b[0]]) + b[1..] == a + b;
      UnionColumnsAppends(a + [b[0]], b[1..]);
    }
  }

  lemma ConcatAllPair(a: Table, b: Table)
    requires Distinct(a.columns)
    ensures ConcatAll([a, b]) == Concat(a, b)
  {
    assert [] + a.columns == a.columns;
    UnionColumnsAppends([], a.columns);
    var cols := UnionColumns(a.columns, b.columns);
    assert [a, b][1..] == [b];
    assert [b][1..] == [];
    assert AllColumns([], [a, b]) == AllColumns(a.columns, [b]);
    assert AllColumns(a.columns, [b]) == AllColumns(cols, []);
    assert AllRows([b]) == b.rows + [];
    assert AllRows([a, b]) == a.rows + AllRows([b]);
    assert b.rows + [] == b.rows;
    ReindexAllAppend(a.rows, b.rows, cols);
  }

  /** Two readable tables merge as their pairwise concatenation with `type` set. */
  lemma MergeNodesPair(a: Table, b: Table, outNode: string)
    requires Distinct(a.columns)
    ensures MergeNodes([Some(a), Some(b)], outNode) == Ok(SetColumn(Concat(a, b), "type", Some(outNode)))
  {
    var files := [Some(a), Some(b)];
    assert files[1..] == [Some(b)];
    assert files[1..][1..] == [];
    assert Readable(files) == [a, b];
    ConcatAllPair(a, b);
  }

  // ---------------------------------------------------------------- add_missing_links

  /** The rows whose column c is not NaN, and those whose column c is NaN. */
  function Present(rows: seq<Row>, c: string): seq<Row> {
    Filter(rows, row => Get(row, c).Some?)
  }

  function Absent(rows: seq<Row>, c: string): seq<Row> {
    Filter(rows, row => !(Get(row, c).Some?))
  }

  /** Every row is either linked or not. */
  lemma {:induction false} PresentAbsent(rows: seq<Row>, c: string)
    ensures |Present(rows, c)| + |Absent(rows, c)| == |rows|
  {
    if rows != [] {
      PresentAbsent(rows[1..], c);
    }
  }

  /** `df_no_link['submitter_id'] + "_{link}"`: a NaN `submitter_id` stays NaN. */
  function FilledLink(row: Row, link: string): Cell {
    match Get(row, "submitter_id")
    case None => None
    case Some(s) => Some(s + "_" + link)
  }

  /** The rows that had no link, each given the made-up link of FilledLink. */
  function FilledRows(rows: seq<Row>, link: string): (r: seq<Row>)
    ensures |r| == |rows|
    ensures forall i :: 0 <= i < |rows| ==> r[i] == rows[i][LinkColumn(link) := FilledLink(rows[i], link)]
  {
    seq(|rows|, i requires 0 <= i < |rows| => rows[i][LinkColumn(link) := FilledLink(rows[i], link)])
  }

  /**
   * `add_missing_links(project_id, node, link)`: the rows without a `{link}s.submitter_id` get
   * `submitter_id + "_" + link` there and are moved after the rows that have one; a table whose
   * every row is linked is returned as it is.
   */
  function AddMissingLinks(t: Table, link: string): (r: Result<Table, MigrationError>)
    ensures r.Err? <==> LinkColumn(link) !in t.columns || (Absent(t.rows, LinkColumn(link)) != [] && "submitter_id" !in t.columns)
    ensures r.Ok? && Absent(t.rows, LinkColumn(link)) == [] ==> r.value == t
  {
    var ln := LinkColumn(link);
    if ln !in t.columns then Err(MissingColumn(ln))
    else
      var noLink := Absent(t.rows, ln);
      if noLink == [] then Ok(t)
      else if "submitter_id" !in t.columns then Err(MissingColumn("submitter_id"))
      else Ok(Concat(Table(t.columns, Present(t.rows, ln)), Table(t.columns, FilledRows(noLink, link))))
  }

  /**
   * On a table read from a TSV, the result keeps the columns and the number of rows; the linked
   * rows come first, in their order, then the unlinked ones with the made-up link, in theirs; and
   * every row with a `submitter_id` now has a link.
   */
  lemma AddMissingLinksShape(t: Table, link: string)
    requires WellFormed(t) && AddMissingLinks(t, link).Ok?
    ensures AddMissingLinks(t, link).value.columns == t.columns
    ensures |AddMissingLinks(t, link).value.rows| == |t.rows|
    ensures AddMissingLinks(t, link).value.rows == Present(t.rows, LinkColumn(link)) + FilledRows(Absent(t.rows, LinkColumn(link)), link)
    ensures forall row :: row in AddMissingLinks(t, link).value.rows && Get(row, "submitter_id").Some? ==> Get(row, LinkColumn(link)).Some?
  {
    var ln := LinkColumn(link);
    PresentAbsent(t.rows, ln);
    var noLink := Absent(t.rows, ln);
    var linked, filled := Present(t.rows, ln), FilledRows(noLink, link);
    FilledLinked(t, link);
    if noLink == [] {
      FilterAll(t.rows, row => Get(row, ln).Some?);
      assert filled == [];
      assert linked + filled == t.rows;
    } else {
      FilledKeys(t, link);
      ConcatSame(t.columns, linked, filled);
    }
  }

  lemma FilledKeys(t: Table, link: string)
    requires WellFormed(t) && LinkColumn(link) in t.columns
    ensures forall row :: row in FilledRows(Absent(t.rows, LinkColumn(link)), link) ==> row.Keys == ColumnSet(t.columns)
  {
    var noLink := Absent(t.rows, LinkColumn(link));
    forall k | 0 <= k < |noLink| ensures FilledRows(noLink, link)[k].Keys == ColumnSet(t.columns) {
      assert noLink[k] in t.rows;
    }
  }

  lemma FilledLinked(t: Table, link: string)
    ensures forall row :: row in Present(t.rows, LinkColumn(link)) + FilledRows(Absent(t.rows, LinkColumn(link)), link) && Get(row, "submitter_id").Some? ==> Get(row, LinkColumn(link)).Some?
  {
    var ln := LinkColumn(link);
    var noLink := Absent(t.rows, ln);
    var filled := FilledRows(noLink, link);
    forall k | 0 <= k < |filled| && Get(filled[k], "submitter_id").Some? ensures Get(filled[k], ln).Some? {
      assert Get(filled[k], "submitter_id") == Get(noLink[k], "submitter_id") by {
        assert "submitter_id" != ln;
      }
    }
  }

  /** Where every row has a `submitter_id`, a second pass finds nothing left to link. */
  lemma AddMissingLinksIdempotent(t: Table, link: string)
    requires WellFormed(t) && AddMissingLinks(t, link).Ok?
    requires forall row :: row in t.rows ==> Get(row, "submitter_id").Some?
    ensures AddMissingLinks(AddMissingLinks(t, link).value, link) == AddMissingLinks(t, link)
  {
    var r := AddMissingLinks(t, link).value;
    AllLinked(t, link);
    NoneAbsent(r.rows, LinkColumn(link));
  }

  lemma AllLinked(t: Table, link: string)
    requires WellFormed(t) && AddMissingLinks(t, link).Ok?
    requires forall row :: row in Absent(t.rows, LinkColumn(link)) ==> Get(row, "submitter_id").Some?
    ensures LinkColumn(link) in AddMissingLinks(t, link).value.columns
    ensures forall row :: row in AddMissingLinks(t, link).value.rows ==> Get(row, LinkColumn(link)).Some?
  {
    var ln := LinkColumn(link);
    AddMissingLinksShape(t, link);
    var noLink := Absent(t.rows, ln);
    var filled := FilledRows(noLink, link);
    FilledHaveLinks(noLink, link);
    var r := AddMissingLinks(t, link).value;
    assert r.rows == Present(t.rows, ln) + filled;
    forall row | row in r.rows ensures Get(row, ln).Some? {
      if row !in Present(t.rows, ln) {
        assert row in filled;
      }
    }
  }

  /** Rows that had a `submitter_id` all get a link. */
  lemma FilledHaveLinks(noLink: seq<Row>, link: string)
    requires forall row :: row in noLink ==> Get(row, "submitter_id").Some?
    ensures forall row :: row in FilledRows(noLink, link) ==> Get(row, LinkColumn(link)).Some?
  {
    var filled := FilledRows(noLink, link);
    forall k | 0 <= k < |filled| ensures Get(filled[k], LinkColumn(link)).Some? {
      assert noLink[k] in noLink;
    }
  }

  lemma {:induction false} NoneAbsent(rows: seq<Row>, c: string)
    requires forall row :: row in rows ==> Get(row, c).Some?
    ensures Absent(rows, c) == []
  {
    if rows != [] {
      NoneAbsent(rows[1..], c);
    }
  }

  // ---------------------------------------------------------------- change_property_names

  /** The name column c has after `rename(columns=m)`. */
  function Renamed(m: map<string, string>, c: string): string {
    if c in m then m[c] else c
  }

  function RenameColumns(cols: seq<string>, m: map<string, string>): (r: seq<string>)
    ensures |r| == |cols|
    ensures forall i :: 0 <= i < |cols| ==> r[i] == Renamed(m, cols[i])
  {
    seq(|cols|, i requires 0 <= i < |cols| => Renamed(m, cols[i]))
  }

  /** The position of x in s. */
  function IndexOf(s: seq<string>, x: string): (k: nat)
    requires x in s
    ensures k < |s| && s[k] == x
  {
    if s[0] == x then 0 else 1 + IndexOf(s[1..], x)
  }

  /** A row under the renamed columns: each new name holds the cell of the old name it replaced. */
  function RenameRow(row: Row, cols: seq<string>, newCols: seq<string>): (r: Row)
    requires |newCols| == |cols| && Distinct(newCols)
    ensures r.Keys == ColumnSet(newCols)
    ensures forall j :: 0 <= j < |cols| ==> r[newCols[j]] == Get(row, cols[j])
  {
    map c | c in ColumnSet(newCols) :: Get(row, cols[IndexOf(newCols, c)])
  }

  /**
   * `change_property_names(project_id, node, properties)`: `df.rename(columns=properties)`. The
   * renamed columns must stay distinct, as a DataFrame with two equal column names cannot be
   * represented here.
   */
  function ChangePropertyNames(t: Table, m: map<string, string>): (r: Table)
    requires Distinct(RenameColumns(t.columns, m))
    ensures |r.columns| == |t.columns| && |r.rows| == |t.rows|
    ensures forall j :: 0 <= j < |t.columns| ==> (t.columns[j] !in m ==> r.columns[j] == t.columns[j]) && (t.columns[j] in m ==> r.columns[j] == m[t.columns[j]])
    ensures forall i, j :: 0 <= i < |t.rows| && 0 <= j < |t.columns| ==> Get(r.rows[i], r.columns[j]) == Get(t.rows[i], t.columns[j])
    ensures WellFormed(r)
  {
    var newCols := RenameColumns(t.columns, m);
    Table(newCols, seq(|t.rows|, i requires 0 <= i < |t.rows| => RenameRow(t.rows[i], t.columns, newCols)))
  }

  /** Renaming back with a map that undoes the renaming restores every column name and every cell. */
  lemma RenameRoundTrip(t: Table, m: map<string, string>, back: map<string, string>)
    requires Distinct(RenameColumns(t.columns, m))
    requires forall c :: c in t.columns ==> Renamed(back, Renamed(m, c)) == c
    ensures Distinct(RenameColumns(RenameColumns(t.columns, m), back))
    ensures ChangePropertyNames(ChangePropertyNames(t, m), back).columns == t.columns
    ensures forall i, j :: 0 <= i < |t.rows| && 0 <= j < |t.columns| ==>
              Get(ChangePropertyNames(ChangePropertyNames(t, m), back).rows[i], t.columns[j]) == Get(t.rows[i], t.columns[j])
  {
    var r := ChangePropertyNames(t, m);
    assert RenameColumns(r.columns, back) == t.columns;
  }

  // ---------------------------------------------------------------- drop_properties

  /**
   * `drop_properties(project_id, node, properties)`: `df.drop(columns=properties)`; when one of
   * them is not a column the KeyError is caught and the table is returned unchanged.
   */
  function DropProperties(t: Table, properties: seq<string>): (r: Table)
    ensures (exists p :: p in properties && p !in t.columns) ==> r == t
    ensures (forall p :: p in properties ==> p in t.columns) ==>
              && (forall c :: c in r.columns <==> c in t.columns && c !in properties)
              && |r.rows| == |t.rows|
              && forall i :: 0 <= i < |t.rows| ==> r.rows[i] == t.rows[i] - ColumnSet(properties)
    ensures WellFormed(t) ==> WellFormed(r)
  {
    if forall p :: p in properties ==> p in t.columns then DropColumns(t, ColumnSet(properties)) else t
  }

  // ---------------------------------------------------------------- create_missing_links

  /** `df[c] = ...` on the column list: a new column goes last. */
  function AddColumn(cols: seq<string>, c: string): (r: seq<string>)
    ensures ColumnSet(r) == ColumnSet(cols) + {c}
    ensures Distinct(cols) ==> Distinct(r)
  {
    if c in cols then cols else cols + [c]
  }

  /** The columns the dict's items add, one after the other. */
  function AddItems(cols: seq<string>, items: seq<(string, string)>): (r: seq<string>)
    ensures ColumnSet(r) == ColumnSet(cols) + ItemsOf(items).Keys
    ensures Distinct(cols) ==> Distinct(r)
    decreases |items|
  {
    if items == [] then cols
    else
      var init := items[..|items| - 1];
      AddColumn(AddItems(cols, init), items[|items| - 1].0)
  }

  /** The cells `for prop in properties: df[prop] = properties[prop]` sets: the last value given for a name stands. */
  function ItemsOf(items: seq<(string, string)>): (m: map<string, Cell>)
    ensures forall c :: c in m ==> m[c].Some?
    ensures forall k :: 0 <= k < |items| ==> items[k].0 in m
  {
    if items == [] then map[]
    else
      var init := items[..|items| - 1];
      assert forall k :: 0 <= k < |items| - 1 ==> items[k] == init[k];
      ItemsOf(init)[items[|items| - 1].0 := Some(items[|items| - 1].1)]
  }

  /** `df.loc[df[link_name].isin(missing)]` */
  function LinkedTo(rows: seq<Row>, ln: string, missing: set<Cell>): seq<Row> {
    Filter(rows, row => Get(row, ln) in missing)
  }

  /**
   * The new link record made from a node row: the row's link value becomes its `submitter_id`,
   * its link to the old parent is kept, its type is link, and the given properties follow
   * (a property named `submitter_id` or `type` overrides those).
   */
  function NewLink(row: Row, link: string, pl: string, items: seq<(string, string)>): Row {
    map["submitter_id" := Get(row, LinkColumn(link)), pl := Get(row, pl), "type" := Some(link)] + ItemsOf(items)
  }

  /**
   * `df.loc[...][[link_name, parent_link]]` renamed to `submitter_id`, with `type` and the
   * properties assigned: one new record per row of sel, in order.
   */
  function NewLinks(sel: seq<Row>, link: string, pl: string, items: seq<(string, string)>): (r: Table)
    requires pl != "submitter_id" && pl != "type"
    ensures WellFormed(r) && |r.rows| == |sel|
    ensures "submitter_id" in r.columns && "type" in r.columns && pl in r.columns
    ensures forall c :: c in ItemsOf(items) ==> c in r.columns
    ensures forall k :: 0 <= k < |sel| ==> r.rows[k] == NewLink(sel[k], link, pl, items)
  {
    var base := ["submitter_id", pl];
    assert ColumnSet(base) == {"submitter_id", pl} && Distinct(base);
    var typed := AddColumn(base, "type");
    var cols := AddItems(typed, items);
    assert "submitter_id" in ColumnSet(cols) && "type" in ColumnSet(cols) && pl in ColumnSet(cols);
    var rows := seq(|sel|, k requires 0 <= k < |sel| => NewLink(sel[k], link, pl, items));
    NewLinkKeys(sel, link, pl, items, cols, rows);
    Table(cols, rows)
  }

  lemma NewLinkKeys(sel: seq<Row>, link: string, pl: string, items: seq<(string, string)>, cols: seq<string>, rows: seq<Row>)
    requires ColumnSet(cols) == ColumnSet(["submitter_id", pl]) + {"type"} + ItemsOf(items).Keys
    requires |rows| == |sel| && forall k :: 0 <= k < |sel| ==> rows[k] == NewLink(sel[k], link, pl, items)
    ensures forall row :: row in rows ==> row.Keys == ColumnSet(cols)
  {
    assert ColumnSet(["submitter_id", pl]) == {"submitter_id", pl};
    forall row | row in rows
      ensures row.Keys == ColumnSet(cols)
    {
      var k :| 0 <= k < |rows| && rows[k] == row;
      NewLinkRowKeys(sel[k], link, pl, items);
    }
  }

  lemma NewLinkRowKeys(row: Row, link: string, pl: string, items: seq<(string, string)>)
    ensures NewLink(row, link, pl, items).Keys == {"submitter_id", pl, "type"} + ItemsOf(items).Keys
  {
  }

  /** The link values of the node that are not yet link records: all of them when there is no link file. */
  function MissingOf(t: Table, link: string, linkFile: Option<Table>): set<Cell> {
    var linkNames := ColumnValues(t.rows, LinkColumn(link));
    match linkFile
    case None => set v | v in linkNames
    case Some(ldf) => set v | v in linkNames && v !in ColumnValues(ldf.rows, "submitter_id")
  }

  /** Without a link file every link value of the node counts as missing. */
  lemma MissingOfNone(t: Table, link: string)
    ensures forall k :: 0 <= k < |t.rows| ==> Get(t.rows[k], LinkColumn(link)) in MissingOf(t, link, None)
  {
    var linkNames := ColumnValues(t.rows, LinkColumn(link));
    forall k | 0 <= k < |t.rows| ensures Get(t.rows[k], LinkColumn(link)) in MissingOf(t, link, None) {
      assert linkNames[k] in linkNames;
    }
  }

  /** `concat([link_df, new_links])`, once the parent link column is known to exist. */
  function AppendLinks(t: Table, ldf: Table, link: string, oldParent: string, items: seq<(string, string)>,
                       sel: seq<Row>): Result<Table, MigrationError>
  {
    var pl := LinkColumn(oldParent);
    if pl !in t.columns then Err(MissingColumn(pl)) else Ok(Concat(ldf, NewLinks(sel, link, pl, items)))
  }

  /**
   * `create_missing_links(project_id, node, link, old_parent, properties)`: linkFile is the link
   * node's table, None when its file does not exist. When every link value of the node is
   * already a link record, the link records the node refers to are returned; otherwise one new
   * record per node row whose link value is missing is appended to the link records. As the
   * source does, two node rows with the same missing link value give two records.
   */
  function CreateMissingLinks(t: Table, link: string, oldParent: string, items: seq<(string, string)>,
                              linkFile: Option<Table>): (r: Result<Table, MigrationError>)
    ensures LinkColumn(link) !in t.columns ==> r == Err(MissingColumn(LinkColumn(link)))
    ensures linkFile.Some? && LinkColumn(link) in t.columns && "submitter_id" in linkFile.value.columns && MissingOf(t, link, linkFile) == {} ==>
              r.Ok? && r.value.columns == linkFile.value.columns &&
              forall row :: row in r.value.rows <==> row in linkFile.value.rows && Get(row, "submitter_id") in ColumnValues(t.rows, LinkColumn(link))
  {
    var ln := LinkColumn(link);
    if ln !in t.columns then Err(MissingColumn(ln))
    else if linkFile.Some? && "submitter_id" !in linkFile.value.columns then Err(MissingColumn("submitter_id"))
    else
      var missing := MissingOf(t, link, linkFile);
      if linkFile.Some? && missing == {} then
        var linkNames := ColumnValues(t.rows, ln);
        Ok(Table(linkFile.value.columns, Filter(linkFile.value.rows, row => Get(row, "submitter_id") in linkNames)))
      else AppendLinks(t, linkFile.GetOr(Empty), link, oldParent, items, LinkedTo(t.rows, ln, missing))
  }

  /**
   * Where new records are made, the existing link records come first and then one record per
   * node row whose link value is missing, in node order, each with that value as its
   * `submitter_id`, type link, the row's link to the old parent and the given properties.
   */
  lemma CreateMissingLinksAppends(t: Table, link: string, oldParent: string, items: seq<(string, string)>,
                                  linkFile: Option<Table>)
    requires "submitter_id" !in ItemsOf(items) && "type" !in ItemsOf(items)
    requires CreateMissingLinks(t, link, oldParent, items, linkFile).Ok?
    requires linkFile.None? || MissingOf(t, link, linkFile) != {}
    ensures var sel := LinkedTo(t.rows, LinkColumn(link), MissingOf(t, link, linkFile));
      && (forall row :: row in sel <==> row in t.rows && Get(row, LinkColumn(link)) in MissingOf(t, link, linkFile))
      && Appended(CreateMissingLinks(t, link, oldParent, items, linkFile).value, linkFile.GetOr(Empty), sel, link, LinkColumn(oldParent), items)
  {
    var ldf := linkFile.GetOr(Empty);
    var sel := LinkedTo(t.rows, LinkColumn(link), MissingOf(t, link, linkFile));
    CreateMissingLinksValue(t, link, oldParent, items, linkFile);
    LinkColumnReserved(oldParent);
    LinksAppended(ldf, sel, link, LinkColumn(oldParent), items);
  }

  lemma CreateMissingLinksValue(t: Table, link: string, oldParent: string, items: seq<(string, string)>,
                                linkFile: Option<Table>)
    requires CreateMissingLinks(t, link, oldParent, items, linkFile).Ok?
    requires linkFile.None? || MissingOf(t, link, linkFile) != {}
    ensures CreateMissingLinks(t, link, oldParent, items, linkFile).value ==
            Concat(linkFile.GetOr(Empty), NewLinks(LinkedTo(t.rows, LinkColumn(link), MissingOf(t, link, linkFile)), link, LinkColumn(oldParent), items))
  {
  }

  /**
   * x is the record made from node row row: its `submitter_id` is the row's link value, its
   * type is link, its link to the old parent pl is the row's (unless a property of that name
   * is given), and it carries the given properties.
   */
  predicate LinkRecord(x: Row, row: Row, link: string, pl: string, items: seq<(string, string)>) {
    && Get(x, "submitter_id") == Get(row, LinkColumn(link))
    && Get(x, "type") == Some(link)
    && Get(x, pl) == (if pl in ItemsOf(items) then ItemsOf(items)[pl] else Get(row, pl))
    && forall c :: c in ItemsOf(items) ==> Get(x, c) == ItemsOf(items)[c]
  }

  /** r is the link records ldf followed by one new record per row of sel, in order, over r's columns. */
  predicate Appended(r: Table, ldf: Table, sel: seq<Row>, link: string, pl: string, items: seq<(string, string)>) {
    && |r.rows| == |ldf.rows| + |sel|
    && (forall k :: 0 <= k < |ldf.rows| ==> r.rows[k] == Reindex(ldf.rows[k], r.columns))
    && (forall k :: 0 <= k < |sel| ==> r.rows[|ldf.rows| + k] == Reindex(NewLink(sel[k], link, pl, items), r.columns))
    && (forall k :: 0 <= k < |sel| ==> LinkRecord(r.rows[|ldf.rows| + k], sel[k], link, pl, items))
  }

  /** The ids alone: the k-th record after ldf's has the k-th selected row's link value as its `submitter_id`. */
  predicate IdsAppended(r: Table, ldf: Table, sel: seq<Row>, link: string) {
    && |r.rows| == |ldf.rows| + |sel|
    && forall k :: 0 <= k < |sel| ==> Get(r.rows[|ldf.rows| + k], "submitter_id") == Get(sel[k], LinkColumn(link))
  }

  lemma AppendedIds(r: Table, ldf: Table, sel: seq<Row>, link: string, pl: string, items: seq<(string, string)>)
    requires Appended(r, ldf, sel, link, pl, items)
    ensures IdsAppended(r, ldf, sel, link)
  {
    forall k | 0 <= k < |sel|
      ensures Get(r.rows[|ldf.rows| + k], "submitter_id") == Get(sel[k], LinkColumn(link))
    {
      assert LinkRecord(r.rows[|ldf.rows| + k], sel[k], link, pl, items);
    }
  }

  lemma LinksAppended(ldf: Table, sel: seq<Row>, link: string, pl: string, items: seq<(string, string)>)
    requires pl != "submitter_id" && pl != "type" && "submitter_id" !in ItemsOf(items) && "type" !in ItemsOf(items)
    ensures Appended(Concat(ldf, NewLinks(sel, link, pl, items)), ldf, sel, link, pl, items)
  {
    var r := Concat(ldf, NewLinks(sel, link, pl, items));
    forall k | 0 <= k < |sel|
      ensures r.rows[|ldf.rows| + k] == Reindex(NewLink(sel[k], link, pl, items), r.columns)
      ensures LinkRecord(r.rows[|ldf.rows| + k], sel[k], link, pl, items)
    {
      LinkAppendedAt(ldf, sel, link, pl, items, k);
    }
  }

  lemma LinkAppendedAt(ldf: Table, sel: seq<Row>, link: string, pl: string, items: seq<(string, string)>, k: nat)
    requires pl != "submitter_id" && pl != "type" && "submitter_id" !in ItemsOf(items) && "type" !in ItemsOf(items)
    requires k < |sel|
    ensures var r := Concat(ldf, NewLinks(sel, link, pl, items));
      && r.rows[|ldf.rows| + k] == Reindex(NewLink(sel[k], link, pl, items), r.columns)
      && LinkRecord(r.rows[|ldf.rows| + k], sel[k], link, pl, items)
  {
    var n := NewLinks(sel, link, pl, items);
    var r := Concat(ldf, n);
    var made := NewLink(sel[k], link, pl, items);
    var x := r.rows[|ldf.rows| + k];
    assert x == Reindex(made, r.columns);
    assert "submitter_id" in ColumnSet(r.columns) && "type" in ColumnSet(r.columns) && pl in ColumnSet(r.columns);
    assert forall c :: c in ItemsOf(items) ==> c in ColumnSet(r.columns);
  }

  lemma CreateMissingLinksNone(t: Table, link: string, oldParent: string, items: seq<(string, string)>)
    requires LinkColumn(link) in t.columns
    ensures CreateMissingLinks(t, link, oldParent, items, None) ==
            AppendLinks(t, Empty, link, oldParent, items, LinkedTo(t.rows, LinkColumn(link), MissingOf(t, link, None)))
  {
  }

  /** Without a link file every node row is selected. */
  lemma SelectsAll(t: Table, link: string)
    ensures LinkedTo(t.rows, LinkColumn(link), MissingOf(t, link, None)) == t.rows
  {
    MissingOfNone(t, link);
    LinkedToAll(t.rows, LinkColumn(link), MissingOf(t, link, None));
  }

  /** Every row whose link value is missing is selected. */
  lemma {:induction false} LinkedToAll(rows: seq<Row>, ln: string, missing: set<Cell>)
    requires forall k :: 0 <= k < |rows| ==> Get(rows[k], ln) in missing
    ensures LinkedTo(rows, ln, missing) == rows
  {
    if rows != [] {
      assert forall k :: 0 <= k < |rows| - 1 ==> rows[1..][k] == rows[k + 1];
      LinkedToAll(rows[1..], ln, missing);
    }
  }

  /** Without a link file the result is the new records alone, one per node row. */
  lemma CreateMissingLinksNoFile(t: Table, link: string, oldParent: string, items: seq<(string, string)>)
    requires LinkColumn(link) in t.columns && LinkColumn(oldParent) in t.columns
    ensures CreateMissingLinks(t, link, oldParent, items, None) == Ok(Concat(Empty, NewLinks(t.rows, link, LinkColumn(oldParent), items)))
  {
    SelectsAll(t, link);
    CreateMissingLinksNone(t, link, oldParent, items);
  }

  /** Without a link file the k-th record is made from the k-th node row. */
  lemma NoFileRecordAt(t: Table, link: string, oldParent: string, items: seq<(string, string)>, k: nat)
    requires "submitter_id" !in ItemsOf(items) && "type" !in ItemsOf(items)
    requires LinkColumn(link) in t.columns && LinkColumn(oldParent) in t.columns
    requires k < |t.rows|
    ensures CreateMissingLinks(t, link, oldParent, items, None).Ok?
    ensures var r := CreateMissingLinks(t, link, oldParent, items, None).value;
      k < |r.rows| && Get(r.rows[k], "submitter_id") == Get(t.rows[k], LinkColumn(link)) && Get(r.rows[k], "type") == Some(link)
  {
    CreateMissingLinksNoFile(t, link, oldParent, items);
    LinkColumnReserved(oldParent);
    LinkAppendedAt(Empty, t.rows, link, LinkColumn(oldParent), items, k);
  }

  /** Two node rows with the same missing link value are two selected rows. */
  lemma LinkedToTwice(rows: seq<Row>, ln: string, missing: set<Cell>, i: nat, j: nat) returns (a: nat, b: nat)
    requires i < j < |rows| && Get(rows[i], ln) == Get(rows[j], ln) && Get(rows[i], ln) in missing
    ensures var sel := LinkedTo(rows, ln, missing);
      a < b < |sel| && Get(sel[a], ln) == Get(sel[b], ln) == Get(rows[i], ln)
  {
    FilterKeepsOrder(rows, row => Get(row, ln) in missing, i, j);
    var sel := LinkedTo(rows, ln, missing);
    a, b :| 0 <= a < b < |sel| && sel[a] == rows[i] && sel[b] == rows[j];
  }

  /** With both link columns present and some link value missing, new records are made. */
  lemma CreateMissingLinksOk(t: Table, link: string, oldParent: string, items: seq<(string, string)>, linkFile: Option<Table>)
    requires LinkColumn(link) in t.columns && LinkColumn(oldParent) in t.columns
    requires linkFile.Some? ==> "submitter_id" in linkFile.value.columns
    requires MissingOf(t, link, linkFile) != {}
    ensures CreateMissingLinks(t, link, oldParent, items, linkFile).Ok?
  {
  }

  /**
   * Two node rows that share a missing link value give two new link records with the same
   * `submitter_id`, a file that `submit_file` then refuses. The selection takes every node row
   * whose value is missing, so this happens with a link file as well as without one.
   */
  lemma CreateMissingLinksDuplicates(t: Table, link: string, oldParent: string, items: seq<(string, string)>,
                                     linkFile: Option<Table>, i: nat, j: nat)
    requires "submitter_id" !in ItemsOf(items) && "type" !in ItemsOf(items)
    requires LinkColumn(link) in t.columns && LinkColumn(oldParent) in t.columns
    requires linkFile.Some? ==> "submitter_id" in linkFile.value.columns
    requires i < j < |t.rows| && Get(t.rows[i], LinkColumn(link)) == Get(t.rows[j], LinkColumn(link))
    requires Get(t.rows[i], LinkColumn(link)) in MissingOf(t, link, linkFile)
    ensures CreateMissingLinks(t, link, oldParent, items, linkFile).Ok?
    ensures var r, n := CreateMissingLinks(t, link, oldParent, items, linkFile).value, |linkFile.GetOr(Empty).rows|;
      exists a, b :: n <= a < b < |r.rows| && Get(r.rows[a], "submitter_id") == Get(r.rows[b], "submitter_id") == Get(t.rows[i], LinkColumn(link))
  {
    var ln := LinkColumn(link);
    var a, b := LinkedToTwice(t.rows, ln, MissingOf(t, link, linkFile), i, j);
    CreateMissingLinksOk(t, link, oldParent, items, linkFile);
    CreateMissingLinksIds(t, link, oldParent, items, linkFile);
    var x, y := SharedLinkTwice(CreateMissingLinks(t, link, oldParent, items, linkFile).value, linkFile.GetOr(Empty),
                                LinkedTo(t.rows, ln, MissingOf(t, link, linkFile)), link, a, b, Get(t.rows[i], ln));
  }

  /** The appended records' ids are the selected rows' link values, in order. */
  lemma CreateMissingLinksIds(t: Table, link: string, oldParent: string, items: seq<(string, string)>,
                              linkFile: Option<Table>)
    requires "submitter_id" !in ItemsOf(items) && "type" !in ItemsOf(items)
    requires CreateMissingLinks(t, link, oldParent, items, linkFile).Ok?
    requires linkFile.None? || MissingOf(t, link, linkFile) != {}
    ensures IdsAppended(CreateMissingLinks(t, link, oldParent, items, linkFile).value, linkFile.GetOr(Empty),
                        LinkedTo(t.rows, LinkColumn(link), MissingOf(t, link, linkFile)), link)
  {
    CreateMissingLinksAppends(t, link, oldParent, items, linkFile);
    AppendedIds(CreateMissingLinks(t, link, oldParent, items, linkFile).value, linkFile.GetOr(Empty),
                LinkedTo(t.rows, LinkColumn(link), MissingOf(t, link, linkFile)), link, LinkColumn(oldParent), items);
  }

  /** Two selected rows with the same link value give two appended records with that id. */
  lemma SharedLinkTwice(r: Table, ldf: Table, sel: seq<Row>, link: string, a: nat, b: nat, v: Cell) returns (x: nat, y: nat)
    requires IdsAppended(r, ldf, sel, link)
    requires a < b < |sel| && Get(sel[a], LinkColumn(link)) == Get(sel[b], LinkColumn(link)) == v
    ensures |ldf.rows| <= x < y < |r.rows| && Get(r.rows[x], "submitter_id") == Get(r.rows[y], "submitter_id") == v
  {
    var n := |ldf.rows|;
    x, y := n + a, n + b;
    assert Get(r.rows[n + a], "submitter_id") == Get(sel[a], LinkColumn(link));
    assert Get(r.rows[n + b], "submitter_id") == Get(sel[b], LinkColumn(link));
  }

  // ---------------------------------------------------------------- one record per missing link

  /** The rows whose link value has not been seen, each link value kept at its first row only. */
  function FirstPerLink(rows: seq<Row>, ln: string, seen: set<Cell>): seq<Row> {
    if rows == [] then []
    else if Get(rows[0], ln) in seen then FirstPerLink(rows[1..], ln, seen)
    else [rows[0]] + FirstPerLink(rows[1..], ln, seen + {Get(rows[0], ln)})
  }

  /** FirstPerLink keeps only rows of unseen link values. */
  lemma {:induction false} FirstPerLinkFrom(rows: seq<Row>, ln: string, seen: set<Cell>)
    ensures forall x :: x in FirstPerLink(rows, ln, seen) ==> x in rows && Get(x, ln) !in seen
  {
    if rows != [] {
      var v := Get(rows[0], ln);
      assert forall x :: x in rows[1..] ==> x in rows;
      if v in seen {
        FirstPerLinkFrom(rows[1..], ln, seen);
      } else {
        FirstPerLinkFrom(rows[1..], ln, seen + {v});
      }
    }
  }

  /** No two rows have the same value in column c. */
  predicate DistinctIn(rows: seq<Row>, c: string) {
    forall i, j :: 0 <= i < j < |rows| ==> Get(rows[i], c) != Get(rows[j], c)
  }

  /** FirstPerLink keeps no link value twice. */
  lemma {:induction false} FirstPerLinkDistinct(rows: seq<Row>, ln: string, seen: set<Cell>)
    ensures DistinctIn(FirstPerLink(rows, ln, seen), ln)
  {
    if rows != [] {
      var v := Get(rows[0], ln);
      if v in seen {
        FirstPerLinkDistinct(rows[1..], ln, seen);
      } else {
        FirstPerLinkDistinct(rows[1..], ln, seen + {v});
        FirstPerLinkFrom(rows[1..], ln, seen + {v});
        var rest := FirstPerLink(rows[1..], ln, seen + {v});
        var r := [rows[0]] + rest;
        assert FirstPerLink(rows, ln, seen) == r;
        forall i, j | 0 <= i < j < |r| ensures Get(r[i], ln) != Get(r[j], ln) {
          assert r[j] == rest[j - 1];
          if i == 0 {
            assert r[j] in rest;
          } else {
            assert r[i] == rest[i - 1];
          }
        }
      }
    }
  }

  /** FirstPerLink keeps a row for every unseen link value. */
  lemma {:induction false} FirstPerLinkCovers(rows: seq<Row>, ln: string, seen: set<Cell>)
    ensures forall x :: x in rows && Get(x, ln) !in seen ==> Get(x, ln) in ColumnValues(FirstPerLink(rows, ln, seen), ln)
  {
    if rows != [] {
      var v := Get(rows[0], ln);
      var tail := rows[1..];
      if v in seen {
        FirstPerLinkCovers(tail, ln, seen);
        assert forall x :: x in rows && x != rows[0] ==> x in tail;
      } else {
        FirstPerLinkCovers(tail, ln, seen + {v});
        var rest := FirstPerLink(tail, ln, seen + {v});
        var r := [rows[0]] + rest;
        forall x | x in rows && Get(x, ln) !in seen ensures Get(x, ln) in ColumnValues(r, ln) {
          if Get(x, ln) == v {
            assert ColumnValues(r, ln)[0] == v;
          } else {
            assert x in tail;
            var k :| 0 <= k < |rest| && ColumnValues(rest, ln)[k] == Get(x, ln);
            assert ColumnValues(r, ln)[k + 1] == Get(x, ln);
          }
        }
      }
    }
  }

  /**
   * `create_missing_links` as evidently intended: one new link record per missing link value,
   * made from the first node row that carries it.
   */
  function CreateMissingLinksOnce(t: Table, link: string, oldParent: string, items: seq<(string, string)>,
                                  linkFile: Option<Table>): (r: Result<Table, MigrationError>)
    ensures LinkColumn(link) !in t.columns ==> r == Err(MissingColumn(LinkColumn(link)))
    ensures linkFile.Some? && LinkColumn(link) in t.columns && "submitter_id" in linkFile.value.columns && MissingOf(t, link, linkFile) == {} ==>
              r == CreateMissingLinks(t, link, oldParent, items, linkFile)
  {
    var ln := LinkColumn(link);
    if ln !in t.columns then Err(MissingColumn(ln))
    else if linkFile.Some? && "submitter_id" !in linkFile.value.columns then Err(MissingColumn("submitter_id"))
    else
      var missing := MissingOf(t, link, linkFile);
      if linkFile.Some? && missing == {} then
        var linkNames := ColumnValues(t.rows, ln);
        Ok(Table(linkFile.value.columns, Filter(linkFile.value.rows, row => Get(row, "submitter_id") in linkNames)))
      else AppendLinks(t, linkFile.GetOr(Empty), link, oldParent, items, FirstPerLink(LinkedTo(t.rows, ln, missing), ln, {}))
  }

  /** The rows CreateMissingLinksOnce makes records from. */
  function OnceSelected(t: Table, link: string, linkFile: Option<Table>): seq<Row> {
    FirstPerLink(LinkedTo(t.rows, LinkColumn(link), MissingOf(t, link, linkFile)), LinkColumn(link), {})
  }

  lemma CreateMissingLinksOnceValue(t: Table, link: string, oldParent: string, items: seq<(string, string)>,
                                    linkFile: Option<Table>)
    requires CreateMissingLinksOnce(t, link, oldParent, items, linkFile).Ok?
    requires linkFile.None? || MissingOf(t, link, linkFile) != {}
    ensures CreateMissingLinksOnce(t, link, oldParent, items, linkFile).value ==
            Concat(linkFile.GetOr(Empty), NewLinks(OnceSelected(t, link, linkFile), link, LinkColumn(oldParent), items))
  {
  }

  /** The records CreateMissingLinksOnce makes follow the link records, one per selected row. */
  lemma CreateMissingLinksOnceAppends(t: Table, link: string, oldParent: string, items: seq<(string, string)>,
                                      linkFile: Option<Table>)
    requires "submitter_id" !in ItemsOf(items) && "type" !in ItemsOf(items)
    requires CreateMissingLinksOnce(t, link, oldParent, items, linkFile).Ok?
    requires linkFile.None? || MissingOf(t, link, linkFile) != {}
    ensures Appended(CreateMissingLinksOnce(t, link, oldParent, items, linkFile).value, linkFile.GetOr(Empty),
                     OnceSelected(t, link, linkFile), link, LinkColumn(oldParent), items)
  {
    CreateMissingLinksOnceValue(t, link, oldParent, items, linkFile);
    LinkColumnReserved(oldParent);
    LinksAppended(linkFile.GetOr(Empty), OnceSelected(t, link, linkFile), link, LinkColumn(oldParent), items);
  }

  /** Records appended for rows with pairwise different link values have pairwise different ids. */
  lemma AppendedDistinct(r: Table, ldf: Table, sel: seq<Row>, link: string)
    requires IdsAppended(r, ldf, sel, link) && DistinctIn(sel, LinkColumn(link))
    ensures forall i, j :: |ldf.rows| <= i < j < |r.rows| ==> Get(r.rows[i], "submitter_id") != Get(r.rows[j], "submitter_id")
  {
    var n := |ldf.rows|;
    forall i, j | n <= i < j < |r.rows| ensures Get(r.rows[i], "submitter_id") != Get(r.rows[j], "submitter_id") {
      var a, b := i - n, j - n;
      assert Get(r.rows[n + a], "submitter_id") == Get(sel[a], LinkColumn(link));
      assert Get(r.rows[n + b], "submitter_id") == Get(sel[b], LinkColumn(link));
      assert n + a == i && n + b == j;
    }
  }

  /** Every link value of the selected rows is the id of an appended record. */
  lemma AppendedCovers(r: Table, ldf: Table, sel: seq<Row>, link: string)
    requires IdsAppended(r, ldf, sel, link)
    ensures forall v :: v in ColumnValues(sel, LinkColumn(link)) ==>
      exists k :: |ldf.rows| <= k < |r.rows| && Get(r.rows[k], "submitter_id") == v
  {
    forall v | v in ColumnValues(sel, LinkColumn(link))
      ensures exists k :: |ldf.rows| <= k < |r.rows| && Get(r.rows[k], "submitter_id") == v
    {
      var m :| 0 <= m < |sel| && ColumnValues(sel, LinkColumn(link))[m] == v;
      assert Get(r.rows[|ldf.rows| + m], "submitter_id") == v;
    }
  }

  /** Where new records are made, their `submitter_id`s are pairwise different. */
  lemma CreateMissingLinksOnceDistinct(t: Table, link: string, oldParent: string, items: seq<(string, string)>,
                                       linkFile: Option<Table>)
    requires "submitter_id" !in ItemsOf(items) && "type" !in ItemsOf(items)
    requires CreateMissingLinksOnce(t, link, oldParent, items, linkFile).Ok?
    requires linkFile.None? || MissingOf(t, link, linkFile) != {}
    ensures var r, n := CreateMissingLinksOnce(t, link, oldParent, items, linkFile).value, |linkFile.GetOr(Empty).rows|;
      forall i, j :: n <= i < j < |r.rows| ==> Get(r.rows[i], "submitter_id") != Get(r.rows[j], "submitter_id")
  {
    var ln := LinkColumn(link);
    var r, ldf, sel := CreateMissingLinksOnce(t, link, oldParent, items, linkFile).value, linkFile.GetOr(Empty), OnceSelected(t, link, linkFile);
    assert IdsAppended(r, ldf, sel, link) by {
      CreateMissingLinksOnceAppends(t, link, oldParent, items, linkFile);
      AppendedIds(r, ldf, sel, link, LinkColumn(oldParent), items);
    }
    FirstPerLinkDistinct(LinkedTo(t.rows, ln, MissingOf(t, link, linkFile)), ln, {});
    AppendedDistinct(r, ldf, sel, link);
  }

  /** Where new records are made, every missing link value of the node has one. */
  lemma CreateMissingLinksOnceCovers(t: Table, link: string, oldParent: string, items: seq<(string, string)>,
                                     linkFile: Option<Table>)
    requires "submitter_id" !in ItemsOf(items) && "type" !in ItemsOf(items)
    requires CreateMissingLinksOnce(t, link, oldParent, items, linkFile).Ok?
    requires linkFile.None? || MissingOf(t, link, linkFile) != {}
    ensures var r, n := CreateMissingLinksOnce(t, link, oldParent, items, linkFile).value, |linkFile.GetOr(Empty).rows|;
      forall row :: row in t.rows && Get(row, LinkColumn(link)) in MissingOf(t, link, linkFile) ==>
        exists k :: n <= k < |r.rows| && Get(r.rows[k], "submitter_id") == Get(row, LinkColumn(link))
  {
    var ln := LinkColumn(link);
    var sel := LinkedTo(t.rows, ln, MissingOf(t, link, linkFile));
    var r, ldf, once := CreateMissingLinksOnce(t, link, oldParent, items, linkFile).value, linkFile.GetOr(Empty), OnceSelected(t, link, linkFile);
    assert IdsAppended(r, ldf, once, link) by {
      CreateMissingLinksOnceAppends(t, link, oldParent, items, linkFile);
      AppendedIds(r, ldf, once, link, LinkColumn(oldParent), items);
    }
    FirstPerLinkCovers(sel, ln, {});
    AppendedCovers(r, ldf, once, link);
    assert forall row :: row in t.rows && Get(row, ln) in MissingOf(t, link, linkFile) ==> row in sel;
  }
}
