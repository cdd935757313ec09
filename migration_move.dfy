/**
 * `move_properties(project_id, from_node, to_node, properties, parent_node)`: the columns
 * properties of the from node, with the link to the parent node, become records of the to node,
 * one per from record, unless a record of that id is already in the to node's table.
 */
module MigrationMove {
  import opened Wrappers
  import opened Tables
  import opened Migration

  /** The suffix the source appends to a from record's `submitter_id`, whatever the to node is. */
  const MovedSuffix := "_reproductive_health"

  /** `df_from['submitter_id'] + "_reproductive_health"`: a NaN id stays NaN. */
  function MovedId(c: Cell): Cell {
    match c
    case None => None
    case Some(s) => Some(s + MovedSuffix)
  }

  /** The columns added one after the other, each new one last. */
  function AddColumns(cols: seq<string>, names: seq<string>): (r: seq<string>)
    ensures ColumnSet(r) == ColumnSet(cols) + ColumnSet(names)
    ensures Distinct(cols) ==> Distinct(r)
    decreases |names|
  {
    if names == [] then cols
    else
      var init := names[..|names| - 1];
      assert ColumnSet(names) == ColumnSet(init) + {names[|names| - 1]};
      AddColumn(AddColumns(cols, init), names[|names| - 1])
  }

  /** The columns of `new_to`: the parent link and the properties, then `type`, `project_id`, `submitter_id`. */
  function MovedColumns(pl: string, props: seq<string>): (cols: seq<string>)
    ensures Distinct(cols)
    ensures ColumnSet(cols) == {pl, "type", "project_id", "submitter_id"} + ColumnSet(props)
  {
    assert ColumnSet([pl]) == {pl} && Distinct([pl]);
    var linked := AddColumns([pl], props);
    var typed := AddColumn(linked, "type");
    var projected := AddColumn(typed, "project_id");
    AddColumn(projected, "submitter_id")
  }

  /** The `new_to` record made from a from record. */
  function MovedRow(row: Row, pl: string, props: seq<string>, toNode: string, projectId: string): Row {
    Reindex(row, [pl] + props)["type" := Some(toNode)]["project_id" := Some(projectId)]
      ["submitter_id" := MovedId(Get(row, "submitter_id"))]
  }

  /** A moved record has the to node's type, the project, the suffixed id and the from record's link and properties. */
  lemma MovedRowFields(row: Row, pl: string, props: seq<string>, toNode: string, projectId: string)
    ensures var m := MovedRow(row, pl, props, toNode, projectId);
      && Get(m, "type") == Some(toNode) && Get(m, "project_id") == Some(projectId)
      && Get(m, "submitter_id") == MovedId(Get(row, "submitter_id"))
      && (forall c :: c in [pl] + props && c !in {"type", "project_id", "submitter_id"} ==> Get(m, c) == Get(row, c))
  {
  }

  /** A moved record has exactly the moved columns. */
  lemma MovedRowKeys(row: Row, pl: string, props: seq<string>, toNode: string, projectId: string)
    ensures MovedRow(row, pl, props, toNode, projectId).Keys == ColumnSet(MovedColumns(pl, props))
  {
    assert ColumnSet([pl] + props) == {pl} + ColumnSet(props);
  }

  function MovedRows(rows: seq<Row>, pl: string, props: seq<string>, toNode: string, projectId: string): (r: seq<Row>)
    ensures |r| == |rows|
    ensures forall k :: 0 <= k < |rows| ==> r[k] == MovedRow(rows[k], pl, props, toNode, projectId)
  {
    seq(|rows|, k requires 0 <= k < |rows| => MovedRow(rows[k], pl, props, toNode, projectId))
  }

  /** `new_to.loc[~new_to['submitter_id'].isin(ids)]` */
  function NotListed(rows: seq<Row>, ids: seq<Cell>): seq<Row> {
    Filter(rows, row => Get(row, "submitter_id") !in ids)
  }

  /** Some property has a non-NaN value in some from record. */
  predicate HasData(from: Table, props: seq<string>) {
    exists p :: p in props && Present(from.rows, p) != []
  }

  /** The to node's table; `pd.DataFrame(columns=['submitter_id'])` when its file does not exist. */
  function ToTable(toFile: Option<Table>): Table {
    toFile.GetOr(Table(["submitter_id"], []))
  }

  /**
   * `move_properties(project_id, from_node, to_node, properties, parent_node)`: toFile is the to
   * node's table, None when its file does not exist. When a from record has no parent link, or
   * no property has any data, the from table is returned unchanged. Otherwise the from records
   * become to records, and those whose id the to node does not have yet are appended to it.
   */
  function MoveProperties(from: Table, toFile: Option<Table>, toNode: string, projectId: string,
                          props: seq<string>, parentNode: string): (r: Result<Table, MigrationError>)
    ensures LinkColumn(parentNode) !in from.columns ==> r == Err(MissingColumn(LinkColumn(parentNode)))
    ensures LinkColumn(parentNode) in from.columns && Absent(from.rows, LinkColumn(parentNode)) != [] ==> r == Ok(from)
  {
    var pl := LinkColumn(parentNode);
    var to := ToTable(toFile);
    if pl !in from.columns then Err(MissingColumn(pl))
    else if Absent(from.rows, pl) != [] then Ok(from)
    else if FirstAbsent(props, from.columns).Some? then Err(MissingColumn(FirstAbsent(props, from.columns).value))
    else if !HasData(from, props) then Ok(from)
    else if "submitter_id" !in from.columns then Err(MissingColumn("submitter_id"))
    else if "submitter_id" !in to.columns then Err(NoSubmitterIdAttribute)
    else
      var added := NotListed(MovedRows(from.rows, pl, props, toNode, projectId), ColumnValues(to.rows, "submitter_id"));
      Ok(Concat(to, Table(MovedColumns(pl, props), added)))
  }

  // ---------------------------------------------------------------- properties

  /** Every from record is linked, every property is a column, some has data, and both tables have ids. */
  predicate Moving(from: Table, toFile: Option<Table>, props: seq<string>, parentNode: string) {
    && LinkColumn(parentNode) in from.columns && Absent(from.rows, LinkColumn(parentNode)) == []
    && (forall p :: p in props ==> p in from.columns) && HasData(from, props)
    && "submitter_id" in from.columns && "submitter_id" in ToTable(toFile).columns
  }

  /** A property that is not a column of the from node, once every record is linked, is a KeyError. */
  lemma MovePropertiesMissing(from: Table, toFile: Option<Table>, toNode: string, projectId: string,
                              props: seq<string>, parentNode: string)
    requires LinkColumn(parentNode) in from.columns && Absent(from.rows, LinkColumn(parentNode)) == []
    requires exists p :: p in props && p !in from.columns
    ensures exists p :: p in props && p !in from.columns &&
              MoveProperties(from, toFile, toNode, projectId, props, parentNode) == Err(MissingColumn(p))
  {
    var q := FirstAbsent(props, from.columns).value;
    assert MoveProperties(from, toFile, toNode, projectId, props, parentNode) == Err(MissingColumn(q));
  }

  /** When every value of every property is NaN, no records are made and the from table is returned. */
  lemma MovePropertiesNoData(from: Table, toFile: Option<Table>, toNode: string, projectId: string,
                             props: seq<string>, parentNode: string)
    requires LinkColumn(parentNode) in from.columns && forall p :: p in props ==> p in from.columns
    requires forall p, row :: p in props && row in from.rows ==> Get(row, p).None?
    ensures MoveProperties(from, toFile, toNode, projectId, props, parentNode) == Ok(from)
  {
    forall p | p in props ensures Present(from.rows, p) == [] {
      AllNaN(from.rows, p);
    }
  }

  lemma {:induction false} AllNaN(rows: seq<Row>, c: string)
    requires forall row :: row in rows ==> Get(row, c).None?
    ensures Present(rows, c) == []
  {
    if rows != [] {
      assert forall row :: row in rows[1..] ==> row in rows;
      AllNaN(rows[1..], c);
    }
  }

  /** In the moving case the result is the to table followed by the moved records it lacked. */
  lemma MovePropertiesValue(from: Table, toFile: Option<Table>, toNode: string, projectId: string,
                            props: seq<string>, parentNode: string)
    requires Moving(from, toFile, props, parentNode)
    ensures var pl := LinkColumn(parentNode);
      MoveProperties(from, toFile, toNode, projectId, props, parentNode) ==
        Ok(Concat(ToTable(toFile), Table(MovedColumns(pl, props),
                  NotListed(MovedRows(from.rows, pl, props, toNode, projectId), ColumnValues(ToTable(toFile).rows, "submitter_id")))))
  {
    assert FirstAbsent(props, from.columns).None?;
  }

  /** The to table's own records stay first, re-indexed to the new columns. */
  lemma MovePropertiesKeepsTo(from: Table, toFile: Option<Table>, toNode: string, projectId: string,
                              props: seq<string>, parentNode: string)
    requires Moving(from, toFile, props, parentNode)
    ensures var r, to := MoveProperties(from, toFile, toNode, projectId, props, parentNode).value, ToTable(toFile);
      && |to.rows| <= |r.rows| && ColumnSet(r.columns) == ColumnSet(to.columns) + ColumnSet(MovedColumns(LinkColumn(parentNode), props))
      && forall k :: 0 <= k < |to.rows| ==> r.rows[k] == Reindex(to.rows[k], r.columns)
  {
    MovePropertiesValue(from, toFile, toNode, projectId, props, parentNode);
  }

  /** A record appended to a after the ones whose ids a has is one of ms whose id a lacks. */
  lemma AppendedUnlisted(a: Table, cols: seq<string>, ms: seq<Row>, k: nat)
    requires var r := Concat(a, Table(cols, NotListed(ms, ColumnValues(a.rows, "submitter_id"))));
      |a.rows| <= k < |r.rows|
    ensures var r := Concat(a, Table(cols, NotListed(ms, ColumnValues(a.rows, "submitter_id"))));
      exists i :: 0 <= i < |ms| && Get(ms[i], "submitter_id") !in ColumnValues(a.rows, "submitter_id") &&
        r.rows[k] == Reindex(ms[i], r.columns)
  {
    var added := NotListed(ms, ColumnValues(a.rows, "submitter_id"));
    var r := Concat(a, Table(cols, added));
    var y := added[k - |a.rows|];
    assert r.rows[|a.rows| + (k - |a.rows|)] == Reindex(y, r.columns);
    assert y in added;
    var i :| 0 <= i < |ms| && ms[i] == y;
  }

  /** A record of ms whose id a lacks is appended to a. */
  lemma UnlistedAppended(a: Table, cols: seq<string>, ms: seq<Row>, i: nat)
    requires i < |ms| && Get(ms[i], "submitter_id") !in ColumnValues(a.rows, "submitter_id")
    ensures var r := Concat(a, Table(cols, NotListed(ms, ColumnValues(a.rows, "submitter_id"))));
      |a.rows| <= |r.rows| && Reindex(ms[i], r.columns) in r.rows[|a.rows|..]
  {
    var added := NotListed(ms, ColumnValues(a.rows, "submitter_id"));
    var r := Concat(a, Table(cols, added));
    assert ms[i] in added;
    var j :| 0 <= j < |added| && added[j] == ms[i];
    assert r.rows[|a.rows|..][j] == r.rows[|a.rows| + j] == Reindex(ms[i], r.columns);
  }

  lemma MovedIdOf(row: Row, pl: string, props: seq<string>, toNode: string, projectId: string)
    ensures Get(MovedRow(row, pl, props, toNode, projectId), "submitter_id") == MovedId(Get(row, "submitter_id"))
  {
  }

  /** Each appended record is the moved record of a from record whose id the to table did not have. */
  lemma MovePropertiesAddedAt(from: Table, toFile: Option<Table>, toNode: string, projectId: string,
                              props: seq<string>, parentNode: string, k: nat)
    requires Moving(from, toFile, props, parentNode)
    requires |ToTable(toFile).rows| <= k < |MoveProperties(from, toFile, toNode, projectId, props, parentNode).value.rows|
    ensures var r, to := MoveProperties(from, toFile, toNode, projectId, props, parentNode).value, ToTable(toFile);
      exists x :: x in from.rows && MovedId(Get(x, "submitter_id")) !in ColumnValues(to.rows, "submitter_id") &&
        r.rows[k] == Reindex(MovedRow(x, LinkColumn(parentNode), props, toNode, projectId), r.columns)
  {
    var pl, to := LinkColumn(parentNode), ToTable(toFile);
    var ms := MovedRows(from.rows, pl, props, toNode, projectId);
    MovePropertiesValue(from, toFile, toNode, projectId, props, parentNode);
    AppendedUnlisted(to, MovedColumns(pl, props), ms, k);
    var r := Concat(to, Table(MovedColumns(pl, props), NotListed(ms, ColumnValues(to.rows, "submitter_id"))));
    var i :| 0 <= i < |ms| && Get(ms[i], "submitter_id") !in ColumnValues(to.rows, "submitter_id") &&
             r.rows[k] == Reindex(ms[i], r.columns);
    MovedIdOf(from.rows[i], pl, props, toNode, projectId);
    assert from.rows[i] in from.rows;
  }

  /** Every from record whose moved id the to table does not have is appended. */
  lemma MovePropertiesAddsAll(from: Table, toFile: Option<Table>, toNode: string, projectId: string,
                              props: seq<string>, parentNode: string, x: Row)
    requires Moving(from, toFile, props, parentNode)
    requires x in from.rows && MovedId(Get(x, "submitter_id")) !in ColumnValues(ToTable(toFile).rows, "submitter_id")
    ensures var r, to := MoveProperties(from, toFile, toNode, projectId, props, parentNode).value, ToTable(toFile);
      |to.rows| <= |r.rows| && Reindex(MovedRow(x, LinkColumn(parentNode), props, toNode, projectId), r.columns) in r.rows[|to.rows|..]
  {
    var pl := LinkColumn(parentNode);
    var i :| 0 <= i < |from.rows| && from.rows[i] == x;
    var ms := MovedRows(from.rows, pl, props, toNode, projectId);
    assert ms[i] == MovedRow(x, pl, props, toNode, projectId);
    MovedIdOf(x, pl, props, toNode, projectId);
    MovePropertiesValue(from, toFile, toNode, projectId, props, parentNode);
    UnlistedAppended(ToTable(toFile), MovedColumns(pl, props), ms, i);
  }

  /** After the append, the id of every record of ms is an id of the result. */
  lemma IdListedAt(a: Table, cols: seq<string>, ms: seq<Row>, i: nat)
    requires "submitter_id" in a.columns && i < |ms|
    ensures var r := Concat(a, Table(cols, NotListed(ms, ColumnValues(a.rows, "submitter_id"))));
      Get(ms[i], "submitter_id") in ColumnValues(r.rows, "submitter_id")
  {
    var ids := ColumnValues(a.rows, "submitter_id");
    if Get(ms[i], "submitter_id") in ids {
      IdListedBefore(a, cols, ms, i);
    } else {
      IdListedAfter(a, cols, ms, i);
    }
  }

  /** An id a already lists is still listed after the append. */
  lemma IdListedBefore(a: Table, cols: seq<string>, ms: seq<Row>, i: nat)
    requires "submitter_id" in a.columns && i < |ms|
    requires Get(ms[i], "submitter_id") in ColumnValues(a.rows, "submitter_id")
    ensures var r := Concat(a, Table(cols, NotListed(ms, ColumnValues(a.rows, "submitter_id"))));
      Get(ms[i], "submitter_id") in ColumnValues(r.rows, "submitter_id")
  {
    var ids := ColumnValues(a.rows, "submitter_id");
    var r := Concat(a, Table(cols, NotListed(ms, ids)));
    var v := Get(ms[i], "submitter_id");
    assert "submitter_id" in r.columns;
    var k :| 0 <= k < |a.rows| && ids[k] == v;
    assert ColumnValues(r.rows, "submitter_id")[k] == v;
  }

  /** An id a does not list is listed by the record the append adds for it. */
  lemma IdListedAfter(a: Table, cols: seq<string>, ms: seq<Row>, i: nat)
    requires "submitter_id" in a.columns && i < |ms|
    requires Get(ms[i], "submitter_id") !in ColumnValues(a.rows, "submitter_id")
    ensures var r := Concat(a, Table(cols, NotListed(ms, ColumnValues(a.rows, "submitter_id"))));
      Get(ms[i], "submitter_id") in ColumnValues(r.rows, "submitter_id")
  {
    var ids := ColumnValues(a.rows, "submitter_id");
    var r := Concat(a, Table(cols, NotListed(ms, ids)));
    var v := Get(ms[i], "submitter_id");
    assert "submitter_id" in r.columns;
    var added := NotListed(ms, ids);
    assert ms[i] in added;
    var j :| 0 <= j < |added| && added[j] == ms[i];
    var row := r.rows[|a.rows| + j];
    assert row == Reindex(ms[i], r.columns);
    assert Get(row, "submitter_id") == v;
    assert ColumnValues(r.rows, "submitter_id")[|a.rows| + j] == v;
  }

  /** No record whose id is listed is kept. */
  lemma {:induction false} AllListed(ms: seq<Row>, ids: seq<Cell>)
    requires forall x :: x in ms ==> Get(x, "submitter_id") in ids
    ensures NotListed(ms, ids) == []
  {
    if ms != [] {
      assert forall x :: x in ms[1..] ==> x in ms;
      AllListed(ms[1..], ids);
    }
  }

  /** After the append, every record of ms has its id in the result. */
  lemma AllIdsListed(a: Table, cols: seq<string>, ms: seq<Row>)
    requires "submitter_id" in a.columns
    ensures var r := Concat(a, Table(cols, NotListed(ms, ColumnValues(a.rows, "submitter_id"))));
      forall x :: x in ms ==> Get(x, "submitter_id") in ColumnValues(r.rows, "submitter_id")
  {
    forall x | x in ms
      ensures Get(x, "submitter_id") in ColumnValues(Concat(a, Table(cols, NotListed(ms, ColumnValues(a.rows, "submitter_id")))).rows, "submitter_id")
    {
      var i :| 0 <= i < |ms| && ms[i] == x;
      IdListedAt(a, cols, ms, i);
    }
  }

  /** Appending to the result of an append the records of ms it lacks appends nothing. */
  lemma AppendAgain(a: Table, cols: seq<string>, ms: seq<Row>)
    requires "submitter_id" in a.columns && Distinct(a.columns)
    ensures var r := Concat(a, Table(cols, NotListed(ms, ColumnValues(a.rows, "submitter_id"))));
      Concat(r, Table(cols, NotListed(ms, ColumnValues(r.rows, "submitter_id")))) == r
  {
    var r := Concat(a, Table(cols, NotListed(ms, ColumnValues(a.rows, "submitter_id"))));
    AllIdsListed(a, cols, ms);
    AllListed(ms, ColumnValues(r.rows, "submitter_id"));
    assert WellFormed(r);
    assert forall c :: c in cols ==> c in ColumnSet(cols) && c in ColumnSet(r.columns);
    ConcatNothing(r, cols);
  }

  /**
   * Moving the same properties again, into the table the first move produced, adds nothing:
   * every moved id is already there, and the result is that table.
   */
  lemma MovePropertiesRerun(from: Table, toFile: Option<Table>, toNode: string, projectId: string,
                            props: seq<string>, parentNode: string)
    requires Moving(from, toFile, props, parentNode) && Distinct(ToTable(toFile).columns)
    ensures var r := MoveProperties(from, toFile, toNode, projectId, props, parentNode);
      r.Ok? && MoveProperties(from, Some(r.value), toNode, projectId, props, parentNode) == r
  {
    var pl, to := LinkColumn(parentNode), ToTable(toFile);
    var ms := MovedRows(from.rows, pl, props, toNode, projectId);
    var cols := MovedColumns(pl, props);
    MovePropertiesValue(from, toFile, toNode, projectId, props, parentNode);
    var r := Concat(to, Table(cols, NotListed(ms, ColumnValues(to.rows, "submitter_id"))));
    assert Moving(from, Some(r), props, parentNode);
    MovePropertiesValue(from, Some(r), toNode, projectId, props, parentNode);
    AppendAgain(to, cols, ms);
  }
}
