/**
 * `drop_links` and `merge_links`: the helpers that rewrite a node's link columns. Both work
 * on the table step by step, one link after the other, as loops over the link list.
 */
module MigrationLinks {
  import opened Wrappers
  import opened Strings
  import opened Tables
  import opened Migration

  /** `"{link}.submitter_id"` and `"{link}.id"`: a link's two columns in an exported TSV. */
  function SidColumn(link: string): string {
    link + ".submitter_id"
  }

  function UuidColumn(link: string): string {
    link + ".id"
  }

  /** `"{link}.submitter_id#{count}"` and `"{link}.id#{count}"`: the columns of a numbered link. */
  function NumberedSid(link: string, count: nat): string {
    link + ".submitter_id#" + NatToString(count)
  }

  function NumberedUuid(link: string, count: nat): string {
    link + ".id#" + NatToString(count)
  }

  // ---------------------------------------------------------------- column names

  lemma AppendCancel(p: string, a: string, q: string, b: string)
    requires p + a == q + b && a == b
    ensures p == q
  {
    assert p == (p + a)[..|p|];
    assert q == (q + b)[..|q|];
  }

  /** A link's columns name that link only, and a plain column is never a numbered one. */
  lemma ColumnNames(l: string, m: string)
    ensures SidColumn(l) == SidColumn(m) ==> l == m
    ensures UuidColumn(l) == UuidColumn(m) ==> l == m
    ensures SidColumn(l) != UuidColumn(m)
    ensures forall n: nat :: SidColumn(l) != NumberedSid(m, n) && SidColumn(l) != NumberedUuid(m, n)
    ensures forall n: nat :: UuidColumn(l) != NumberedSid(m, n) && UuidColumn(l) != NumberedUuid(m, n)
  {
    if SidColumn(l) == SidColumn(m) {
      AppendCancel(l, ".submitter_id", m, ".submitter_id");
    }
    if UuidColumn(l) == UuidColumn(m) {
      AppendCancel(l, ".id", m, ".id");
    }
    var s, u := SidColumn(l), UuidColumn(m);
    assert s[|s| - 3] == '_' && u[|u| - 3] == '.';
    forall n: nat ensures SidColumn(l) != NumberedSid(m, n) && SidColumn(l) != NumberedUuid(m, n)
                 && UuidColumn(l) != NumberedSid(m, n) && UuidColumn(l) != NumberedUuid(m, n)
    {
      var d := NatToString(n);
      var a, b := NumberedSid(m, n), NumberedUuid(m, n);
      assert a[|a| - 1] == d[|d| - 1] && b[|b| - 1] == d[|d| - 1];
      assert IsDigit(d[|d| - 1]);
      assert s[|s| - 1] == 'd' && UuidColumn(l)[|UuidColumn(l)| - 1] == 'd';
    }
  }

  /** Numbered columns of one link with different numbers are different. */
  lemma NumberedSidInjective(l: string, a: nat, b: nat)
    requires NumberedSid(l, a) == NumberedSid(l, b)
    ensures a == b
  {
    var p := l + ".submitter_id#";
    assert NatToString(a) == NumberedSid(l, a)[|p|..];
    assert NatToString(b) == NumberedSid(l, b)[|p|..];
    NatToStringInjective(a, b);
  }

  lemma SubsetSize(a: set<string>, b: set<string>)
    requires a <= b
    ensures |a| <= |b|
  {
    assert b == a + (b - a);
  }

  // ---------------------------------------------------------------- drop_links

  /** One pass of the loop as the source has it: only the plain pair can go. */
  function DropLink(t: Table, link: string): Table {
    if SidColumn(link) in t.columns && UuidColumn(link) in t.columns then DropColumns(t, {SidColumn(link), UuidColumn(link)})
    else t
  }

  /** `drop_links(project_id, node, links)` on the node's table. */
  function DropLinksSpec(t: Table, links: seq<string>): Table
    decreases |links|
  {
    if links == [] then t else DropLink(DropLinksSpec(t, links[..|links| - 1]), links[|links| - 1])
  }

  /**
   * The loop of `drop_links`. Where the plain pair is absent, the numbered pairs `#1`, `#2`, ...
   * are visited while both are columns, but `df.drop(...)` there is not assigned back, so they
   * stay; the visit ends because the table has finitely many columns.
   */
  method DropLinks(t: Table, links: seq<string>) returns (df: Table)
    ensures df == DropLinksSpec(t, links)
  {
    df := t;
    for i := 0 to |links|
      invariant df == DropLinksSpec(t, links[..i])
    {
      assert links[..i + 1][..i] == links[..i];
      var link := links[i];
      var sid, uuid := SidColumn(link), UuidColumn(link);
      if sid in df.columns && uuid in df.columns {
        df := DropColumns(df, {sid, uuid});
      } else {
        var count := 1;
        ghost var visited: set<string> := {};
        sid, uuid := NumberedSid(link, count), NumberedUuid(link, count);
        while sid in df.columns && uuid in df.columns
          invariant sid == NumberedSid(link, count) && uuid == NumberedUuid(link, count) && count >= 1
          invariant visited <= ColumnSet(df.columns) && |visited| == count - 1
          invariant forall x :: x in visited ==> exists k: nat :: k < count && x == NumberedSid(link, k)
          decreases |ColumnSet(df.columns)| - |visited|
        {
          var dropped := DropColumns(df, {sid, uuid});
          if sid in visited {
            var k: nat :| k < count && sid == NumberedSid(link, k);
            NumberedSidInjective(link, k, count);
          }
          visited := visited + {sid};
          SubsetSize(visited, ColumnSet(df.columns));
          count := count + 1;
          sid, uuid := NumberedSid(link, count), NumberedUuid(link, count);
        }
      }
    }
    assert links[..|links|] == links;
  }

  /** Column c is dropped by one of links: it is that link's plain submitter or uuid column and the table has both. */
  predicate Dropped(t: Table, links: seq<string>, c: string) {
    exists l :: l in links && (c == SidColumn(l) || c == UuidColumn(l)) && SidColumn(l) in t.columns && UuidColumn(l) in t.columns
  }

  /** One pass removes the link's plain pair when the table has both, and nothing else. */
  lemma DropLinkStep(s: Table, l: string)
    ensures var r := DropLink(s, l);
      && |r.rows| == |s.rows|
      && (forall c :: c in r.columns <==> c in s.columns && !((c == SidColumn(l) || c == UuidColumn(l)) && SidColumn(l) in s.columns && UuidColumn(l) in s.columns))
      && (forall i, c :: 0 <= i < |s.rows| && c in r.columns ==> Get(r.rows[i], c) == Get(s.rows[i], c))
      && (WellFormed(s) ==> WellFormed(r))
  {
  }

  lemma DroppedSnoc(t: Table, init: seq<string>, l: string, c: string)
    ensures Dropped(t, init + [l], c) <==>
            Dropped(t, init, c) || ((c == SidColumn(l) || c == UuidColumn(l)) && SidColumn(l) in t.columns && UuidColumn(l) in t.columns)
  {
    assert forall m :: m in init + [l] <==> m in init || m == l;
  }

  /** Only link l's own columns can be dropped on l's account. */
  lemma DroppedOther(t: Table, init: seq<string>, l: string)
    ensures !Dropped(t, init, SidColumn(l)) || (l in init && SidColumn(l) in t.columns && UuidColumn(l) in t.columns)
    ensures !Dropped(t, init, UuidColumn(l)) || (l in init && SidColumn(l) in t.columns && UuidColumn(l) in t.columns)
  {
    if Dropped(t, init, SidColumn(l)) {
      var m :| m in init && (SidColumn(l) == SidColumn(m) || SidColumn(l) == UuidColumn(m)) && SidColumn(m) in t.columns && UuidColumn(m) in t.columns;
      ColumnNames(l, m);
    }
    if Dropped(t, init, UuidColumn(l)) {
      var m :| m in init && (UuidColumn(l) == SidColumn(m) || UuidColumn(l) == UuidColumn(m)) && SidColumn(m) in t.columns && UuidColumn(m) in t.columns;
      ColumnNames(l, m);
      ColumnNames(m, l);
    }
  }

  /** The column characterization carries over one more pass. */
  lemma DropLinkAt(t: Table, s: Table, init: seq<string>, l: string, c: string)
    requires forall x :: x in s.columns <==> x in t.columns && !Dropped(t, init, x)
    ensures c in DropLink(s, l).columns <==> c in t.columns && !Dropped(t, init + [l], c)
  {
    DropLinkStep(s, l);
    DroppedSnoc(t, init, l, c);
    DroppedOther(t, init, l);
    if c == SidColumn(l) || c == UuidColumn(l) {
      assert SidColumn(l) in s.columns <==> SidColumn(l) in t.columns && !Dropped(t, init, SidColumn(l));
      assert UuidColumn(l) in s.columns <==> UuidColumn(l) in t.columns && !Dropped(t, init, UuidColumn(l));
    }
  }

  /**
   * `drop_links` removes exactly the plain pairs the table has both columns of, on every row,
   * and keeps every other column and value.
   */
  lemma {:induction false} DropLinksColumns(t: Table, links: seq<string>)
    ensures var r := DropLinksSpec(t, links);
      && |r.rows| == |t.rows|
      && (forall c :: c in r.columns <==> c in t.columns && !Dropped(t, links, c))
      && (forall i, c :: 0 <= i < |t.rows| && c in r.columns ==> Get(r.rows[i], c) == Get(t.rows[i], c))
      && (WellFormed(t) ==> WellFormed(r))
    decreases |links|
  {
    if links != [] {
      var init, l := links[..|links| - 1], links[|links| - 1];
      assert links == init + [l];
      DropLinksColumns(t, init);
      var s := DropLinksSpec(t, init);
      DropLinkStep(s, l);
      forall c ensures c in DropLink(s, l).columns <==> c in t.columns && !Dropped(t, links, c) {
        DropLinkAt(t, s, init, l, c);
      }
    }
  }

  /**
   * As written, a table with a numbered pair `#1` and no plain pair keeps both numbered
   * columns: `drop_links` leaves them in place.
   */
  lemma DropLinksKeepsNumbered(t: Table, link: string)
    requires NumberedSid(link, 1) in t.columns && NumberedUuid(link, 1) in t.columns
    ensures NumberedSid(link, 1) in DropLinksSpec(t, [link]).columns
    ensures NumberedUuid(link, 1) in DropLinksSpec(t, [link]).columns
  {
    DropLinksColumns(t, [link]);
    ColumnNames(link, link);
  }

  // ---------------------------------------------------------------- drop_links, as intended

  /** The numbered pairs from count on, each dropped while both of its columns are there. */
  function DropNumbered(t: Table, link: string, count: nat): (r: Table)
    ensures ColumnSet(r.columns) <= ColumnSet(t.columns)
    decreases |t.columns|
  {
    var sid, uuid := NumberedSid(link, count), NumberedUuid(link, count);
    if sid in t.columns && uuid in t.columns then
      var d := DropColumns(t, {sid, uuid});
      DropNumbered(d, link, count + 1)
    else t
  }

  /** One pass of the loop with the drop assigned back: `df = df.drop(columns=[sid, uuid])`. */
  function DropLinkFixed(t: Table, link: string): Table {
    if SidColumn(link) in t.columns && UuidColumn(link) in t.columns then DropColumns(t, {SidColumn(link), UuidColumn(link)})
    else DropNumbered(t, link, 1)
  }

  /** Every numbered pair from count up to the first one that is not complete is dropped. */
  lemma {:induction false} DropNumberedDrops(t: Table, link: string, count: nat, n: nat)
    requires count <= n
    requires forall k :: count <= k <= n ==> NumberedSid(link, k) in t.columns && NumberedUuid(link, k) in t.columns
    ensures NumberedSid(link, n) !in DropNumbered(t, link, count).columns
    ensures NumberedUuid(link, n) !in DropNumbered(t, link, count).columns
    decreases n - count
  {
    var sid, uuid := NumberedSid(link, count), NumberedUuid(link, count);
    var d := DropColumns(t, {sid, uuid});
    assert DropNumbered(t, link, count) == DropNumbered(d, link, count + 1);
    if count < n {
      forall k | count + 1 <= k <= n ensures NumberedSid(link, k) in d.columns && NumberedUuid(link, k) in d.columns {
        if NumberedSid(link, k) == sid {
          NumberedSidInjective(link, k, count);
        }
        if NumberedUuid(link, k) == uuid {
          NumberedUuidInjective(link, k, count);
        }
        if NumberedSid(link, k) == uuid {
          NumberedMixed(link, k, count);
        }
        if NumberedUuid(link, k) == sid {
          NumberedMixed(link, count, k);
        }
      }
      DropNumberedDrops(d, link, count + 1, n);
    } else {
      var r := DropNumbered(d, link, count + 1);
      assert sid !in d.columns && uuid !in d.columns;
      assert ColumnSet(r.columns) <= ColumnSet(d.columns);
      assert sid !in ColumnSet(d.columns) && uuid !in ColumnSet(d.columns);
    }
  }

  lemma NumberedUuidInjective(l: string, a: nat, b: nat)
    requires NumberedUuid(l, a) == NumberedUuid(l, b)
    ensures a == b
  {
    var p := l + ".id#";
    assert NatToString(a) == NumberedUuid(l, a)[|p|..];
    assert NatToString(b) == NumberedUuid(l, b)[|p|..];
    NatToStringInjective(a, b);
  }

  /** A numbered submitter column of a link is never a numbered uuid column of it. */
  lemma NumberedMixed(l: string, a: nat, b: nat)
    ensures NumberedSid(l, a) != NumberedUuid(l, b)
  {
    var s, u := NumberedSid(l, a), NumberedUuid(l, b);
    assert s[|l| + 1] == 's' && u[|l| + 1] == 'i';
  }

  /**
   * With the drop assigned back, a table whose plain pair is absent and whose numbered pairs
   * `#1` to `#n` are all there has none of them left.
   */
  lemma DropLinkFixedDropsNumbered(t: Table, link: string, n: nat)
    requires !(SidColumn(link) in t.columns && UuidColumn(link) in t.columns)
    requires forall k :: 1 <= k <= n ==> NumberedSid(link, k) in t.columns && NumberedUuid(link, k) in t.columns
    ensures forall k :: 1 <= k <= n ==> NumberedSid(link, k) !in DropLinkFixed(t, link).columns &&
                                        NumberedUuid(link, k) !in DropLinkFixed(t, link).columns
  {
    forall k | 1 <= k <= n
      ensures NumberedSid(link, k) !in DropLinkFixed(t, link).columns && NumberedUuid(link, k) !in DropLinkFixed(t, link).columns
    {
      DropNumberedDrops(t, link, 1, k);
    }
  }

  // ---------------------------------------------------------------- merge_links

  /** The first of the columns sids that holds a value in row, or NaN when none does. */
  function FirstLinked(row: Row, sids: seq<string>): (v: Cell)
    ensures v.None? <==> forall k :: 0 <= k < |sids| ==> Get(row, sids[k]).None?
    ensures v.Some? ==> exists k :: 0 <= k < |sids| && Get(row, sids[k]) == v &&
                                    forall j :: 0 <= j < k ==> Get(row, sids[j]).None?
  {
    if sids == [] then None
    else if Get(row, sids[0]).Some? then Get(row, sids[0])
    else
      var v := FirstLinked(row, sids[1..]);
      if v.Some? then
        var k :| 0 <= k < |sids[1..]| && Get(row, sids[1..][k]) == v && forall j :: 0 <= j < k ==> Get(row, sids[1..][j]).None?;
        assert sids[k + 1] == sids[1..][k];
        v
      else v
  }

  lemma {:induction false} FirstLinkedSnoc(row: Row, sids: seq<string>, s: string)
    ensures FirstLinked(row, sids + [s]) == if FirstLinked(row, sids).Some? then FirstLinked(row, sids) else Get(row, s)
  {
    if sids != [] {
      assert (sids + [s])[1..] == sids[1..] + [s];
      FirstLinkedSnoc(row, sids[1..], s);
    } else {
      assert ([s])[1..] == [];
    }
  }

  /** `df.loc[df[link_name].isnull(), link_name] = df[sid]` */
  function FillFrom(t: Table, ln: string, sid: string): Table
    requires ln in t.columns
  {
    SetColumnValues(t, ln, seq(|t.rows|, i requires 0 <= i < |t.rows| =>
      if Get(t.rows[i], ln).None? then Get(t.rows[i], sid) else Get(t.rows[i], ln)))
  }

  /** `"{sublink}.submitter_id"` for each sublink, in order. */
  function SidColumns(sublinks: seq<string>): (sids: seq<string>)
    ensures |sids| == |sublinks| && forall k :: 0 <= k < |sublinks| ==> sids[k] == SidColumn(sublinks[k])
  {
    seq(|sublinks|, k requires 0 <= k < |sublinks| => SidColumn(sublinks[k]))
  }

  /** Each row of df is the row of t0 with ln set to its first value over sids. */
  predicate FilledFrom(df: Table, t0: Table, ln: string, sids: seq<string>) {
    |df.rows| == |t0.rows| && forall i :: 0 <= i < |t0.rows| ==> df.rows[i] == t0.rows[i][ln := FirstLinked(t0.rows[i], sids)]
  }

  /** `df[link_name] = np.nan` */
  function ClearLink(t: Table, ln: string): (t0: Table)
    ensures t0.columns == AddColumn(t.columns, ln) && |t0.rows| == |t.rows|
    ensures forall i :: 0 <= i < |t.rows| ==> t0.rows[i] == t.rows[i][ln := None]
  {
    SetColumnValues(t, ln, seq(|t.rows|, i => None))
  }

  /**
   * `merge_links(project_id, node, link, links_to_merge)`: the column `{link}.submitter_id`
   * is set to NaN, then filled on each row from the sublinks' columns in list order, so that
   * it ends with the row's first sublink value that is not NaN. A sublink without a column is
   * a KeyError.
   */
  method MergeLinks(t: Table, link: string, sublinks: seq<string>) returns (r: Result<Table, MigrationError>)
    ensures var ln := SidColumn(link);
      match FirstAbsent(SidColumns(sublinks), AddColumn(t.columns, ln))
      case Some(missing) => r == Err(MissingColumn(missing))
      case None =>
        && r.Ok? && r.value.columns == AddColumn(t.columns, ln)
        && FilledFrom(r.value, ClearLink(t, ln), ln, SidColumns(sublinks))
  {
    var ln := SidColumn(link);
    ghost var sids := SidColumns(sublinks);
    var df := ClearLink(t, ln);
    ghost var t0 := df;
    assert sids[..0] == [];
    for k := 0 to |sublinks|
      invariant df.columns == t0.columns
      invariant forall j :: 0 <= j < k ==> sids[j] in t0.columns
      invariant FilledFrom(df, t0, ln, sids[..k])
    {
      var sid := SidColumn(sublinks[k]);
      assert sids[..k + 1] == sids[..k] + [sid];
      if sid !in df.columns {
        FirstAbsentIs(sids, t0.columns, k);
        return Err(MissingColumn(sid));
      }
      FillStep(df, t0, ln, sid, sids[..k]);
      df := FillFrom(df, ln, sid);
    }
    assert sids[..|sublinks|] == sids;
    FirstAbsentNone(sids, t0.columns);
    r := Ok(df);
  }

  /** One sublink more: each row's link is its first value over the sublinks so far. */
  lemma FillStep(prev: Table, t0: Table, ln: string, sid: string, done: seq<string>)
    requires ln in prev.columns
    requires forall i :: 0 <= i < |t0.rows| ==> Get(t0.rows[i], ln).None?
    requires FilledFrom(prev, t0, ln, done)
    ensures FillFrom(prev, ln, sid).columns == prev.columns && FilledFrom(FillFrom(prev, ln, sid), t0, ln, done + [sid])
  {
    var r := FillFrom(prev, ln, sid);
    forall i | 0 <= i < |t0.rows| ensures r.rows[i] == t0.rows[i][ln := FirstLinked(t0.rows[i], done + [sid])] {
      FirstLinkedSnoc(t0.rows[i], done, sid);
    }
  }

  /** The first index whose name is missing is what FirstAbsent reports. */
  lemma {:induction false} FirstAbsentIs(names: seq<string>, cols: seq<string>, k: nat)
    requires k < |names| && names[k] !in cols && forall j :: 0 <= j < k ==> names[j] in cols
    ensures FirstAbsent(names, cols) == Some(names[k])
  {
    if k > 0 {
      FirstAbsentIs(names[1..], cols, k - 1);
    }
  }

  lemma FirstAbsentNone(names: seq<string>, cols: seq<string>)
    requires forall j :: 0 <= j < |names| ==> names[j] in cols
    ensures FirstAbsent(names, cols).None?
  {
  }
}
