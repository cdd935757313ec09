/**
 * `dcc_to_gen3.py`: a download manifest from the ICGC data portal (a shell script of
 * `aws s3 cp s3://... .` lines) becomes a gen3-client manifest, a JSON array of
 * object_id / location / size entries, by looking each S3 location up among the indexd
 * records, which are fetched page by page or read from a file.
 *
 * The files and the HTTP replies are inputs: the manifest's lines, the indexd records, and
 * one reply per indexd page query. The manifest text is built as a string.
 */
module DccToGen3 {
  import opened Wrappers
  import opened Strings

  /** An indexd record: `did`, `urls` and `size`, the last as the text `format` prints for it. */
  datatype IndexRecord = IndexRecord(did: string, urls: seq<string>, size: string)

  // ---------------------------------------------------------------- read_dcc_manifest

  const CopyWord := "cp s3"
  const LineEnd := " ."

  /**
   * `^.+cp (s3.+) \.$` matches line with `cp s3` at i: at least one character before it, at
   * least one between `s3` and the closing ` .`, and no newline, which `.` does not match.
   */
  predicate CopyAt(line: string, i: int) {
    && '\n' !in line
    && 1 <= i && i + 6 <= |line| - 2
    && line[i..i + 5] == CopyWord
    && line[|line| - 2..] == LineEnd
  }

  /** The rightmost split at or before j: the first `.+` is greedy. */
  function LastCopyAt(line: string, j: int): (i: Option<int>)
    ensures i.Some? ==> CopyAt(line, i.value) && i.value <= j && forall m :: i.value < m <= j ==> !CopyAt(line, m)
    ensures i.None? ==> forall m :: m <= j ==> !CopyAt(line, m)
    decreases j
  {
    if j < 1 then None
    else if CopyAt(line, j) then Some(j)
    else LastCopyAt(line, j - 1)
  }

  /** `dcc_regex.match(line).groups()[0]`, None where the line does not match. */
  function CopiedPath(line: string): (p: Option<string>)
    ensures p.None? <==> forall i :: !CopyAt(line, i)
  {
    match LastCopyAt(line, |line|)
    case None => None
    case Some(i) => Some(line[i + 3..|line| - 2])
  }

  /** Where `cp s3` occurs twice, the greedy `.+` leaves the second one to the group. */
  lemma RightmostCopy()
    ensures CopiedPath("a cp s3x cp s3y .") == Some("s3y")
  {
    var line := "a cp s3x cp s3y .";
    assert line[9..14] == CopyWord && line[15..] == LineEnd;
    LastCopyAtIs(line, |line|, 9);
    assert line[12..15] == "s3y";
  }

  lemma {:induction false} LastCopyAtIs(line: string, j: int, i: int)
    requires CopyAt(line, i) && i <= j && forall m :: i < m <= j ==> !CopyAt(line, m)
    ensures LastCopyAt(line, j) == Some(i)
    decreases j
  {
    if j != i {
      LastCopyAtIs(line, j - 1, i);
    }
  }

  /** A copied path is `s3`, at least one more character, and then the line's closing ` .`. */
  lemma CopiedPathShape(line: string)
    requires CopiedPath(line).Some?
    ensures var p := CopiedPath(line).value; IsPrefix("s3", p) && |p| >= 3 && IsSuffix(p + LineEnd, line)
  {
    var i := LastCopyAt(line, |line|).value;
    assert line[i + 3..i + 5] == line[i..i + 5][3..5] == CopyWord[3..5] == "s3";
    assert line[i + 3..] == line[i + 3..|line| - 2] + LineEnd;
  }

  /** `read_dcc_manifest()` on the file's lines: the copied paths of the right-stripped lines that match, in file order. */
  function ReadDccManifest(lines: seq<string>): (files: seq<string>)
    ensures |files| <= |lines|
    decreases |lines|
  {
    if lines == [] then []
    else
      var init := ReadDccManifest(lines[..|lines| - 1]);
      match CopiedPath(RStrip(lines[|lines| - 1]))
      case None => init
      case Some(p) => init + [p]
  }

  /** The right-stripped line matches and copies p. */
  predicate Copies(line: string, p: string) {
    CopiedPath(RStrip(line)) == Some(p)
  }

  /** A path is read exactly when some line, right-stripped, matches and copies it. */
  lemma {:induction false} ReadDccManifestHas(lines: seq<string>, p: string)
    ensures p in ReadDccManifest(lines) <==> exists k :: 0 <= k < |lines| && Copies(lines[k], p)
    decreases |lines|
  {
    if lines != [] {
      var n := |lines| - 1;
      var init := lines[..n];
      ReadDccManifestHas(init, p);
      assert forall k :: 0 <= k < n ==> init[k] == lines[k];
      if p in ReadDccManifest(lines) {
        if p !in ReadDccManifest(init) {
          assert Copies(lines[n], p);
        }
      }
      if exists k :: 0 <= k < |lines| && Copies(lines[k], p) {
        var k :| 0 <= k < |lines| && Copies(lines[k], p);
        if k == n {
          assert p in ReadDccManifest(lines);
        }
      }
    }
  }

  /** Every path read starts with `s3`. */
  lemma {:induction false} ReadDccManifestPaths(lines: seq<string>)
    ensures forall k :: 0 <= k < |ReadDccManifest(lines)| ==> IsPrefix("s3", ReadDccManifest(lines)[k])
    decreases |lines|
  {
    if lines != [] {
      ReadDccManifestPaths(lines[..|lines| - 1]);
      var line := RStrip(lines[|lines| - 1]);
      if CopiedPath(line).Some? {
        CopiedPathShape(line);
      }
    }
  }

  // ---------------------------------------------------------------- locs

  datatype DccError = NoUrl(record: nat)  // `irec['urls'][0]` of a record with no URL: IndexError

  /** `{irec['urls'][0]: irec for irec in irecs}`: a later record with the same first URL replaces an earlier one. */
  function Locs(irecs: seq<IndexRecord>): (r: Result<map<string, IndexRecord>, DccError>)
    ensures r.Err? ==> r.error.record < |irecs| && irecs[r.error.record].urls == [] &&
                        forall k :: 0 <= k < r.error.record ==> irecs[k].urls != []
    ensures r.Ok? ==> forall k :: 0 <= k < |irecs| ==> irecs[k].urls != []
    decreases |irecs|
  {
    if irecs == [] then Ok(map[])
    else
      var n := |irecs| - 1;
      var last := irecs[n];
      match Locs(irecs[..n])
      case Err(e) => assert irecs[e.record] == irecs[..n][e.record]; Err(e)
      case Ok(m) =>
        assert forall k :: 0 <= k < n ==> irecs[k] == irecs[..n][k];
        if last.urls == [] then Err(NoUrl(n)) else Ok(m[last.urls[0] := last])
  }

  /** Every key of `locs` is the first URL of a record, and that record is its value. */
  lemma {:induction false} LocsKeys(irecs: seq<IndexRecord>, key: string)
    requires Locs(irecs).Ok? && key in Locs(irecs).value
    ensures var rec := Locs(irecs).value[key]; rec in irecs && rec.urls != [] && rec.urls[0] == key
    decreases |irecs|
  {
    var n := |irecs| - 1;
    var init := irecs[..n];
    if key != irecs[n].urls[0] {
      LocsKeys(init, key);
      assert Locs(irecs).value[key] == Locs(init).value[key];
    }
  }

  /** Every record's first URL is a key of `locs`. */
  lemma {:induction false} LocsCovers(irecs: seq<IndexRecord>, k: nat)
    requires Locs(irecs).Ok? && k < |irecs|
    ensures irecs[k].urls != [] && irecs[k].urls[0] in Locs(irecs).value
    decreases |irecs|
  {
    var n := |irecs| - 1;
    if k < n {
      LocsCovers(irecs[..n], k);
      assert irecs[..n][k] == irecs[k];
    }
  }

  /** A record whose first URL no later record has is the value at that URL: the last record wins. */
  lemma {:induction false} LocsLastWins(irecs: seq<IndexRecord>, k: nat)
    requires Locs(irecs).Ok? && k < |irecs|
    requires forall j :: k < j < |irecs| ==> irecs[j].urls[0] != irecs[k].urls[0]
    ensures irecs[k].urls[0] in Locs(irecs).value && Locs(irecs).value[irecs[k].urls[0]] == irecs[k]
    decreases |irecs|
  {
    var n := |irecs| - 1;
    if k < n {
      var init := irecs[..n];
      assert init[k] == irecs[k];
      forall j | k < j < |init| ensures init[j].urls[0] != init[k].urls[0] {
        assert init[j] == irecs[j];
      }
      LocsLastWins(init, k);
    }
  }

  // ---------------------------------------------------------------- write_manifest

  /** One entry as written: `\n\t{"object_id": "<did>", "location": "<loc>", "size": "<size>"`. */
  function Entry(loc: string, rec: IndexRecord): string {
    "\n\t{" + ObjectIdField(rec.did) + LocationField(loc) + SizeField(rec.size)
  }

  /** `'"object_id": "{}", '.format(object_id)` */
  function ObjectIdField(did: string): string {
    "\"object_id\": \"" + did + "\", "
  }

  /** `'"location": "{}", '.format(loc)` */
  function LocationField(loc: string): string {
    "\"location\": \"" + loc + "\", "
  }

  /** `'"size": "{}"'.format(fsize)` */
  function SizeField(size: string): string {
    "\"size\": \"" + size + "\""
  }

  const NextEntry := "  },"
  const LastEntry := "  }]"

  /** How entry count of total ends. */
  function Closing(count: nat, total: nat): string {
    if count == total then LastEntry else NextEntry
  }

  /** What the manifest file holds, and the location whose `locs[loc]` failed, if one did. */
  datatype Written = Written(text: string, missing: Option<string>)

  /** The file once the loop has handled files, of total locations in all. */
  function ManifestAfter(files: seq<string>, locs: map<string, IndexRecord>, total: nat): (w: Written)
    decreases |files|
  {
    if files == [] then Written("[", None)
    else
      var w := ManifestAfter(files[..|files| - 1], locs, total);
      var loc := files[|files| - 1];
      if w.missing.Some? then w
      else if loc !in locs then Written(w.text, Some(loc))
      else Written(w.text + (Entry(loc, locs[loc]) + Closing(|files|, total)), None)
  }

  /** `write_manifest()`: the text written to the manifest file, and the failed lookup. */
  function WriteManifestSpec(dccFiles: seq<string>, locs: map<string, IndexRecord>): Written {
    ManifestAfter(dccFiles, locs, |dccFiles|)
  }

  /** Once a lookup has failed, nothing more is written. */
  lemma {:induction false} MissingStays(files: seq<string>, locs: map<string, IndexRecord>, total: nat, i: nat)
    requires i <= |files| && ManifestAfter(files[..i], locs, total).missing.Some?
    ensures ManifestAfter(files, locs, total) == ManifestAfter(files[..i], locs, total)
    decreases |files|
  {
    if i < |files| {
      var init := files[..|files| - 1];
      assert init[..i] == files[..i];
      MissingStays(init, locs, total, i);
    } else {
      assert files[..i] == files;
    }
  }

  /** The five writes of one entry append the entry and its closing. */
  lemma EntryWritten(before: string, loc: string, rec: IndexRecord, closing: string)
    ensures before + "\n\t{" + ObjectIdField(rec.did) + LocationField(loc) + SizeField(rec.size) + closing
         == before + (Entry(loc, rec) + closing)
  {
    var o, l, z := ObjectIdField(rec.did), LocationField(loc), SizeField(rec.size);
    Associative(before, "\n\t{", o);
    Associative(before, "\n\t{" + o, l);
    Associative(before, "\n\t{" + o + l, z);
    Associative(before, Entry(loc, rec), closing);
  }

  method WriteManifest(dccFiles: seq<string>, locs: map<string, IndexRecord>) returns (text: string, missing: Option<string>)
    ensures Written(text, missing) == WriteManifestSpec(dccFiles, locs)
  {
    var count := 0;
    var total := |dccFiles|;
    text := "[";
    for i := 0 to |dccFiles|
      invariant count == i
      invariant Written(text, None) == ManifestAfter(dccFiles[..i], locs, total)
    {
      assert dccFiles[..i + 1][..i] == dccFiles[..i];
      var loc := dccFiles[i];
      count := count + 1;
      if loc !in locs {
        MissingStays(dccFiles, locs, total, i + 1);
        return text, Some(loc);
      }
      var fsize := locs[loc].size;
      var objectId := locs[loc].did;
      ghost var before := text;
      text := text + "\n\t{";
      text := text + ObjectIdField(objectId);
      text := text + LocationField(loc);
      text := text + SizeField(fsize);
      var closing;
      if count == |dccFiles| {
        closing := LastEntry;
      } else {
        closing := NextEntry;
      }
      text := text + closing;
      EntryWritten(before, loc, locs[loc], closing);
    }
    assert dccFiles[..|dccFiles|] == dccFiles;
    missing := None;
  }

  /** The entries of files, each closed by `  },`. */
  function Entries(files: seq<string>, locs: map<string, IndexRecord>): string
    requires forall k :: 0 <= k < |files| ==> files[k] in locs
    decreases |files|
  {
    if files == [] then []
    else
      var n := |files| - 1;
      Entries(files[..n], locs) + (Entry(files[n], locs[files[n]]) + NextEntry)
  }

  /** The index of the first location not in locs, if there is one. */
  function FirstMissing(files: seq<string>, locs: map<string, IndexRecord>): (k: Option<nat>)
    ensures k.None? ==> forall j :: 0 <= j < |files| ==> files[j] in locs
    ensures k.Some? ==> k.value < |files| && files[k.value] !in locs && forall j :: 0 <= j < k.value ==> files[j] in locs
  {
    if exists k :: 0 <= k < |files| && files[k] !in locs then
      var k := FirstMissingFrom(files, locs, 0);
      Some(k)
    else None
  }

  function FirstMissingFrom(files: seq<string>, locs: map<string, IndexRecord>, i: nat): (k: nat)
    requires i <= |files| && (exists k :: i <= k < |files| && files[k] !in locs)
    ensures i <= k < |files| && files[k] !in locs && forall j :: i <= j < k ==> files[j] in locs
    decreases |files| - i
  {
    if files[i] !in locs then i else FirstMissingFrom(files, locs, i + 1)
  }

  lemma Associative(a: string, b: string, c: string)
    ensures (a + b) + c == a + (b + c)
  {
  }

  /** Before the last location, the file holds `[` and the entries so far, closed by `  },`. */
  lemma {:induction false} ManifestPrefix(files: seq<string>, locs: map<string, IndexRecord>, total: nat)
    requires |files| < total && forall k :: 0 <= k < |files| ==> files[k] in locs
    ensures ManifestAfter(files, locs, total) == Written("[" + Entries(files, locs), None)
    decreases |files|
  {
    if files != [] {
      var n := |files| - 1;
      ManifestPrefix(files[..n], locs, total);
      var e := Entry(files[n], locs[files[n]]) + NextEntry;
      Associative("[", Entries(files[..n], locs), e);
    }
  }

  /**
   * With every location indexed, the file is `[`, the entries of all but the last each closed
   * by `  },`, and the last entry closed by `  }]`; at the first location that is not, the file
   * holds the entries before it and the lookup fails there.
   */
  lemma ManifestText(dccFiles: seq<string>, locs: map<string, IndexRecord>)
    ensures var w := WriteManifestSpec(dccFiles, locs);
      match FirstMissing(dccFiles, locs)
      case None =>
        w.missing.None? &&
        (dccFiles != [] ==> var n := |dccFiles| - 1;
           w.text == "[" + Entries(dccFiles[..n], locs) + Entry(dccFiles[n], locs[dccFiles[n]]) + LastEntry)
      case Some(k) =>
        w.missing == Some(dccFiles[k]) && w.text == "[" + Entries(dccFiles[..k], locs)
  {
    var total := |dccFiles|;
    match FirstMissing(dccFiles, locs)
    case None =>
      if dccFiles != [] {
        var n := |dccFiles| - 1;
        ManifestPrefix(dccFiles[..n], locs, total);
      }
    case Some(k) =>
      assert dccFiles[..k + 1][..k] == dccFiles[..k];
      ManifestPrefix(dccFiles[..k], locs, total);
      MissingStays(dccFiles, locs, total, k + 1);
  }

  /** A manifest with at least one entry ends with the array's closing `]`. */
  lemma ManifestClosed(dccFiles: seq<string>, locs: map<string, IndexRecord>)
    requires dccFiles != [] && WriteManifestSpec(dccFiles, locs).missing.None?
    ensures var t := WriteManifestSpec(dccFiles, locs).text; IsPrefix("[", t) && IsSuffix("]", t)
  {
    ManifestText(dccFiles, locs);
    if FirstMissing(dccFiles, locs).Some? {
      assert false;
    }
  }

  /** As written: with no locations the file holds only `[`, which is not a JSON array. */
  lemma EmptyManifestUnclosed(locs: map<string, IndexRecord>)
    ensures WriteManifestSpec([], locs) == Written("[", None)
    ensures !IsSuffix("]", WriteManifestSpec([], locs).text)
  {
  }

  /** `write_manifest` with the empty array written `[]`. */
  function WriteManifestFixed(dccFiles: seq<string>, locs: map<string, IndexRecord>): (w: Written)
    ensures dccFiles != [] ==> w == WriteManifestSpec(dccFiles, locs)
  {
    if dccFiles == [] then Written("[]", None) else WriteManifestSpec(dccFiles, locs)
  }

  /** A manifest written without a failed lookup is bracketed as a JSON array, whatever the number of locations. */
  lemma ManifestFixedClosed(dccFiles: seq<string>, locs: map<string, IndexRecord>)
    requires WriteManifestFixed(dccFiles, locs).missing.None?
    ensures var t := WriteManifestFixed(dccFiles, locs).text; IsPrefix("[", t) && IsSuffix("]", t)
  {
    if dccFiles != [] {
      ManifestClosed(dccFiles, locs);
    }
  }

  // ---------------------------------------------------------------- query_indexd, get_indexd

  /** The reply to one indexd page query: JSON with `records`, JSON without, or text that is not JSON. */
  datatype IndexdReply = WithRecords(records: seq<IndexRecord>) | WithoutRecords | NotJson

  /** `query_indexd(api, limit, page)`: `data['records']` if the reply has it, and no records otherwise. */
  function QueryIndexd(reply: IndexdReply): (records: seq<IndexRecord>)
    ensures reply.WithRecords? ==> records == reply.records
    ensures !reply.WithRecords? ==> records == []
  {
    if reply.WithRecords? then reply.records else []
  }

  /** The loop is done after a page of no records, as long as that differs from `limit`. */
  predicate LastPage(limit: int, records: seq<IndexRecord>) {
    |records| != limit && |records| == 0
  }

  /**
   * `get_indexd` from a page on, one reply per page query: the records of all pages read and the
   * next page number; None when the replies run out while the loop would go on.
   */
  function IndexdRun(limit: int, page: int, all: seq<IndexRecord>, replies: seq<IndexdReply>): Option<(seq<IndexRecord>, int)>
    decreases |replies|
  {
    if replies == [] then None
    else
      var records := QueryIndexd(replies[0]);
      if LastPage(limit, records) then Some((all + records, page + 1))
      else IndexdRun(limit, page + 1, all + records, replies[1..])
  }

  method GetIndexd(limit: int, page0: int, replies: seq<IndexdReply>) returns (r: Option<(seq<IndexRecord>, int)>)
    ensures r == IndexdRun(limit, page0, [], replies)
  {
    var allRecords: seq<IndexRecord> := [];
    var page := page0;
    var done := false;
    var i := 0;
    while !done
      invariant i <= |replies|
      invariant !done ==> IndexdRun(limit, page, allRecords, replies[i..]) == IndexdRun(limit, page0, [], replies)
      invariant done ==> Some((allRecords, page)) == IndexdRun(limit, page0, [], replies)
      decreases |replies| - i, !done
    {
      if i == |replies| {
        return None;
      }
      assert replies[i..][0] == replies[i] && replies[i..][1..] == replies[i + 1..];
      var records := QueryIndexd(replies[i]);
      i := i + 1;
      allRecords := allRecords + records;
      if |records| != limit {
        if |records| == 0 {
          done := true;
        }
      }
      page := page + 1;
    }
    r := Some((allRecords, page));
  }

  /** The records of the replies' pages, in page order. */
  function PagesRecords(replies: seq<IndexdReply>): seq<IndexRecord>
    decreases |replies|
  {
    if replies == [] then [] else PagesRecords(replies[..|replies| - 1]) + QueryIndexd(replies[|replies| - 1])
  }

  /**
   * The loop stops at the first page that ends it: it has read pages page0 to page0 + n, and all
   * its records are theirs, in page order.
   */
  lemma {:induction false} GetIndexdStops(limit: int, page0: int, all: seq<IndexRecord>, replies: seq<IndexdReply>, n: nat)
    requires n < |replies| && LastPage(limit, QueryIndexd(replies[n]))
    requires forall k :: 0 <= k < n ==> !LastPage(limit, QueryIndexd(replies[k]))
    ensures IndexdRun(limit, page0, all, replies) == Some((all + PagesRecords(replies[..n + 1]), page0 + n + 1))
    decreases n
  {
    if n == 0 {
      assert replies[..1] == [replies[0]];
      assert [replies[0]][..0] == [];
    } else {
      var rest := replies[1..];
      forall k | 0 <= k < n - 1 ensures !LastPage(limit, QueryIndexd(rest[k])) {
        assert rest[k] == replies[k + 1];
      }
      assert rest[n - 1] == replies[n];
      assert !LastPage(limit, QueryIndexd(replies[0]));
      GetIndexdStops(limit, page0 + 1, all + QueryIndexd(replies[0]), rest, n - 1);
      PagesRecordsCons(replies[0], rest[..n]);
      assert replies[..n + 1] == [replies[0]] + rest[..n];
      assert (all + QueryIndexd(replies[0])) + PagesRecords(rest[..n]) == all + (QueryIndexd(replies[0]) + PagesRecords(rest[..n]));
    }
  }

  lemma {:induction false} PagesRecordsCons(r: IndexdReply, rs: seq<IndexdReply>)
    ensures PagesRecords([r] + rs) == QueryIndexd(r) + PagesRecords(rs)
    decreases |rs|
  {
    if rs != [] {
      var n := |rs| - 1;
      PagesRecordsCons(r, rs[..n]);
      assert ([r] + rs)[..|rs|] == [r] + rs[..n];
    } else {
      assert ([r] + rs)[..0] == [];
    }
  }

  /** Without a page that ends it, the loop asks again and again: with a positive limit, only an empty page stops it. */
  lemma {:induction false} GetIndexdGoesOn(limit: int, page: int, all: seq<IndexRecord>, replies: seq<IndexdReply>)
    requires forall k :: 0 <= k < |replies| ==> !LastPage(limit, QueryIndexd(replies[k]))
    ensures IndexdRun(limit, page, all, replies) == None
    decreases |replies|
  {
    if replies != [] {
      var rest := replies[1..];
      forall k | 0 <= k < |rest| ensures !LastPage(limit, QueryIndexd(rest[k])) {
        assert rest[k] == replies[k + 1];
      }
      GetIndexdGoesOn(limit, page + 1, all + QueryIndexd(replies[0]), rest);
    }
  }

  /** With a limit of 0 an empty page equals the limit, so nothing ends the loop. */
  lemma ZeroLimitGoesOn(page: int, replies: seq<IndexdReply>)
    ensures IndexdRun(0, page, [], replies) == None
  {
    GetIndexdGoesOn(0, page, [], replies);
  }
}
