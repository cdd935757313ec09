/**
 * `Gen3Expansion.summarize_submission`: the replies that `submit_file` logged in its details file
 * are read back chunk by chunk and tallied into valid, invalid and succeeded submitter_ids; the
 * rows of the submitted TSV that none of them names are reported as missing.
 * And `write_tsvs_from_results`: the rows of a submitted file whose submitter_id is listed as invalid.
 */
module Summary {
  import opened Wrappers
  import opened Strings
  import opened Tables
  import FileFormat
  import Submit

  // ---------------------------------------------------------------- one logged chunk

  /** `json.loads` of one chunk of the details file: its `code` key, its `entities` key and `str(d)`. */
  datatype LoggedJson = LoggedJson(code: Option<int>, entities: Option<seq<Submit.Entity>>, text: string)

  /** The entries of `results["responses"]`. */
  datatype ChunkResponse =
    | FailedChunk(chunk: nat, entities: nat)
    | TimedOutChunk(chunk: nat, text: string)
    | SucceededChunk(chunk: nat, entities: nat)

  datatype SummaryError =
    | NotJson                    // json.loads raises
    | NoEntities                 // d['entities'] raises KeyError
    | NoErrorMessage             // an invalid entity without errors: entity['errors'][0] raises IndexError
    | MissingSubmitterIdColumn   // df['submitter_id'] raises KeyError

  /** The three ways the loop reads a chunk, decided by its `code` key alone. */
  datatype Kind = NotOk | NoCode | Ok200

  function KindOf(d: LoggedJson): Kind {
    if d.code.Some? && d.code.value != 200 then NotOk
    else if d.code.None? then NoCode
    else Ok200
  }

  function KindOfResponse(r: ChunkResponse): Kind {
    match r
    case FailedChunk(_, _) => NotOk
    case TimedOutChunk(_, _) => NoCode
    case SucceededChunk(_, _) => Ok200
  }

  /** The lists the loop fills: valid, invalid, messages, succeeded and responses. */
  datatype Tally = Tally(
    valid: seq<string>,
    invalid: seq<string>,
    messages: seq<string>,
    succeeded: seq<string>,
    responses: seq<ChunkResponse>)

  const NoTally := Tally([], [], [], [], [])

  function Plus(a: Tally, b: Tally): Tally {
    Tally(a.valid + b.valid, a.invalid + b.invalid, a.messages + b.messages,
          a.succeeded + b.succeeded, a.responses + b.responses)
  }

  /** What the loop adds for chunk number n (counted from 1), or the exception it raises. */
  function ChunkTally(c: Option<LoggedJson>, n: nat): (r: Result<Tally, SummaryError>)
    ensures r.Ok? ==> r.value.responses != [] && r.value.responses[0].chunk == n
    ensures r.Ok? ==> c.Some? && |r.value.responses| == 1 && KindOfResponse(r.value.responses[0]) == KindOf(c.value)
    ensures r.Ok? ==> |r.value.messages| == |r.value.invalid|
  {
    match c
    case None => Err(NotJson)
    case Some(d) =>
      match KindOf(d)
      case NotOk =>
        (match d.entities
         case None => Err(NoEntities)
         case Some(es) =>
           if !Submit.Explained(es) then Err(NoErrorMessage)
           else Ok(Tally(Submit.ValidIds(es), Submit.InvalidIds(es), Submit.FirstMessages(es), [],
                         [FailedChunk(n, |es|)])))
      case NoCode => Ok(Tally([], [], [], [], [TimedOutChunk(n, d.text)]))
      case Ok200 =>
        (match d.entities
         case None => Err(NoEntities)
         case Some(es) => Ok(Tally([], [], [], Submit.Ids(es), [SucceededChunk(n, |es|)])))
  }

  /** The loop over the first k chunks. */
  function TallyUpTo(chunks: seq<Option<LoggedJson>>, k: nat): Result<Tally, SummaryError>
    requires k <= |chunks|
  {
    if k == 0 then Ok(NoTally)
    else match TallyUpTo(chunks, k - 1)
      case Err(e) => Err(e)
      case Ok(t) =>
        match ChunkTally(chunks[k - 1], k)
        case Err(e) => Err(e)
        case Ok(c) => Ok(Plus(t, c))
  }

  // ---------------------------------------------------------------- the summary

  /** `df['submitter_id'].isin(ids)`: a NaN cell is never in a list of strings. */
  predicate IsIn(v: Cell, ids: seq<string>) {
    v.Some? && v.value in ids
  }

  /** The TSV rows that no succeeded, valid or invalid id names: `df.loc[~df['submitter_id'].isin(submitted)]`. */
  function MissingRows(rows: seq<Row>, submitted: seq<string>): (m: seq<Row>)
    ensures forall r :: r in m <==> r in rows && !IsIn(Get(r, "submitter_id"), submitted)
  {
    Filter(rows, r => !IsIn(Get(r, "submitter_id"), submitted))
  }

  /** `df.loc[df['submitter_id'].isin(ids)]` */
  function RowsIn(rows: seq<Row>, ids: seq<string>): (m: seq<Row>)
    ensures forall r :: r in m <==> r in rows && IsIn(Get(r, "submitter_id"), ids)
  {
    Filter(rows, r => IsIn(Get(r, "submitter_id"), ids))
  }

  /** The three TSVs `write_tsvs=True` writes, each with its file name. */
  datatype Written = Written(
    missingFile: string, missing: Table,
    validFile: string, valid: Table,
    invalidFile: string, invalid: Table)

  datatype SummaryResult = SummaryResult(tally: Tally, missing: seq<Cell>, written: Option<Written>)

  /** What follows the loop: the missing rows, and the three tables when `write_tsvs` is set. */
  function Report(t: Tally, tsv: Table, tsvPath: string, writeTsvs: bool): Result<SummaryResult, SummaryError> {
    if "submitter_id" !in tsv.columns then Err(MissingSubmitterIdColumn)
    else
      var missingRows := MissingRows(tsv.rows, t.succeeded + t.valid + t.invalid);
      var written :=
        if !writeTsvs then None
        else
          var name := NtBasename(tsvPath);
          Some(Written(
            "missing_" + name, Table(tsv.columns, missingRows),
            "valid_" + name, Table(tsv.columns, RowsIn(tsv.rows, t.valid)),
            "invalid_" + name, Table(tsv.columns, RowsIn(tsv.rows, t.invalid))));
      Ok(SummaryResult(t, ColumnValues(missingRows, "submitter_id"), written))
  }

  /** `summarize_submission(tsv, details, write_tsvs)`, given the parsed chunks and the TSV read from tsvPath. */
  function Summarize(chunks: seq<Option<LoggedJson>>, tsv: Table, tsvPath: string, writeTsvs: bool)
    : Result<SummaryResult, SummaryError>
  {
    match TallyUpTo(chunks, |chunks|)
    case Err(e) => Err(e)
    case Ok(t) => Report(t, tsv, tsvPath, writeTsvs)
  }

  /** The `for chunk in chunks` loop, then what follows it. */
  method SummarizeSubmission(chunks: seq<Option<LoggedJson>>, tsv: Table, tsvPath: string, writeTsvs: bool)
    returns (r: Result<SummaryResult, SummaryError>)
    ensures r == Summarize(chunks, tsv, tsvPath, writeTsvs)
  {
    var t := NoTally;
    for i := 0 to |chunks|
      invariant TallyUpTo(chunks, i) == Ok(t)
    {
      var c := ChunkTally(chunks[i], i + 1);
      if c.Err? {
        TallyErrStays(chunks, i + 1, |chunks|);
        return Err(c.error);
      }
      t := Plus(t, c.value);
    }
    r := Report(t, tsv, tsvPath, writeTsvs);
  }

  /** Once a chunk raises, every longer prefix raises the same exception. */
  lemma {:induction false} TallyErrStays(chunks: seq<Option<LoggedJson>>, k: nat, m: nat)
    requires k <= m <= |chunks| && TallyUpTo(chunks, k).Err?
    ensures TallyUpTo(chunks, m) == TallyUpTo(chunks, k)
    decreases m - k
  {
    if k < m {
      TallyErrStays(chunks, k, m - 1);
    }
  }

  // ---------------------------------------------------------------- properties

  /** The three id lists of the tally. */
  datatype IdList = SucceededList | ValidList | InvalidList

  function Pick(t: Tally, w: IdList): seq<string> {
    match w
    case SucceededList => t.succeeded
    case ValidList => t.valid
    case InvalidList => t.invalid
  }

  /**
   * Chunk c reports x for list w: as an entity of a code-200 reply (succeeded), or as a valid
   * (valid) or invalid (invalid) entity of a reply with another code.
   */
  predicate ReportedIn(c: Option<LoggedJson>, x: string, w: IdList) {
    && c.Some? && c.value.entities.Some?
    && match w
       case SucceededList => KindOf(c.value) == Ok200 && x in Submit.Ids(c.value.entities.value)
       case ValidList =>
         KindOf(c.value) == NotOk && exists e :: e in c.value.entities.value && e.valid && e.submitterId == x
       case InvalidList =>
         KindOf(c.value) == NotOk && exists e :: e in c.value.entities.value && !e.valid && e.submitterId == x
  }

  /** The loop raises exactly when some chunk raises. */
  lemma {:induction false} TallyRaises(chunks: seq<Option<LoggedJson>>, k: nat)
    requires k <= |chunks|
    ensures TallyUpTo(chunks, k).Err? <==> exists i :: 0 <= i < k && ChunkTally(chunks[i], i + 1).Err?
  {
    if k > 0 {
      TallyRaises(chunks, k - 1);
      if TallyUpTo(chunks, k - 1).Ok? && ChunkTally(chunks[k - 1], k).Err? {
        assert ChunkTally(chunks[k - 1], (k - 1) + 1).Err?;
      } else if TallyUpTo(chunks, k - 1).Err? {
        var i :| 0 <= i < k - 1 && ChunkTally(chunks[i], i + 1).Err?;
      }
    }
  }

  /**
   * Each chunk gets exactly one response, numbered from 1 and of the chunk's kind (non-200,
   * no code, or success), and each invalid id gets one message.
   */
  lemma {:induction false} TallyResponses(chunks: seq<Option<LoggedJson>>, k: nat)
    requires k <= |chunks| && TallyUpTo(chunks, k).Ok?
    ensures var t := TallyUpTo(chunks, k).value;
      && |t.responses| == k
      && |t.messages| == |t.invalid|
      && forall i :: 0 <= i < k ==>
           chunks[i].Some? && t.responses[i].chunk == i + 1 && KindOfResponse(t.responses[i]) == KindOf(chunks[i].value)
  {
    if k > 0 {
      TallyResponses(chunks, k - 1);
      var t, d := TallyUpTo(chunks, k - 1).value, ChunkTally(chunks[k - 1], k).value;
      var t' := Plus(t, d);
      assert TallyUpTo(chunks, k) == Ok(t');
      forall i | 0 <= i < k
        ensures chunks[i].Some? && t'.responses[i].chunk == i + 1 && KindOfResponse(t'.responses[i]) == KindOf(chunks[i].value)
      {
        if i == k - 1 {
          assert t'.responses[i] == d.responses[0];
        } else {
          assert t'.responses[i] == t.responses[i];
        }
      }
    }
  }

  /** An id lands in succeeded, valid or invalid exactly when some chunk reports it so. */
  lemma {:induction false} TallyMembers(chunks: seq<Option<LoggedJson>>, k: nat, w: IdList)
    requires k <= |chunks| && TallyUpTo(chunks, k).Ok?
    ensures forall x :: x in Pick(TallyUpTo(chunks, k).value, w) <==> exists i :: 0 <= i < k && ReportedIn(chunks[i], x, w)
  {
    if k > 0 {
      TallyMembers(chunks, k - 1, w);
      var t, d := TallyUpTo(chunks, k - 1).value, ChunkTally(chunks[k - 1], k).value;
      var t' := Plus(t, d);
      assert TallyUpTo(chunks, k) == Ok(t');
      assert Pick(t', w) == Pick(t, w) + Pick(d, w);
      ChunkMembers(chunks[k - 1], k, d, w);
      forall x | x in Pick(d, w)
        ensures ReportedIn(chunks[k - 1], x, w)
      {
      }
    }
  }

  /** What one chunk's tally holds, in terms of the chunk. */
  lemma ChunkMembers(c: Option<LoggedJson>, n: nat, d: Tally, w: IdList)
    requires ChunkTally(c, n) == Ok(d)
    ensures forall x :: x in Pick(d, w) <==> ReportedIn(c, x, w)
  {
  }

  /**
   * `missing` lists, in TSV order, the submitter_id of exactly the rows that no succeeded, valid or
   * invalid id names.
   */
  lemma MissingExactly(chunks: seq<Option<LoggedJson>>, tsv: Table, tsvPath: string, writeTsvs: bool)
    requires Summarize(chunks, tsv, tsvPath, writeTsvs).Ok?
    ensures var s := Summarize(chunks, tsv, tsvPath, writeTsvs).value;
      var submitted := s.tally.succeeded + s.tally.valid + s.tally.invalid;
      && s.missing == ColumnValues(MissingRows(tsv.rows, submitted), "submitter_id")
      && (forall r :: r in MissingRows(tsv.rows, submitted) <==> r in tsv.rows && !IsIn(Get(r, "submitter_id"), submitted))
      && (forall v :: v in s.missing ==> !IsIn(v, submitted))
  {
    var s := Summarize(chunks, tsv, tsvPath, writeTsvs).value;
    var submitted := s.tally.succeeded + s.tally.valid + s.tally.invalid;
    var m := MissingRows(tsv.rows, submitted);
    forall v | v in s.missing
      ensures !IsIn(v, submitted)
    {
      var i :| 0 <= i < |m| && s.missing[i] == v;
      assert m[i] in m;
    }
  }

  // ---------------------------------------------------------------- write_tsvs_from_results

  datatype WriteError =
    | Exit                   // not CSV, TSV/TXT or XLSX: exit(1)
    | NoSubmitterIdColumn    // df['submitter_id'] raises KeyError

  /**
   * `write_tsvs_from_results(invalid_ids, filename)` on the table read from filename (after
   * `fillna('')`): the rows whose submitter_id is listed, and the name of the file written.
   */
  function WriteTsvsFromResults(invalidIds: seq<string>, filename: string, t: Table): (r: Result<(Table, string), WriteError>)
    ensures r.Err? <==> FileFormat.FormatOf(filename).None? || "submitter_id" !in t.columns
    ensures r.Ok? ==> r.value.0.columns == t.columns
    ensures r.Ok? ==> forall x :: x in r.value.0.rows <==> x in t.rows && Submit.SidOf(x) in invalidIds
    ensures r.Ok? ==> r.value.1 == "invalid_" + Basename(filename) + ".tsv"
  {
    if FileFormat.FormatOf(filename).None? then Err(Exit)
    else if "submitter_id" !in t.columns then Err(NoSubmitterIdColumn)
    else Ok((Table(t.columns, Filter(t.rows, x => Submit.SidOf(x) in invalidIds)),
             "invalid_" + Basename(filename) + ".tsv"))
  }
}
