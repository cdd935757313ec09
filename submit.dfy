/**
 * `Gen3Expansion.submit_file`: a table is sent to the Sheepdog submission endpoint in windows
 * of `chunk_size` rows; each reply is classified and the loop either advances the window,
 * retries only the valid rows of a rejected window, halves the window, or raises.
 *
 * The endpoint is an oracle: the replies it gives, one per request, are the input `replies`.
 * A run that has used every reply while the loop would go on ends as OutOfReplies.
 */
module Submit {
  import opened Wrappers
  import opened Strings
  import opened Tables
  import FileFormat

  // ---------------------------------------------------------------- replies

  /** One entity of a reply: `unique_keys[0].submitter_id`, `valid`, and the `message` of each of its `errors`. */
  datatype Entity = Entity(submitterId: string, valid: bool, errorMessages: seq<string>)

  /** What `json.loads` finds in a reply body: the `code` key and the `entities` key, each possibly absent. */
  datatype SubmitJson = SubmitJson(code: Option<int>, entities: Option<seq<Entity>>)

  /** The outcome of one PUT: the connection dropped, or a body text together with its JSON parse (None: not JSON). */
  datatype Reply =
    | ConnectionAborted
    | Text(body: string, json: Option<SubmitJson>)

  /** The text the loop substitutes for a reply when `requests` raises ConnectionError. */
  const AbortedMarker: string := "Connection aborted."
  const AbortedText: string :=
    "('" + AbortedMarker + "', RemoteDisconnected('Remote end closed connection without response',))"

  /** The value the loop names `response` and appends to `results["details"]`. */
  function BodyOf(r: Reply): string {
    if r.ConnectionAborted? then AbortedText else r.body
  }

  function JsonOf(r: Reply): Option<SubmitJson> {
    if r.Text? then r.json else None
  }

  /** The four plain-text markers of an overloaded endpoint. */
  predicate IsOverload(body: string) {
    || Contains(body, "Request Timeout")
    || Contains(body, "413 Request Entity Too Large")
    || Contains(body, "Connection aborted.")
    || Contains(body, "service failure - try again later")
  }

  function Ids(es: seq<Entity>): (ids: seq<string>)
    ensures |ids| == |es|
    ensures forall i :: 0 <= i < |es| ==> ids[i] == es[i].submitterId
  {
    seq(|es|, i requires 0 <= i < |es| => es[i].submitterId)
  }

  /** The submitter_ids of the entities flagged valid, in entity order. */
  function ValidIds(es: seq<Entity>): (ids: seq<string>)
    ensures forall x :: x in ids <==> exists e :: e in es && e.valid && e.submitterId == x
  {
    if es == [] then []
    else (if es[0].valid then [es[0].submitterId] else []) + ValidIds(es[1..])
  }

  /** The submitter_ids of the entities flagged invalid, in entity order. */
  function InvalidIds(es: seq<Entity>): (ids: seq<string>)
    ensures forall x :: x in ids <==> exists e :: e in es && !e.valid && e.submitterId == x
  {
    if es == [] then []
    else (if !es[0].valid then [es[0].submitterId] else []) + InvalidIds(es[1..])
  }

  /** The entities flagged invalid, in entity order. */
  function InvalidEntities(es: seq<Entity>): seq<Entity> {
    if es == [] then []
    else (if !es[0].valid then [es[0]] else []) + InvalidEntities(es[1..])
  }

  /** An entity is among the invalid ones iff it is in es and flagged invalid. */
  lemma {:induction false} InvalidEntitiesMembers(es: seq<Entity>)
    ensures forall e :: e in InvalidEntities(es) <==> e in es && !e.valid
  {
    if es != [] {
      InvalidEntitiesMembers(es[1..]);
      assert es == [es[0]] + es[1..];
    }
  }

  /** The k-th invalid id is the id of the k-th invalid entity. */
  lemma {:induction false} InvalidIdsOfEntities(es: seq<Entity>)
    ensures |InvalidIds(es)| == |InvalidEntities(es)|
    ensures forall k :: 0 <= k < |InvalidIds(es)| ==> InvalidIds(es)[k] == InvalidEntities(es)[k].submitterId
  {
    if es != [] {
      var rest := es[1..];
      InvalidIdsOfEntities(rest);
      var ids, ies := InvalidIds(rest), InvalidEntities(rest);
      var iv, ie := InvalidIds(es), InvalidEntities(es);
      if !es[0].valid {
        assert iv == [es[0].submitterId] + ids && ie == [es[0]] + ies;
        forall k | 0 < k < |iv| ensures iv[k] == ie[k].submitterId {
          assert iv[k] == ids[k - 1] && ie[k] == ies[k - 1];
        }
      } else {
        assert iv == ids && ie == ies;
      }
    }
  }

  /** Every invalid entity carries at least one error (else `errors[0]` raises). */
  predicate Explained(es: seq<Entity>) {
    forall e :: e in es && !e.valid ==> e.errorMessages != []
  }

  /** Entity lists whose invalid entities all carry an error: what a 400/403/404 reply must hold. */
  type ExplainedEntities = es: seq<Entity> | Explained(es) witness []

  /** The first error message of each invalid entity, in entity order. */
  function FirstMessages(es: seq<Entity>): (ms: seq<string>)
    requires Explained(es)
    ensures |ms| == |InvalidIds(es)|
  {
    if es == [] then []
    else (if !es[0].valid then [es[0].errorMessages[0]] else []) + FirstMessages(es[1..])
  }

  lemma ExplainedTail(es: seq<Entity>)
    requires Explained(es) && es != []
    ensures Explained(es[1..])
  {
    forall e | e in es[1..] && !e.valid ensures e.errorMessages != [] { assert e in es; }
  }

  /** Message k is the first error of the k-th invalid entity. */
  lemma {:induction false} FirstMessagesOfEntities(es: seq<Entity>)
    requires Explained(es)
    ensures |FirstMessages(es)| == |InvalidEntities(es)|
    ensures forall k :: 0 <= k < |FirstMessages(es)| ==>
      InvalidEntities(es)[k].errorMessages != [] && FirstMessages(es)[k] == InvalidEntities(es)[k].errorMessages[0]
  {
    if es != [] {
      var rest := es[1..];
      ExplainedTail(es);
      FirstMessagesOfEntities(rest);
      var ms, ies := FirstMessages(rest), InvalidEntities(rest);
      var fm, ie := FirstMessages(es), InvalidEntities(es);
      if !es[0].valid {
        assert es[0] in es;
        assert fm == [es[0].errorMessages[0]] + ms && ie == [es[0]] + ies;
      } else {
        assert fm == ms && ie == ies;
      }
      assert |fm| == |ie|;
      forall k | 0 <= k < |fm| ensures ie[k].errorMessages != [] && fm[k] == ie[k].errorMessages[0] {
        if es[0].valid {
          assert fm[k] == ms[k] && ie[k] == ies[k];
        } else if k > 0 {
          assert fm[k] == ms[k - 1] && ie[k] == ies[k - 1];
        }
      }
    }
  }

  /** How the loop reads a reply, in the order of its tests. */
  datatype Verdict =
    | Overload                    // a marker: halve the window
    | MessageWithoutCode          // the branch that reads the unbound name `res`: NameError
    | NoCode                      // "Unhandled API response"
    | Unparseable                 // json.loads or a key lookup failed inside the try: Gen3Error
    | Success(entities: seq<Entity>)
    | Rejected(failed: ExplainedEntities)  // code 400, 403 or 404
    | ServerError                 // code 500
    | OtherCode                   // any other code: nothing is logged

  function Classify(r: Reply): (v: Verdict)
    ensures v.Success? || v.Rejected? ==> JsonOf(r).Some? && !IsOverload(BodyOf(r))
    ensures v.Overload? <==> IsOverload(BodyOf(r))
  {
    var body := BodyOf(r);
    if IsOverload(body) then Overload
    else if Contains(body, "\"message\": ") && !Contains(body, "code") then MessageWithoutCode
    else if !Contains(body, "code") then NoCode
    else match JsonOf(r)
      case None => Unparseable
      case Some(j) =>
        match j.code
        case None => NoCode
        case Some(c) =>
          if c == 200 then
            (if j.entities.None? then Unparseable else Success(j.entities.value))
          else if c == 400 || c == 403 || c == 404 then
            var es := j.entities.GetOr([]);
            if Explained(es) then Rejected(es) else Unparseable
          else if c == 500 then ServerError
          else OtherCode
  }

  /** A dropped connection is read as an overload: its substitute text holds "Connection aborted.". */
  lemma ConnectionAbortedIsOverload()
    ensures Classify(ConnectionAborted) == Overload
  {
    var head, tail := "('", "', RemoteDisconnected('Remote end closed connection without response',))";
    assert AbortedText == head + (AbortedMarker + tail);
    assert AbortedText[2..] == AbortedMarker + tail;
    assert AbortedText[2..2 + |AbortedMarker|] == AbortedMarker;
    ContainsAt(AbortedText, AbortedMarker, 2);
  }

  /** A reply as the loop body sees it: the text it logs and how the tests read it. */
  datatype Answer = Answer(body: string, verdict: Verdict)

  function AnswerOf(r: Reply): (a: Answer)
    ensures a.body == BodyOf(r) && a.verdict == Classify(r)
  {
    Answer(BodyOf(r), Classify(r))
  }

  function Answers(rs: seq<Reply>): (as_: seq<Answer>)
    ensures |as_| == |rs|
    ensures forall i :: 0 <= i < |rs| ==> as_[i] == AnswerOf(rs[i])
  {
    seq(|rs|, i requires 0 <= i < |rs| => AnswerOf(rs[i]))
  }

  // ---------------------------------------------------------------- loop state

  /** The entries of `results["responses"]`. */
  datatype Note =
    | ReducingChunkSize(response: string)
    | ChunkSucceeded(chunk: nat, entities: nat)
    | ChunkFailed(chunk: nat, entities: nat)
    | UnhandledResponse(response: string)
    | InternalServerError(response: string)

  /** `results`: failed.messages, failed.submitter_ids, details, succeeded, responses. */
  datatype Results = Results(
    failedMessages: seq<string>,
    failedIds: seq<string>,
    details: seq<string>,
    succeeded: seq<string>,
    responses: seq<Note>)

  const NoResults := Results([], [], [], [], [])

  /** The loop's variables: `start`, `chunk_size`, `chunk`, `count` and `results`. */
  datatype Loop = Loop(start: nat, chunkSize: nat, chunk: seq<Row>, count: nat, results: Results)

  datatype SubmitError =
    | UnsupportedFormat        // Gen3UserError: not CSV, TSV/TXT or XLSX
    | NoSubmitterIdColumn      // `df.submitter_id` raises AttributeError
    | DuplicateSubmitterIds    // Gen3Error before any request
    | BadProjectId             // `project_id.split("-", 1)` does not give two parts
    | UnboundResponseName      // the '"message": ' branch reads `res`, which is never bound
    | UnparseableResponse      // Gen3Error "Unable to parse API response as JSON!"
    | AmbiguousFailure         // only valid entities failed: Gen3Error
    | TimingOut                // overloaded with chunk_size < 2: Gen3SubmissionError

  datatype StepResult = Continue(next: Loop) | Raise(error: SubmitError)

  datatype Outcome =
    | Finished(final: Loop)      // the loop condition became false; `results` is returned
    | OutOfReplies(final: Loop)  // the oracle has no reply left for the next request
    | Raised(error: SubmitError)

  // ---------------------------------------------------------------- windows

  function Min(a: int, b: int): int {
    if a <= b then a else b
  }

  /** `df[lo:hi]` for non-negative bounds. */
  function Slice(df: seq<Row>, lo: nat, hi: nat): (s: seq<Row>)
    ensures |s| == (if lo >= |df| || hi <= lo then 0 else Min(hi, |df|) - lo)
    ensures lo < |df| && lo < hi ==> s == df[lo..Min(hi, |df|)]
  {
    if lo >= |df| || hi <= lo then [] else df[lo..Min(hi, |df|)]
  }

  /** The submitter_id of a row after `fillna("")`. */
  function SidOf(r: Row): string {
    Get(r, "submitter_id").GetOr("")
  }

  function SubmitterIds(rows: seq<Row>): (ids: seq<string>)
    ensures |ids| == |rows|
    ensures forall i :: 0 <= i < |rows| ==> ids[i] == SidOf(rows[i])
  {
    seq(|rows|, i requires 0 <= i < |rows| => SidOf(rows[i]))
  }

  /** `chunk.loc[df["submitter_id"].isin(ids)]` */
  function RowsWithIds(chunk: seq<Row>, ids: seq<string>): (rs: seq<Row>)
    ensures forall r :: r in rs <==> r in chunk && SidOf(r) in ids
  {
    Filter(chunk, r => SidOf(r) in ids)
  }

  /** The window the loop would send from `start` at the current `chunk_size`. */
  function Window(df: seq<Row>, st: Loop): seq<Row> {
    Slice(df, st.start, st.start + st.chunkSize)
  }

  /** The loop's condition: `start + len(chunk) <= len(df)`. */
  predicate Runs(df: seq<Row>, st: Loop) {
    st.start + |st.chunk| <= |df|
  }

  function Initial(df: seq<Row>, chunkSize: nat, rowOffset: nat): Loop {
    Loop(rowOffset, chunkSize, Slice(df, rowOffset, rowOffset + chunkSize), 0, NoResults)
  }

  /** The new state after a reply that neither overloads nor asks for a retry: the next window. */
  function Advance(df: seq<Row>, st: Loop, count: nat, res: Results): Loop {
    var start := st.start + st.chunkSize;
    Loop(start, st.chunkSize, Slice(df, start, start + st.chunkSize), count, res)
  }

  /** What handling a reply leaves for the window decision: the loop's `timeout`, `valid_but_failed` and `invalid`. */
  datatype Handled =
    | Handled(timeout: bool, validButFailed: seq<string>, invalid: seq<string>, results: Results)
    | Abort(error: SubmitError)

  /** The submitter_ids a reply adds to `succeeded`: those of a code-200 reply, in entity order. */
  function SucceededIds(a: Answer): seq<string> {
    match a.verdict
    case Success(es) => Ids(es)
    case _ => []
  }

  /** The submitter_ids a reply adds to `failed.submitter_ids`: the invalid entities of a 400/403/404 reply. */
  function RejectedIds(a: Answer): seq<string> {
    match a.verdict
    case Rejected(es) => InvalidIds(es)
    case _ => []
  }

  /** "Handle the API response": the logging and the lists each kind of reply fills. */
  function HandleReply(a: Answer, count: nat, res: Results): (h: Handled)
    ensures h.Abort? <==> a.verdict.MessageWithoutCode? || a.verdict.Unparseable?
    ensures h.Handled? ==> h.results.details == res.details
    ensures h.Handled? ==> h.results.succeeded == res.succeeded + SucceededIds(a)
    ensures h.Handled? ==> h.results.failedIds == res.failedIds + RejectedIds(a)
    ensures h.Handled? ==> (h.timeout <==> a.verdict.Overload?)
    ensures h.Handled? && (h.validButFailed != [] || h.invalid != []) ==> a.verdict.Rejected?
  {
    var body := a.body;
    match a.verdict
    case Overload =>
      Handled(true, [], [], res.(responses := res.responses + [ReducingChunkSize(body)]))
    case MessageWithoutCode => Abort(UnboundResponseName)
    case Unparseable => Abort(UnparseableResponse)
    case NoCode =>
      Handled(false, [], [], res.(responses := res.responses + [UnhandledResponse(body)]))
    case ServerError =>
      Handled(false, [], [], res.(responses := res.responses + [InternalServerError(body)]))
    case OtherCode =>
      Handled(false, [], [], res)
    case Success(es) =>
      Handled(false, [], [], res.(
        responses := res.responses + [ChunkSucceeded(count, |es|)],
        succeeded := res.succeeded + Ids(es)))
    case Rejected(es) =>
      Handled(false, ValidIds(es), InvalidIds(es), res.(
        responses := res.responses + [ChunkFailed(count, |es|)],
        failedMessages := res.failedMessages + FirstMessages(es),
        failedIds := res.failedIds + InvalidIds(es)))
  }

  /** The choice of the next window: retry the valid rows, raise, advance, or halve. */
  function NextWindow(df: seq<Row>, st: Loop, count: nat, timeout: bool, validButFailed: seq<string>,
                      invalid: seq<string>, res: Results): StepResult
  {
    if |validButFailed| > 0 && |invalid| > 0 then
      Continue(Loop(st.start, st.chunkSize, RowsWithIds(st.chunk, validButFailed), count, res))
    else if |validButFailed| > 0 then Raise(AmbiguousFailure)
    else if !timeout then Continue(Advance(df, st, count, res))
    else if st.chunkSize >= 2 then
      var size := st.chunkSize / 2;
      Continue(Loop(st.start, size, Slice(df, st.start, st.start + size), count, res))
    else Raise(TimingOut)
  }

  /** `results` with the reply appended to `details`, as every iteration does first. */
  function Logged(res: Results, a: Answer): Results {
    res.(details := res.details + [a.body])
  }

  /** The rest of an iteration once the reply has been handled. */
  function Decide(df: seq<Row>, st: Loop, count: nat, h: Handled): StepResult {
    match h
    case Abort(e) => Raise(e)
    case Handled(timeout, valid, invalid, res) => NextWindow(df, st, count, timeout, valid, invalid, res)
  }

  /** One iteration of the loop body, given the reply to the request carrying `st.chunk`. */
  function Step(df: seq<Row>, st: Loop, a: Answer): StepResult {
    Decide(df, st, st.count + 1, HandleReply(a, st.count + 1, Logged(st.results, a)))
  }

  /** The loop from state st on, consuming one reply per request. */
  function Run(df: seq<Row>, st: Loop, replies: seq<Answer>): Outcome
    decreases |replies|
  {
    if !Runs(df, st) then Finished(st)
    else if replies == [] then OutOfReplies(st)
    else match Step(df, st, replies[0])
      case Raise(e) => Raised(e)
      case Continue(next) => Run(df, next, replies[1..])
  }

  /** One iteration of Run that goes on. */
  lemma RunContinue(df: seq<Row>, st: Loop, replies: seq<Answer>, next: Loop)
    requires Runs(df, st) && replies != [] && Step(df, st, replies[0]) == Continue(next)
    ensures Run(df, st, replies) == Run(df, next, replies[1..])
  {
  }

  /** One iteration of Run that raises. */
  lemma RunRaise(df: seq<Row>, st: Loop, replies: seq<Answer>, e: SubmitError)
    requires Runs(df, st) && replies != [] && Step(df, st, replies[0]) == Raise(e)
    ensures Run(df, st, replies) == Raised(e)
  {
  }

  /** `submit_file(project_id, filename, chunk_size, row_offset)` on the table read from filename. */
  function SubmitFileSpec(projectId: string, filename: string, t: Table, chunkSize: nat, rowOffset: nat,
                          replies: seq<Reply>): Outcome
  {
    if FileFormat.FormatOf(filename).None? then Raised(UnsupportedFormat)
    else if "submitter_id" !in t.columns then Raised(NoSubmitterIdColumn)
    else if !Distinct(SubmitterIds(t.rows)) then Raised(DuplicateSubmitterIds)
    else if '-' !in projectId then Raised(BadProjectId)
    else Run(t.rows, Initial(t.rows, chunkSize, rowOffset), Answers(replies))
  }

  // ---------------------------------------------------------------- the loop, imperatively

  method SubmitFile(projectId: string, filename: string, t: Table, chunkSize: nat, rowOffset: nat,
                    replies: seq<Reply>) returns (outcome: Outcome)
    ensures outcome == SubmitFileSpec(projectId, filename, t, chunkSize, rowOffset, replies)
  {
    if FileFormat.FormatOf(filename).None? {
      return Raised(UnsupportedFormat);
    }
    if "submitter_id" !in t.columns {
      return Raised(NoSubmitterIdColumn);
    }
    if !Distinct(SubmitterIds(t.rows)) {
      return Raised(DuplicateSubmitterIds);
    }
    if '-' !in projectId {
      return Raised(BadProjectId);
    }
    outcome := SubmitChunks(t.rows, chunkSize, rowOffset, replies);
  }

  /** The `while` loop of `submit_file`, from `start = row_offset` and `chunk = df[start:start+chunk_size]`. */
  method SubmitChunks(df: seq<Row>, chunkSize: nat, rowOffset: nat, replies: seq<Reply>) returns (outcome: Outcome)
    ensures outcome == Run(df, Initial(df, chunkSize, rowOffset), Answers(replies))
  {
    var st := Initial(df, chunkSize, rowOffset);
    ghost var answers := Answers(replies);
    var i := 0;
    while st.start + |st.chunk| <= |df|
      invariant i <= |replies|
      invariant Run(df, st, answers[i..]) == Run(df, Initial(df, chunkSize, rowOffset), answers)
      decreases |replies| - i
    {
      if i == |replies| {
        return OutOfReplies(st);
      }
      var answer := AnswerOf(replies[i]);
      ghost var rest := answers[i..];
      assert rest[0] == answer && rest[1..] == answers[i + 1..];
      var step := Iterate(df, st, answer);
      i := i + 1;
      match step
      case Raise(e) =>
        RunRaise(df, st, rest, e);
        return Raised(e);
      case Continue(next) =>
        RunContinue(df, st, rest, next);
        st := next;
    }
    outcome := Finished(st);
  }

  /** The body of the `while` loop once the reply is read: handle it, then choose the next window. */
  method Iterate(df: seq<Row>, st: Loop, answer: Answer) returns (step: StepResult)
    ensures step == Step(df, st, answer)
  {
    var count := st.count + 1;
    var handled := HandleReply(answer, count, Logged(st.results, answer));
    step := ChooseWindow(df, st, count, handled);
  }

  /** The tail of the loop body: retry the valid rows, raise, advance, or halve. */
  method ChooseWindow(df: seq<Row>, st: Loop, count: nat, handled: Handled) returns (step: StepResult)
    ensures step == Decide(df, st, count, handled)
  {
    if handled.Abort? {
      return Raise(handled.error);
    }
    var start, size, chunk := st.start, st.chunkSize, st.chunk;
    var validButFailed, invalid := handled.validButFailed, handled.invalid;
    if |validButFailed| > 0 && |invalid| > 0 {
      chunk := RowsWithIds(chunk, validButFailed);
    } else if |validButFailed| > 0 {
      return Raise(AmbiguousFailure);
    } else if !handled.timeout {
      start := start + size;
      chunk := Slice(df, start, start + size);
    } else if size >= 2 {
      size := size / 2;
      chunk := Slice(df, start, start + size);
    } else {
      return Raise(TimingOut);
    }
    step := Continue(Loop(start, size, chunk, count, handled.results));
  }
}
