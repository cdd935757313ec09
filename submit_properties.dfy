/**
 * What `submit_file` promises about its windows and its `results`, stated on the functional
 * model of its loop (Submit.Run, Submit.Step) and proved for every reply script.
 */
module SubmitProperties {
  import opened Wrappers
  import opened Strings
  import opened Tables
  import FileFormat
  import opened Submit

  // ---------------------------------------------------------------- the requests a run sends

  /** The loop states at which a request is sent and answered, in order. */
  function Trace(df: seq<Row>, st: Loop, replies: seq<Answer>): (t: seq<Loop>)
    ensures |t| <= |replies|
    ensures t != [] ==> t[0] == st
    decreases |replies|
  {
    if !Runs(df, st) || replies == [] then []
    else match Step(df, st, replies[0])
      case Raise(_) => [st]
      case Continue(next) => [st] + Trace(df, next, replies[1..])
  }

  /** The texts the loop appends to `results["details"]` for the given replies. */
  function Bodies(rs: seq<Answer>): (bs: seq<string>)
    ensures |bs| == |rs|
  {
    if rs == [] then [] else [rs[0].body] + Bodies(rs[1..])
  }

  /** The submitter_ids the given replies report as created or updated, reply by reply. */
  function SucceededOf(rs: seq<Answer>): seq<string> {
    if rs == [] then [] else SucceededIds(rs[0]) + SucceededOf(rs[1..])
  }

  /** The submitter_ids the given replies report as invalid, reply by reply. */
  function RejectedOf(rs: seq<Answer>): seq<string> {
    if rs == [] then [] else RejectedIds(rs[0]) + RejectedOf(rs[1..])
  }

  /** f is st after the replies `used`: one count and one `details` entry per reply, and their ids logged. */
  predicate Accounted(st: Loop, f: Loop, used: seq<Answer>) {
    && f.count == st.count + |used|
    && f.results.details == st.results.details + Bodies(used)
    && f.results.succeeded == st.results.succeeded + SucceededOf(used)
    && f.results.failedIds == st.results.failedIds + RejectedOf(used)
  }

  /** Every chunk the loop holds lies inside its window `df[start:start+chunk_size]`. */
  predicate InWindow(df: seq<Row>, st: Loop) {
    forall r :: r in st.chunk ==> r in Window(df, st)
  }

  // ---------------------------------------------------------------- one iteration

  /** An iteration that goes on counts the request and logs one reply, and the ids it reports. */
  lemma StepLogs(df: seq<Row>, st: Loop, a: Answer, next: Loop)
    requires Step(df, st, a) == Continue(next)
    ensures next.count == st.count + 1
    ensures next.results.details == st.results.details + [a.body]
    ensures next.results.succeeded == st.results.succeeded + SucceededIds(a)
    ensures next.results.failedIds == st.results.failedIds + RejectedIds(a)
  {
    var h := HandleReply(a, st.count + 1, Logged(st.results, a));
    assert Step(df, st, a) == Decide(df, st, st.count + 1, h);
  }

  /** The window decision either keeps `start` without growing the window, or advances by a whole window. */
  lemma NextWindowShape(df: seq<Row>, st: Loop, count: nat, timeout: bool, validButFailed: seq<string>,
                        invalid: seq<string>, res: Results, next: Loop)
    requires NextWindow(df, st, count, timeout, validButFailed, invalid, res) == Continue(next)
    ensures next.chunkSize <= st.chunkSize
    ensures st.chunkSize >= 1 ==> next.chunkSize >= 1
    ensures next.start == st.start || (next.start == st.start + st.chunkSize && next.chunkSize == st.chunkSize)
    ensures InWindow(df, st) ==> InWindow(df, next)
  {
    if |validButFailed| > 0 && |invalid| > 0 {
      assert next.chunk == RowsWithIds(st.chunk, validButFailed);
      assert Window(df, next) == Window(df, st);
    }
  }

  /**
   * An iteration that goes on either keeps `start` (a retry or a halving, never growing the window)
   * or advances it by the whole window and keeps `chunk_size`; the chunk stays inside its window.
   */
  lemma StepShape(df: seq<Row>, st: Loop, a: Answer, next: Loop)
    requires Step(df, st, a) == Continue(next)
    ensures next.chunkSize <= st.chunkSize
    ensures st.chunkSize >= 1 ==> next.chunkSize >= 1
    ensures next.start == st.start || (next.start == st.start + st.chunkSize && next.chunkSize == st.chunkSize)
    ensures InWindow(df, st) ==> InWindow(df, next)
    ensures Follows(df, st, next)
  {
    var h := HandleReply(a, st.count + 1, Logged(st.results, a));
    assert Step(df, st, a) == Decide(df, st, st.count + 1, h);
    NextWindowShape(df, st, st.count + 1, h.timeout, h.validButFailed, h.invalid, h.results, next);
  }

  /**
   * An overloaded endpoint halves the window at the same start: the next chunk is
   * `df[start:start+chunk_size//2]`; below two rows the loop raises instead.
   */
  lemma OverloadStep(df: seq<Row>, st: Loop, a: Answer)
    requires a.verdict == Overload
    ensures st.chunkSize >= 2 ==>
      Step(df, st, a) == Continue(Loop(
        st.start, st.chunkSize / 2, Slice(df, st.start, st.start + st.chunkSize / 2), st.count + 1,
        Logged(st.results, a).(responses := st.results.responses + [ReducingChunkSize(a.body)])))
    ensures st.chunkSize < 2 ==> Step(df, st, a) == Raise(TimingOut)
  {
  }

  /** A code-200 reply appends its entities' submitter_ids, in entity order, and advances the window. */
  lemma SuccessStep(df: seq<Row>, st: Loop, a: Answer, es: seq<Entity>)
    requires a.verdict == Success(es)
    ensures Step(df, st, a).Continue?
    ensures var next := Step(df, st, a).next;
      && next.start == st.start + st.chunkSize
      && next.chunkSize == st.chunkSize
      && next.chunk == Window(df, next)
      && next.results.succeeded == st.results.succeeded + Ids(es)
      && next.results.failedIds == st.results.failedIds
      && next.results.failedMessages == st.results.failedMessages
  {
  }

  /**
   * A reply with no code ("Unhandled API response"), a code-500 reply and a reply with any other
   * code are neither an overload nor a retry: the window advances by a whole window at the same
   * size, and no id is logged.
   */
  lemma OtherReplyAdvances(df: seq<Row>, st: Loop, a: Answer)
    requires a.verdict.NoCode? || a.verdict.ServerError? || a.verdict.OtherCode?
    ensures Step(df, st, a).Continue?
    ensures var next := Step(df, st, a).next;
      && next.start == st.start + st.chunkSize
      && next.chunkSize == st.chunkSize
      && next.chunk == Slice(df, st.start + st.chunkSize, st.start + 2 * st.chunkSize)
      && next.results.succeeded == st.results.succeeded
      && next.results.failedIds == st.results.failedIds
      && next.results.failedMessages == st.results.failedMessages
  {
  }

  /**
   * A code 400/403/404 reply logs its invalid entities with their first error message; with both
   * valid and invalid entities the next chunk is the valid rows of this chunk, at the same start;
   * with only valid ones the loop raises; with no valid one it advances.
   */
  lemma RejectedStep(df: seq<Row>, st: Loop, a: Answer, es: ExplainedEntities)
    requires a.verdict == Rejected(es)
    ensures ValidIds(es) != [] && InvalidIds(es) == [] <==> Step(df, st, a) == Raise(AmbiguousFailure)
    ensures Step(df, st, a).Continue? ==>
      var next := Step(df, st, a).next;
      && next.results.failedIds == st.results.failedIds + InvalidIds(es)
      && next.results.failedMessages == st.results.failedMessages + FirstMessages(es)
      && next.results.succeeded == st.results.succeeded
    ensures ValidIds(es) != [] && InvalidIds(es) != [] ==>
      var next := Step(df, st, a).next;
      && Step(df, st, a).Continue?
      && next.start == st.start && next.chunkSize == st.chunkSize
      && next.chunk == RowsWithIds(st.chunk, ValidIds(es))
    ensures ValidIds(es) == [] ==>
      var next := Step(df, st, a).next;
      && Step(df, st, a).Continue?
      && next.start == st.start + st.chunkSize && next.chunkSize == st.chunkSize
      && next.chunk == Window(df, next)
  {
  }

  // ---------------------------------------------------------------- whole runs

  lemma BodiesCons(r: Answer, used: seq<Answer>)
    ensures Bodies([r] + used) == [r.body] + Bodies(used)
  {
    assert ([r] + used)[1..] == used;
  }

  lemma SucceededCons(r: Answer, used: seq<Answer>)
    ensures SucceededOf([r] + used) == SucceededIds(r) + SucceededOf(used)
  {
    assert ([r] + used)[1..] == used;
  }

  lemma RejectedCons(r: Answer, used: seq<Answer>)
    ensures RejectedOf([r] + used) == RejectedIds(r) + RejectedOf(used)
  {
    assert ([r] + used)[1..] == used;
  }

  lemma ConcatAssoc(a: seq<string>, b: seq<string>, c: seq<string>, d: seq<string>)
    requires d == b + c
    ensures a + b + c == a + d
  {
  }

  lemma AccountedCons(st: Loop, next: Loop, f: Loop, r: Answer, used: seq<Answer>)
    requires next.count == st.count + 1
    requires next.results.details == st.results.details + [r.body]
    requires next.results.succeeded == st.results.succeeded + SucceededIds(r)
    requires next.results.failedIds == st.results.failedIds + RejectedIds(r)
    requires Accounted(next, f, used)
    ensures Accounted(st, f, [r] + used)
  {
    BodiesCons(r, used);
    SucceededCons(r, used);
    RejectedCons(r, used);
    ConcatAssoc(st.results.details, [r.body], Bodies(used), Bodies([r] + used));
    ConcatAssoc(st.results.succeeded, SucceededIds(r), SucceededOf(used), SucceededOf([r] + used));
    ConcatAssoc(st.results.failedIds, RejectedIds(r), RejectedOf(used), RejectedOf([r] + used));
  }

  /** What a run's outcome says about the k requests it sent. */
  predicate RunAccounted(df: seq<Row>, st: Loop, replies: seq<Answer>, o: Outcome, k: nat)
    requires k <= |replies|
  {
    match o
    case Finished(f) => !Runs(df, f) && Accounted(st, f, replies[..k])
    case OutOfReplies(f) => k == |replies| && Runs(df, f) && Accounted(st, f, replies)
    case Raised(_) => k >= 1
  }

  /** Unfolding Trace at an iteration that raises. */
  lemma TraceRaise(df: seq<Row>, st: Loop, replies: seq<Answer>, e: SubmitError)
    requires Runs(df, st) && replies != [] && Step(df, st, replies[0]) == Raise(e)
    ensures Trace(df, st, replies) == [st]
  {
  }

  /**
   * A run that ends normally has sent one request per reply it used, logged exactly those
   * replies in `details`, in order, and collected exactly their succeeded and invalid ids;
   * a run stopped for want of replies has used them all.
   */
  lemma {:induction false} RunAccounting(df: seq<Row>, st: Loop, replies: seq<Answer>)
    ensures RunAccounted(df, st, replies, Run(df, st, replies), |Trace(df, st, replies)|)
    decreases |replies|
  {
    if !Runs(df, st) || replies == [] {
      RunAccountingDone(df, st, replies);
    } else {
      var step := Step(df, st, replies[0]);
      if step.Raise? {
        RunRaise(df, st, replies, step.error);
        TraceRaise(df, st, replies, step.error);
      } else {
        RunAccounting(df, step.next, replies[1..]);
        RunAccountingStep(df, st, replies, step.next);
      }
    }
  }

  /** A run that does not start has sent nothing and logged nothing. */
  lemma RunAccountingDone(df: seq<Row>, st: Loop, replies: seq<Answer>)
    requires !Runs(df, st) || replies == []
    ensures RunAccounted(df, st, replies, Run(df, st, replies), |Trace(df, st, replies)|)
  {
    assert replies[..0] == [];
    assert st.results.details + [] == st.results.details;
    assert st.results.succeeded + [] == st.results.succeeded;
    assert st.results.failedIds + [] == st.results.failedIds;
  }

  /** Accounting carries over an iteration that goes on. */
  lemma RunAccountingStep(df: seq<Row>, st: Loop, replies: seq<Answer>, next: Loop)
    requires Runs(df, st) && replies != [] && Step(df, st, replies[0]) == Continue(next)
    requires RunAccounted(df, next, replies[1..], Run(df, next, replies[1..]), |Trace(df, next, replies[1..])|)
    ensures RunAccounted(df, st, replies, Run(df, st, replies), |Trace(df, st, replies)|)
  {
    var rest := replies[1..];
    StepLogs(df, st, replies[0], next);
    TraceContinue(df, st, replies, next);
    RunContinue(df, st, replies, next);
    AccountedLift(df, st, next, replies, Run(df, next, rest), |Trace(df, next, rest)|);
  }

  lemma AccountedLift(df: seq<Row>, st: Loop, next: Loop, replies: seq<Answer>, o: Outcome, k: nat)
    requires replies != [] && k <= |replies| - 1
    requires next.count == st.count + 1
    requires next.results.details == st.results.details + [replies[0].body]
    requires next.results.succeeded == st.results.succeeded + SucceededIds(replies[0])
    requires next.results.failedIds == st.results.failedIds + RejectedIds(replies[0])
    requires RunAccounted(df, next, replies[1..], o, k)
    ensures RunAccounted(df, st, replies, o, k + 1)
  {
    var rest := replies[1..];
    if o.Finished? {
      assert replies[..k + 1] == [replies[0]] + rest[..k];
      AccountedCons(st, next, o.final, replies[0], rest[..k]);
    } else if o.OutOfReplies? {
      assert replies == [replies[0]] + rest;
      AccountedCons(st, next, o.final, replies[0], rest);
    }
  }

  /** b may follow a in a run: see StepShape. */
  predicate Follows(df: seq<Row>, a: Loop, b: Loop) {
    && b.chunkSize <= a.chunkSize
    && (a.chunkSize >= 1 ==> b.chunkSize >= 1)
    && a.start <= b.start
    && (InWindow(df, a) ==> InWindow(df, b))
  }

  /** Unfolding Trace at an iteration that goes on. */
  lemma TraceContinue(df: seq<Row>, st: Loop, replies: seq<Answer>, next: Loop)
    requires Runs(df, st) && replies != [] && Step(df, st, replies[0]) == Continue(next)
    ensures Trace(df, st, replies) == [st] + Trace(df, next, replies[1..])
  {
  }

  /** Each request of a run is sent while the loop condition holds, and each state follows the one before. */
  lemma {:induction false} TraceLinks(df: seq<Row>, st: Loop, replies: seq<Answer>)
    ensures forall i :: 0 <= i < |Trace(df, st, replies)| ==> Runs(df, Trace(df, st, replies)[i])
    ensures forall i :: 0 <= i < |Trace(df, st, replies)| - 1 ==>
      Follows(df, Trace(df, st, replies)[i], Trace(df, st, replies)[i + 1])
    decreases |replies|
  {
    if Runs(df, st) && replies != [] {
      var step := Step(df, st, replies[0]);
      if step.Continue? {
        var next := step.next;
        StepShape(df, st, replies[0], next);
        TraceLinks(df, next, replies[1..]);
        TraceContinue(df, st, replies, next);
      }
    }
  }

  /** Along a chain of states each following the one before, every later state follows every earlier one. */
  lemma {:induction false} ChainFollows(df: seq<Row>, t: seq<Loop>)
    requires forall i :: 0 <= i < |t| - 1 ==> Follows(df, t[i], t[i + 1])
    ensures forall i, j :: 0 <= i <= j < |t| ==> t[j].chunkSize <= t[i].chunkSize && t[i].start <= t[j].start
    ensures forall i :: 0 <= i < |t| ==> (t[0].chunkSize >= 1 ==> t[i].chunkSize >= 1)
    ensures forall i :: 0 <= i < |t| ==> (InWindow(df, t[0]) ==> InWindow(df, t[i]))
  {
    if |t| > 1 {
      var u := t[1..];
      ChainFollows(df, u);
      forall i, j | 0 <= i <= j < |t|
        ensures t[j].chunkSize <= t[i].chunkSize && t[i].start <= t[j].start
      {
        if i > 0 {
          assert t[i] == u[i - 1] && t[j] == u[j - 1];
        } else if j > 0 {
          assert t[j] == u[j - 1] && u[0] == t[1];
        }
      }
      forall i | 0 <= i < |t|
        ensures (t[0].chunkSize >= 1 ==> t[i].chunkSize >= 1) && (InWindow(df, t[0]) ==> InWindow(df, t[i]))
      {
        if i > 0 {
          assert t[i] == u[i - 1] && u[0] == t[1];
        }
      }
    }
  }

  /**
   * Along a run the window never grows, never drops below one row if it started with at least one,
   * `start` never moves back, every request is sent while the loop condition holds, and every chunk
   * lies inside its window.
   */
  lemma TraceShape(df: seq<Row>, st: Loop, replies: seq<Answer>)
    requires InWindow(df, st)
    ensures var t := Trace(df, st, replies);
      && (forall i :: 0 <= i < |t| ==> Runs(df, t[i]) && InWindow(df, t[i]))
      && (forall i, j :: 0 <= i <= j < |t| ==> t[j].chunkSize <= t[i].chunkSize && t[i].start <= t[j].start)
      && (st.chunkSize >= 1 ==> forall i :: 0 <= i < |t| ==> t[i].chunkSize >= 1)
  {
    var t := Trace(df, st, replies);
    TraceLinks(df, st, replies);
    ChainFollows(df, t);
  }

  /** The first window of a run is exactly `df[row_offset:row_offset+chunk_size]`. */
  lemma InitialInWindow(df: seq<Row>, chunkSize: nat, rowOffset: nat)
    ensures InWindow(df, Initial(df, chunkSize, rowOffset))
  {
  }

  /** Duplicate submitter_ids raise before any request is sent, whatever the endpoint would answer. */
  lemma DuplicatesRaiseBeforeAnyRequest(projectId: string, filename: string, t: Table, chunkSize: nat,
                                        rowOffset: nat, replies: seq<Reply>)
    requires FileFormat.FormatOf(filename).Some? && "submitter_id" in t.columns
    requires !Distinct(SubmitterIds(t.rows))
    ensures SubmitFileSpec(projectId, filename, t, chunkSize, rowOffset, replies) == Raised(DuplicateSubmitterIds)
  {
  }

  // ---------------------------------------------------------------- worked examples

  /** 65 rows at chunk size 30, every reply a success: windows of 30, 30 and 5 rows, then the loop ends. */
  lemma SixtyFiveRows(df: seq<Row>, replies: seq<Answer>, es: seq<Entity>)
    requires |df| == 65 && |replies| >= 3
    requires forall i :: 0 <= i < 3 ==> replies[i].verdict == Success(es)
    ensures var t := Trace(df, Initial(df, 30, 0), replies);
      && |t| == 3
      && t[0].chunk == df[0..30] && t[1].chunk == df[30..60] && t[2].chunk == df[60..65]
    ensures Run(df, Initial(df, 30, 0), replies).Finished?
  {
    var s0 := Initial(df, 30, 0);
    SuccessStep(df, s0, replies[0], es);
    var s1 := Step(df, s0, replies[0]).next;
    SuccessStep(df, s1, replies[1], es);
    var s2 := Step(df, s1, replies[1]).next;
    SuccessStep(df, s2, replies[2], es);
    var s3 := Step(df, s2, replies[2]).next;
    assert s3.start == 90 && s3.chunk == [];
    var r1, r2, r3 := replies[1..], replies[2..], replies[3..];
    assert r1[0] == replies[1] && r1[1..] == r2 && r2[0] == replies[2] && r2[1..] == r3;
    assert Trace(df, s2, r2) == [s2];
    assert Trace(df, s1, r1) == [s1, s2];
    assert Run(df, s2, r2) == Finished(s3);
    assert Run(df, s1, r1) == Finished(s3);
  }

  /** With 60 rows the same run sends a third request holding no rows: `start == len(df)` still passes the test. */
  lemma SixtyRowsSendAnEmptyChunk(df: seq<Row>, replies: seq<Answer>, es: seq<Entity>)
    requires |df| == 60 && |replies| >= 3
    requires forall i :: 0 <= i < 3 ==> replies[i].verdict == Success(es)
    ensures var t := Trace(df, Initial(df, 30, 0), replies);
      && |t| == 3 && t[2].start == 60 && t[2].chunk == []
  {
    var s0 := Initial(df, 30, 0);
    SuccessStep(df, s0, replies[0], es);
    var s1 := Step(df, s0, replies[0]).next;
    SuccessStep(df, s1, replies[1], es);
    var s2 := Step(df, s1, replies[1]).next;
    SuccessStep(df, s2, replies[2], es);
    var s3 := Step(df, s2, replies[2]).next;
    assert s2.start == 60 && s2.chunk == [];
    var r1, r2, r3 := replies[1..], replies[2..], replies[3..];
    assert r1[0] == replies[1] && r1[1..] == r2 && r2[0] == replies[2] && r2[1..] == r3;
    assert Trace(df, s2, r2) == [s2];
    assert Trace(df, s1, r1) == [s1, s2];
  }

  /** 65 rows at chunk size 30: an overload on the second window retries rows 30 to 45. */
  lemma OverloadOnSecondWindow(df: seq<Row>, replies: seq<Answer>, es: seq<Entity>)
    requires |df| == 65 && |replies| >= 3
    requires replies[0].verdict == Success(es) && replies[1].verdict == Overload
    ensures var t := Trace(df, Initial(df, 30, 0), replies);
      && |t| >= 3 && t[2].start == 30 && t[2].chunkSize == 15 && t[2].chunk == df[30..45]
  {
    var s0 := Initial(df, 30, 0);
    SuccessStep(df, s0, replies[0], es);
    var s1 := Step(df, s0, replies[0]).next;
    OverloadStep(df, s1, replies[1]);
    var s2 := Step(df, s1, replies[1]).next;
    assert s2.chunk == df[30..45];
    var r1, r2 := replies[1..], replies[2..];
    assert r1[0] == replies[1] && r1[1..] == r2;
    TraceContinue(df, s0, replies, s1);
    TraceContinue(df, s1, r1, s2);
    assert Trace(df, s2, r2) != [];
  }
}
