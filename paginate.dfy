/**
 * `Gen3Expansion.paginate_query_json`: a node is read from the GraphQL endpoint in pages of
 * `chunk_size` records from `offset` on, until `offset` reaches the count the endpoint reported;
 * a page that comes back as an error halves `chunk_size`, down to 1, where the script exits.
 *
 * The endpoint is an oracle: the count query's answer and the page replies, one per page
 * query, are inputs. A run that has used every reply while the loop would go on ends as OutOfReplies.
 */
module Paginate {
  import opened Wrappers

  /** A page query's reply: `res['data'][node]`, a reply with an `error` key, or anything else. */
  datatype PageReply<T> = Data(records: seq<T>) | ErrorReply | OtherReply

  /** `offset`, `chunk_size` and `total['data'][node]`. */
  datatype Pages<T> = Pages(offset: int, chunkSize: int, total: seq<T>)

  datatype PageError =
    | BadProjectId   // `project_id.split('-', 1)` does not give two parts: ValueError
    | NoCount        // the count query failed: the loop then reads the unbound `qsize`, NameError

  datatype PageOutcome<T> =
    | Done(final: Pages<T>)          // `offset < qsize` became false: `total` is returned
    | OutOfReplies(final: Pages<T>)  // the oracle has no reply left for the next page query
    | Exit                           // an error reply with `chunk_size <= 1`: exit(1)
    | Failed(error: PageError)

  /** One pass of the loop body; None where the script exits. */
  function PageStep<T>(p: Pages<T>, r: PageReply<T>): (q: Option<Pages<T>>)
    ensures q.None? <==> r.ErrorReply? && p.chunkSize <= 1
    ensures q.Some? ==> q.value.chunkSize <= p.chunkSize && (p.chunkSize >= 1 ==> q.value.chunkSize >= 1)
    ensures q.Some? && p.chunkSize >= 0 ==> q.value.chunkSize >= 0 && q.value.offset >= p.offset
  {
    match r
    case Data(records) => Some(Pages(p.offset + p.chunkSize, p.chunkSize, p.total + records))
    case ErrorReply => if p.chunkSize > 1 then Some(p.(chunkSize := p.chunkSize / 2)) else None
    case OtherReply => Some(p)
  }

  /** The loop from p on, one reply per page query. */
  function PageRun<T>(qsize: int, p: Pages<T>, replies: seq<PageReply<T>>): PageOutcome<T>
    decreases |replies|
  {
    if p.offset >= qsize then Done(p)
    else if replies == [] then OutOfReplies(p)
    else match PageStep(p, replies[0])
      case None => Exit
      case Some(q) => PageRun(qsize, q, replies[1..])
  }

  /** `paginate_query_json(node, project_id, props, chunk_size)` given the count query's answer. */
  function PaginateSpec<T>(projectId: Option<string>, count: Option<int>, chunkSize: int,
                           replies: seq<PageReply<T>>): PageOutcome<T>
  {
    if projectId.Some? && '-' !in projectId.value then Failed(BadProjectId)
    else if count.None? then Failed(NoCount)
    else PageRun(count.value, Pages(0, chunkSize, []), replies)
  }

  method PaginateQueryJson<T>(projectId: Option<string>, count: Option<int>, chunkSize: int,
                              replies: seq<PageReply<T>>) returns (outcome: PageOutcome<T>)
    ensures outcome == PaginateSpec(projectId, count, chunkSize, replies)
  {
    if projectId.Some? && '-' !in projectId.value {
      return Failed(BadProjectId);
    }
    if count.None? {
      return Failed(NoCount);
    }
    var qsize := count.value;
    var offset, size, total := 0, chunkSize, [];
    var i := 0;
    while offset < qsize
      invariant i <= |replies|
      invariant PageRun(qsize, Pages(offset, size, total), replies[i..]) == PaginateSpec(projectId, count, chunkSize, replies)
      decreases |replies| - i
    {
      if i == |replies| {
        return OutOfReplies(Pages(offset, size, total));
      }
      assert replies[i..][0] == replies[i] && replies[i..][1..] == replies[i + 1..];
      var r := replies[i];
      i := i + 1;
      match r
      case Data(records) =>
        total := total + records;
        offset := offset + size;
      case ErrorReply =>
        if size > 1 {
          size := size / 2;
        } else {
          return Exit;
        }
      case OtherReply =>
    }
    outcome := Done(Pages(offset, size, total));
  }

  // ---------------------------------------------------------------- properties

  /** The page states at which a page query is sent and answered, in order. */
  function PageTrace<T>(qsize: int, p: Pages<T>, replies: seq<PageReply<T>>): (t: seq<Pages<T>>)
    ensures |t| <= |replies|
    ensures t != [] ==> t[0] == p
    decreases |replies|
  {
    if p.offset >= qsize || replies == [] then []
    else match PageStep(p, replies[0])
      case None => [p]
      case Some(q) => [p] + PageTrace(qsize, q, replies[1..])
  }

  /** The records the data replies among rs carry, in reply order. */
  function RecordsOf<T>(rs: seq<PageReply<T>>): seq<T> {
    if rs == [] then []
    else (if rs[0].Data? then rs[0].records else []) + RecordsOf(rs[1..])
  }

  lemma RecordsOfCons<T>(r: PageReply<T>, rs: seq<PageReply<T>>)
    ensures RecordsOf([r] + rs) == (if r.Data? then r.records else []) + RecordsOf(rs)
  {
    assert ([r] + rs)[1..] == rs;
  }

  /** What a run's outcome says about the k page queries it sent. */
  ghost predicate PagesAccounted<T>(qsize: int, p: Pages<T>, replies: seq<PageReply<T>>, o: PageOutcome<T>, k: nat)
    requires k <= |replies|
  {
    match o
    case Done(f) => f.offset >= qsize && f.total == p.total + RecordsOf(replies[..k])
    case OutOfReplies(f) => k == |replies| && f.offset < qsize && f.total == p.total + RecordsOf(replies)
    case Exit => k >= 1 && replies[k - 1].ErrorReply?
    case Failed(_) => false
  }

  /** One pass of the loop that goes on, in PageRun and in PageTrace. */
  lemma PageContinue<T>(qsize: int, p: Pages<T>, replies: seq<PageReply<T>>, q: Pages<T>)
    requires p.offset < qsize && replies != [] && PageStep(p, replies[0]) == Some(q)
    ensures PageRun(qsize, p, replies) == PageRun(qsize, q, replies[1..])
    ensures PageTrace(qsize, p, replies) == [p] + PageTrace(qsize, q, replies[1..])
  {
  }

  /** The records collected so far, after one more page. */
  lemma RecordsAdd<T>(p: Pages<T>, q: Pages<T>, r: PageReply<T>, used: seq<PageReply<T>>)
    requires PageStep(p, r) == Some(q)
    ensures q.total + RecordsOf(used) == p.total + RecordsOf([r] + used)
  {
    RecordsOfCons(r, used);
    var extra := if r.Data? then r.records else [];
    assert q.total == p.total + extra;
    assert p.total + extra + RecordsOf(used) == p.total + (extra + RecordsOf(used));
  }

  /** Accounting carries over one data, error or other page. */
  lemma AccountedCons<T>(qsize: int, p: Pages<T>, q: Pages<T>, r: PageReply<T>, rest: seq<PageReply<T>>,
                         o: PageOutcome<T>, k: nat)
    requires k <= |rest| && PageStep(p, r) == Some(q)
    requires PagesAccounted(qsize, q, rest, o, k)
    ensures PagesAccounted(qsize, p, [r] + rest, o, k + 1)
  {
    var replies := [r] + rest;
    match o
    case Done(f) =>
      RecordsAdd(p, q, r, rest[..k]);
      assert replies[..k + 1] == [r] + rest[..k];
    case OutOfReplies(f) =>
      RecordsAdd(p, q, r, rest);
    case Exit =>
      assert replies[k] == rest[k - 1];
    case Failed(_) =>
  }

  /**
   * A run that ends has queried exactly the pages it has replies for, and `total` is the
   * records of those replies' data pages, in page order; a finished run has reached the count;
   * a run that exits has just seen an error page.
   */
  lemma {:induction false} PagesAccumulate<T>(qsize: int, p: Pages<T>, replies: seq<PageReply<T>>)
    ensures PagesAccounted(qsize, p, replies, PageRun(qsize, p, replies), |PageTrace(qsize, p, replies)|)
    decreases |replies|
  {
    if p.offset >= qsize || replies == [] {
      assert replies[..0] == [];
      assert p.total + [] == p.total;
    } else {
      var r, rest := replies[0], replies[1..];
      var step := PageStep(p, r);
      if step.Some? {
        var q := step.value;
        PagesAccumulate(qsize, q, rest);
        PageContinue(qsize, p, replies, q);
        assert replies == [r] + rest;
        AccountedCons(qsize, p, q, r, rest, PageRun(qsize, q, rest), |PageTrace(qsize, q, rest)|);
      }
    }
  }

  /**
   * The page state after a reply that does not end the script: a data page moves `offset` on by
   * `chunk_size` and adds its records to `total`, an error page halves `chunk_size`, and any
   * other reply leaves the state as it was.
   */
  ghost predicate PageNext<T>(p: Pages<T>, r: PageReply<T>, q: Pages<T>) {
    match r
    case Data(records) => q == p.(offset := p.offset + p.chunkSize, total := p.total + records)
    case ErrorReply => p.chunkSize > 1 && q == p.(chunkSize := p.chunkSize / 2)
    case OtherReply => q == p
  }

  /** Every state of t is still below the count, and each one follows the one before by its reply. */
  ghost predicate PagesLinked<T>(qsize: int, t: seq<Pages<T>>, replies: seq<PageReply<T>>)
    requires |t| <= |replies|
  {
    && (forall i :: 0 <= i < |t| ==> t[i].offset < qsize)
    && (forall i :: 0 <= i < |t| - 1 ==> PageNext(t[i], replies[i], t[i + 1]))
  }

  /**
   * Along a run each queried page state follows the one before exactly: `offset += chunk_size`
   * and the records added on a data page, `chunk_size / 2` on an error page, nothing otherwise.
   */
  lemma {:induction false} PageTraceLinks<T>(qsize: int, p: Pages<T>, replies: seq<PageReply<T>>)
    ensures PagesLinked(qsize, PageTrace(qsize, p, replies), replies)
    decreases |replies|
  {
    if p.offset < qsize && replies != [] {
      match PageStep(p, replies[0])
      case None =>
      case Some(q) =>
        PageTraceLinks(qsize, q, replies[1..]);
        var u := PageTrace(qsize, q, replies[1..]);
        var t := PageTrace(qsize, p, replies);
        assert t == [p] + u;
        assert t[0] == p;
        forall i | 0 <= i < |t| ensures t[i].offset < qsize {
          if i > 0 { assert t[i] == u[i - 1]; }
        }
        forall i | 0 <= i < |t| - 1 ensures PageNext(t[i], replies[i], t[i + 1]) {
          if i == 0 {
            assert t[1] == u[0] == q;
            assert PageNext(p, replies[0], q);
          } else {
            var j := i - 1;
            assert t[i] == u[j] && t[i + 1] == u[j + 1] && replies[i] == replies[1..][j];
            assert PageNext(u[j], replies[1..][j], u[j + 1]);
          }
        }
    }
  }

  /** Along t `chunk_size` never grows, `offset` never moves back, and `chunk_size` stays at least 1 if it starts so. */
  predicate Shrinking<T>(t: seq<Pages<T>>) {
    && (forall i, j :: 0 <= i <= j < |t| ==> t[j].chunkSize <= t[i].chunkSize && t[i].offset <= t[j].offset)
    && (t != [] && t[0].chunkSize >= 1 ==> forall i :: 0 <= i < |t| ==> t[i].chunkSize >= 1)
  }

  /** One more state in front of a shrinking trace keeps it shrinking. */
  lemma ShrinkingCons<T>(p: Pages<T>, u: seq<Pages<T>>)
    requires Shrinking(u)
    requires u != [] ==> u[0].chunkSize <= p.chunkSize && p.offset <= u[0].offset
    requires u != [] && p.chunkSize >= 1 ==> u[0].chunkSize >= 1
    ensures Shrinking([p] + u)
  {
    var t := [p] + u;
    forall i, j | 0 <= i <= j < |t|
      ensures t[j].chunkSize <= t[i].chunkSize && t[i].offset <= t[j].offset
    {
      if i > 0 {
        assert t[i] == u[i - 1] && t[j] == u[j - 1];
      } else if j > 0 {
        assert t[j] == u[j - 1];
      }
    }
    forall i | 0 <= i < |t| && p.chunkSize >= 1
      ensures t[i].chunkSize >= 1
    {
      if i > 0 {
        assert t[i] == u[i - 1];
      }
    }
  }

  /**
   * Along a run `chunk_size` never grows and never drops below 1 if it started at 1 or more;
   * with a non-negative `chunk_size`, `offset` never moves back.
   */
  lemma {:induction false} PageTraceShape<T>(qsize: int, p: Pages<T>, replies: seq<PageReply<T>>)
    requires p.chunkSize >= 0
    ensures Shrinking(PageTrace(qsize, p, replies))
    decreases |replies|
  {
    if p.offset < qsize && replies != [] {
      match PageStep(p, replies[0])
      case None =>
        assert Shrinking([p]);
      case Some(q) =>
        PageTraceShape(qsize, q, replies[1..]);
        ShrinkingCons(p, PageTrace(qsize, q, replies[1..]));
    }
  }
}
