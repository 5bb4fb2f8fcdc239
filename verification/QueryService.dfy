/** What Run of internal/query/service.go does around the cluster: classification, the read-only guard, and the
    invalidation of the schema cache. */
module QueryService {
  import opened Sequences
  import opened StatementLexer
  import opened Classifier
  import opened ReadOnlyGuard
  import EmptyStatements
  import Kinds = StatementKinds
  import opened Options
  import Cache = SchemaCache

  /** A request with all that decides its course from outside: whether its connection is known and read-only, whether a
      session is to be had, whether its page state decodes, how many rows the cluster has for it, and whether it reports
      success in the end. */
  datatype Request = Request(
    connID: string, known: bool, readOnly: bool, cql: string, session: bool, pageSize: int, pageState: bool,
    available: nat, success: bool)

  datatype Outcome = UnknownConnection | Refused(error: Error) | ReadOnlyConnection | NoSession | InvalidPageState | Failed
    | Done(kind: Kind, rows: nat)

  /** A statement that was handed to the cluster. */
  datatype Execution = Execution(connID: string, readOnly: bool, cql: string)

  /** What is handed to the history. */
  datatype Record = Record(connID: string, cql: string, kind: Kind, success: bool)

  const MAX_PAGE := 1000
  const DEFAULT_PAGE := 100
  const DEFAULT_ROWS := 5000

  // ----- what is to happen -----

  /** The rows of one page: of a size in range, and of no more than the cap. */
  function PageRows(pageSize: int, maxRows: nat): nat {
    var size := if 0 < pageSize <= MAX_PAGE then pageSize else DEFAULT_PAGE;
    if size > maxRows then maxRows else size
  }

  function Least(a: nat, b: nat): nat {
    if a < b then a else b
  }

  ghost function OutcomeOf(r: Request, maxRows: nat): Outcome {
    if !r.known then UnknownConnection
    else match Classified(r.cql)
      case Rejected(_, e) => Refused(e)
      case Accepted(kind) =>
        if r.readOnly && !IsReadOnly(kind) then ReadOnlyConnection
        else if !r.session then NoSession
        else if !r.pageState then InvalidPageState
        else if !r.success then Failed
        else Done(kind, Least(r.available, PageRows(r.pageSize, maxRows)))
  }

  ghost function Executed(r: Request, maxRows: nat): seq<Execution> {
    if OutcomeOf(r, maxRows).Failed? || OutcomeOf(r, maxRows).Done? then [Execution(r.connID, r.readOnly, r.cql)] else []
  }

  ghost function Invalidated<V>(r: Request, maxRows: nat): seq<Cache.Event<V>> {
    match OutcomeOf(r, maxRows)
    case Done(kind, _) => if IsDDL(kind) then Cache.Invalidations(r.connID) else []
    case _ => []
  }

  ghost function Recorded(r: Request, maxRows: nat): seq<Record> {
    match OutcomeOf(r, maxRows)
    case UnknownConnection => []
    case NoSession => []
    case InvalidPageState => []
    case o => [Record(r.connID, r.cql, Classified(r.cql).kind, o.Done?)]
  }

  ghost function ExecutedAll(requests: seq<Request>, maxRows: nat): seq<Execution> {
    if requests == [] then []
    else ExecutedAll(requests[..|requests| - 1], maxRows) + Executed(requests[|requests| - 1], maxRows)
  }

  ghost function InvalidatedAll<V>(requests: seq<Request>, maxRows: nat): seq<Cache.Event<V>> {
    if requests == [] then []
    else InvalidatedAll(requests[..|requests| - 1], maxRows) + Invalidated(requests[|requests| - 1], maxRows)
  }

  ghost function RecordedAll(requests: seq<Request>, maxRows: nat): seq<Record> {
    if requests == [] then []
    else RecordedAll(requests[..|requests| - 1], maxRows) + Recorded(requests[|requests| - 1], maxRows)
  }

  lemma Unhindered<V>(r: Request, maxRows: nat, kind: Kind)
    requires r.known && Classified(r.cql) == Accepted(kind) && (r.readOnly ==> IsReadOnly(kind)) && r.session && r.pageState
    ensures Executed(r, maxRows) == [Execution(r.connID, r.readOnly, r.cql)]
    ensures Invalidated<V>(r, maxRows) == if r.success && IsDDL(kind) then Cache.Invalidations(r.connID) else []
    ensures Recorded(r, maxRows) == [Record(r.connID, r.cql, kind, r.success)]
  {
  }

  lemma Stopped<V>(r: Request, maxRows: nat)
    requires !OutcomeOf(r, maxRows).Failed? && !OutcomeOf(r, maxRows).Done?
    ensures Executed(r, maxRows) == [] && Invalidated<V>(r, maxRows) == []
    ensures Recorded(r, maxRows) == if OutcomeOf(r, maxRows).Refused? || OutcomeOf(r, maxRows).ReadOnlyConnection?
      then [Record(r.connID, r.cql, Classified(r.cql).kind, false)] else []
  {
  }

  // ----- the service -----

  class Service<V> {
    const schema: Cache.SchemaService<V>
    const maxRows: nat
    var log: seq<Execution>
    var history: seq<Record>

    constructor (schema: Cache.SchemaService<V>, maxRows: int)
      ensures this.schema == schema && log == [] && history == []
      ensures this.maxRows == if maxRows <= 0 then 5000 else maxRows
    {
      this.schema := schema;
      this.maxRows := if maxRows <= 0 then DEFAULT_ROWS else maxRows;
      log := [];
      history := [];
    }

    // One logical page of the rows the cluster has.
    method Page(available: nat, pageSize: int) returns (rows: nat)
      ensures rows == Least(available, PageRows(pageSize, maxRows))
    {
      var size := pageSize;
      if size <= 0 || size > MAX_PAGE {
        size := DEFAULT_PAGE;
      }
      var rowCap := size;
      if rowCap > maxRows {
        rowCap := maxRows;
      }
      rows := 0;
      while rows < rowCap
        invariant rows <= rowCap && rows <= available
      {
        if rows == available {
          break;
        }
        rows := rows + 1;
      }
    }

    // What Run does once nothing is in the way of the execution.
    method Execute(r: Request, kind: Kind, ghost now: int) returns (outcome: Outcome)
      requires schema.cache.Agrees(now)
      modifies this, schema.cache
      ensures outcome == if r.success then Done(kind, Least(r.available, PageRows(r.pageSize, maxRows))) else Failed
      ensures log == old(log) + [Execution(r.connID, r.readOnly, r.cql)]
      ensures history == old(history) + [Record(r.connID, r.cql, kind, r.success)]
      ensures schema.cache.Agrees(now)
      ensures schema.cache.trace
        == old(schema.cache.trace) + (if r.success && IsDDL(kind) then Cache.Invalidations(r.connID) else [])
    {
      log := log + [Execution(r.connID, r.readOnly, r.cql)];
      var rows := Page(r.available, r.pageSize);
      if !r.success {
        history := history + [Record(r.connID, r.cql, kind, false)];
        return Failed;
      }
      if IsDDL(kind) {
        schema.InvalidateConn(r.connID, now);
      }
      history := history + [Record(r.connID, r.cql, kind, true)];
      return Done(kind, rows);
    }

    method Run(r: Request, ghost now: int) returns (outcome: Outcome)
      requires schema.cache.Agrees(now)
      modifies this, schema.cache
      ensures outcome == OutcomeOf(r, maxRows) && log == old(log) + Executed(r, maxRows)
      ensures history == old(history) + Recorded(r, maxRows)
      ensures schema.cache.Agrees(now) && schema.cache.trace == old(schema.cache.trace) + Invalidated(r, maxRows)
      ensures schema.cache.trace == old(schema.cache.trace)
        + (if outcome.Done? && Kinds.BeginsWith(r.cql, Kinds.DDL_WORDS) then Cache.Invalidations(r.connID) else [])
      ensures log == old(log)
        + (if Admitted(r) && r.session && r.pageState then [Execution(r.connID, r.readOnly, r.cql)] else [])
    {
      InvalidatedByOutcome<V>(r, maxRows);
      ExecutesExactly(r, maxRows);
      ghost var o := OutcomeOf(r, maxRows);
      if !o.Failed? && !o.Done? {
        Stopped<V>(r, maxRows);
      }
      if !r.known {
        return UnknownConnection;
      }
      var verdict := Classify(r.cql);
      if verdict.Rejected? {
        history := history + [Record(r.connID, r.cql, verdict.kind, false)];
        return Refused(verdict.error);
      }
      if r.readOnly && !IsReadOnly(verdict.kind) {
        history := history + [Record(r.connID, r.cql, verdict.kind, false)];
        return ReadOnlyConnection;
      }
      if !r.session {
        return NoSession;
      }
      if !r.pageState {
        return InvalidPageState;
      }
      Unhindered<V>(r, maxRows, verdict.kind);
      outcome := Execute(r, verdict.kind, now);
    }

    /** One request after another. */
    method Serve(requests: seq<Request>, ghost now: int)
      requires schema.cache.Agrees(now) && log == [] && history == []
      modifies this, schema.cache
      ensures log == ExecutedAll(requests, maxRows) && history == RecordedAll(requests, maxRows)
      ensures schema.cache.Agrees(now) && schema.cache.trace == old(schema.cache.trace) + InvalidatedAll(requests, maxRows)
    {
      ghost var before := schema.cache.trace;
      assert before + [] == before;
      for i := 0 to |requests|
        invariant log == ExecutedAll(requests[..i], maxRows) && history == RecordedAll(requests[..i], maxRows)
        invariant schema.cache.Agrees(now) && schema.cache.trace == before + InvalidatedAll(requests[..i], maxRows)
      {
        assert requests[..i + 1][..i] == requests[..i];
        var _ := Run(requests[i], now);
        Assoc(before, InvalidatedAll(requests[..i], maxRows), Invalidated(requests[i], maxRows));
      }
      assert requests[..|requests|] == requests;
    }
  }

  // ----- what holds over every run -----

  /** Whatever is asked, in whatever order: every statement executed on a read-only connection is a single one that
      reads. */
  lemma {:induction false} ReadOnlyConnectionsOnlyRead(requests: seq<Request>, maxRows: nat)
    ensures forall e :: e in ExecutedAll(requests, maxRows) && e.readOnly ==> Reads(e.cql)
    decreases |requests|
  {
    if requests != [] {
      var last := requests[|requests| - 1];
      ReadOnlyConnectionsOnlyRead(requests[..|requests| - 1], maxRows);
      ReadOnlyExactly(last.cql);
    }
  }

  /** The request is recorded with this outcome. */
  ghost predicate IsRecorded(h: seq<Record>, connID: string, cql: string) {
    exists x :: x in h && x.connID == connID && x.cql == cql
  }

  ghost predicate WasExecuted(log: seq<Execution>, connID: string, cql: string) {
    exists e :: e in log && e.connID == connID && e.cql == cql
  }

  lemma RecordedOne(r: Request, maxRows: nat)
    ensures Executed(r, maxRows) != [] ==> Recorded(r, maxRows) != []
    ensures Recorded(r, maxRows) != [] && Recorded(r, maxRows)[0].success ==> Executed(r, maxRows) != []
  {
  }

  /** Every statement executed is in the history, and every one recorded as successful was executed. */
  lemma {:induction false} ExecutionsAreRecorded(requests: seq<Request>, maxRows: nat)
    ensures forall e :: e in ExecutedAll(requests, maxRows) ==> IsRecorded(RecordedAll(requests, maxRows), e.connID, e.cql)
    ensures forall h :: h in RecordedAll(requests, maxRows) && h.success ==>
      WasExecuted(ExecutedAll(requests, maxRows), h.connID, h.cql)
    decreases |requests|
  {
    if requests != [] {
      var front, last := requests[..|requests| - 1], requests[|requests| - 1];
      ExecutionsAreRecorded(front, maxRows);
      RecordedOne(last, maxRows);
      forall e | e in ExecutedAll(requests, maxRows) ensures IsRecorded(RecordedAll(requests, maxRows), e.connID, e.cql) {
        if e in Executed(last, maxRows) {
          assert Recorded(last, maxRows)[0] in RecordedAll(requests, maxRows);
        } else {
          assert e in ExecutedAll(front, maxRows) && IsRecorded(RecordedAll(front, maxRows), e.connID, e.cql);
          var h :| h in RecordedAll(front, maxRows) && h.connID == e.connID && h.cql == e.cql;
          assert h in RecordedAll(requests, maxRows);
        }
      }
      forall h | h in RecordedAll(requests, maxRows) && h.success
        ensures WasExecuted(ExecutedAll(requests, maxRows), h.connID, h.cql)
      {
        if h in Recorded(last, maxRows) {
          assert Executed(last, maxRows)[0] in ExecutedAll(requests, maxRows);
        } else {
          assert h in RecordedAll(front, maxRows) && WasExecuted(ExecutedAll(front, maxRows), h.connID, h.cql);
          var e :| e in ExecutedAll(front, maxRows) && e.connID == h.connID && e.cql == h.cql;
          assert e in ExecutedAll(requests, maxRows);
        }
      }
    }
  }

  /** And every statement that reads, and gets a session and a page, is executed there. */
  lemma {:induction false} ReadsAreServed(r: Request, maxRows: nat)
    requires r.known && r.readOnly && r.session && r.pageState
    ensures Executed(r, maxRows) == [Execution(r.connID, true, r.cql)] <==> Reads(r.cql)
  {
    ReadOnlyExactly(r.cql);
  }

  /** After a DDL statement that succeeded nothing cached before for its connection is visible any more. */
  lemma {:induction false} DdlClearsConnection<V>(
    trace: seq<Cache.Event<V>>, r: Request, maxRows: nat, t: Cache.Topic, ttl: nat, now: int)
    requires OutcomeOf(r, maxRows).Done? && IsDDL(OutcomeOf(r, maxRows).kind)
    ensures Cache.Visible(trace + Invalidated(r, maxRows), ttl, Cache.CacheKey(t, r.connID), now) == None
  {
    Cache.DropsOwn(t, r.connID);
    Cache.InvalidationDrops(trace, r.connID, t, r.connID);
  }

  // ----- what one request does, by its text -----

  /** A single statement, not empty, that begins with none of grant, revoke and list. */
  ghost predicate Acceptable(cql: string) {
    && SingleStatement(StatementLexer.Blank(cql)) && !Kinds.Nothing(cql)
    && !exists kind :: Kinds.Refused(kind) && Kinds.BeginsWith(cql, Kinds.WordsOf(kind))
  }

  /** Nothing is in the way of the request but the cluster: on a read-only connection it reads. */
  ghost predicate Admitted(r: Request) {
    r.known && Acceptable(r.cql) && (r.readOnly ==> Reads(r.cql))
  }

  lemma {:induction false} AcceptableExactly(cql: string)
    ensures Classified(cql).Accepted? <==> Acceptable(cql)
    ensures Classified(cql).Accepted? ==> (IsReadOnly(Classified(cql).kind) <==> Reads(cql))
  {
    Kinds.RefusedExactly(cql);
    ReadOnlyExactly(cql);
  }

  /** Each outcome exactly under its conditions. */
  lemma {:induction false} OutcomesExactly(r: Request, maxRows: nat)
    ensures var o := OutcomeOf(r, maxRows);
      && (o == UnknownConnection <==> !r.known)
      && (o == Refused(MultiStatement) <==> r.known && !SingleStatement(StatementLexer.Blank(r.cql)))
      && (o == Refused(EmptyStatement) <==> r.known && Kinds.Nothing(r.cql))
      && (o.Refused? <==> r.known && !Acceptable(r.cql))
      && (o == ReadOnlyConnection <==> r.known && Acceptable(r.cql) && r.readOnly && !Reads(r.cql))
      && (o == NoSession <==> Admitted(r) && !r.session)
      && (o == InvalidPageState <==> Admitted(r) && r.session && !r.pageState)
      && (o == Failed <==> Admitted(r) && r.session && r.pageState && !r.success)
      && (o.Done? <==> Admitted(r) && r.session && r.pageState && r.success)
  {
    AcceptableExactly(r.cql);
    Kinds.RefusedExactly(r.cql);
    Kinds.EveryCase(r.cql);
  }

  /** What is executed is the text as it was sent, exactly once, exactly if it gets as far as the cluster. */
  lemma {:induction false} ExecutesExactly(r: Request, maxRows: nat)
    ensures Executed(r, maxRows)
      == if Admitted(r) && r.session && r.pageState then [Execution(r.connID, r.readOnly, r.cql)] else []
  {
    OutcomesExactly(r, maxRows);
  }

  /** The history is handed exactly the requests that are refused or executed, as successful exactly if the cluster
      reports success. */
  lemma {:induction false} RecordsExactly(r: Request, maxRows: nat)
    ensures Recorded(r, maxRows) ==
      if !r.known || (Admitted(r) && !(r.session && r.pageState)) then []
      else [Record(r.connID, r.cql, Classified(r.cql).kind, Admitted(r) && r.success)]
  {
    OutcomesExactly(r, maxRows);
  }

  /** The schema cache is invalidated, for the request's own connection, exactly after a statement that begins with
      create, alter, drop or truncate and succeeds. */
  lemma {:induction false} InvalidatesExactly<V>(r: Request, maxRows: nat)
    ensures Invalidated<V>(r, maxRows) ==
      if r.known && !r.readOnly && r.session && r.pageState && r.success && Kinds.BeginsWith(r.cql, Kinds.DDL_WORDS)
      then Cache.Invalidations(r.connID) else []
  {
    OutcomesExactly(r, maxRows);
    AcceptableExactly(r.cql);
    Kinds.DdlExactly(r.cql);
    if OutcomeOf(r, maxRows).Done? {
      assert OutcomeOf(r, maxRows).kind == Classified(r.cql).kind;
    }
  }

  lemma {:induction false} InvalidatedByOutcome<V>(r: Request, maxRows: nat)
    ensures Invalidated<V>(r, maxRows)
      == if OutcomeOf(r, maxRows).Done? && Kinds.BeginsWith(r.cql, Kinds.DDL_WORDS) then Cache.Invalidations(r.connID) else []
  {
    Kinds.DdlExactly(r.cql);
    if OutcomeOf(r, maxRows).Done? {
      DoneClassified(r, maxRows);
    }
  }

  /** A request that is done reports the kind of its first word. */
  lemma {:induction false} DoneKind(r: Request, maxRows: nat, kind: Kind)
    requires OutcomeOf(r, maxRows).Done? && Kinds.HasWords(kind)
    ensures OutcomeOf(r, maxRows).kind == kind <==> Kinds.BeginsWith(r.cql, Kinds.WordsOf(kind)) && !Kinds.Refused(kind)
  {
    DoneClassified(r, maxRows);
    Kinds.EveryCase(r.cql);
    Kinds.KindExactly(r.cql, kind);
    KindOfVerdict(Classified(r.cql), OutcomeOf(r, maxRows).kind, kind, Kinds.BeginsWith(r.cql, Kinds.WordsOf(kind)));
  }

  lemma DoneClassified(r: Request, maxRows: nat)
    requires OutcomeOf(r, maxRows).Done?
    ensures Classified(r.cql) == Accepted(OutcomeOf(r, maxRows).kind)
  {
  }

  lemma KindOfVerdict(v: Verdict, found: Kind, kind: Kind, begins: bool)
    requires v == Accepted(found) && (v == Accepted(Unknown) || v == Kinds.VerdictFor(found)) && Kinds.HasWords(kind)
    requires v == Kinds.VerdictFor(kind) <==> begins
    ensures found == kind <==> begins && !Kinds.Refused(kind)
  {
  }

  lemma UpToAll(pageSize: int, available: nat, maxRows: nat, n: nat)
    ensures n <= Least(available, PageRows(pageSize, maxRows)) <==>
      n <= available && n <= maxRows && n <= if 1 <= pageSize <= 1000 then pageSize else 100
  {
  }

  /** And as many rows as there are, up to the cap and to its page size, which is 100 unless it is from 1 to 1000. */
  lemma {:induction false} DoneRows(r: Request, maxRows: nat, n: nat)
    requires OutcomeOf(r, maxRows).Done?
    ensures n <= OutcomeOf(r, maxRows).rows <==>
      n <= r.available && n <= maxRows && n <= if 1 <= r.pageSize <= 1000 then r.pageSize else 100
  {
    UpToAll(r.pageSize, r.available, maxRows, n);
  }
}
