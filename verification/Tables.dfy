/**
 The three SQL tables, a span as it is offered for storage, and what one insert does to the tables.

 Tables are append-only sequences. Nothing is ever deleted except by a rollback, so the rowid that
 SQLite gives a new row, the largest one plus one, is the row's position counted from one.
 */
module Tables {
  import opened Prelude
  import opened Text
  import opened Timestamps
  import opened Forest

  /** A value handed to json.Marshal: its text, or something JSON cannot express. */
  datatype Payload = Json(text: string) | Unserializable

  datatype TokenUsage = TokenUsage(prompt: int, completion: int, total: int, cacheRead: int, cacheWrite: int)

  datatype Span = Span(
    name: string, traceId: string, spanId: string, parentId: string,
    start: Instant, end: Instant, attributes: Payload, events: Payload,
    kind: string, status: string, statusMessage: string,
    usage: Option<TokenUsage>, sessionId: string)

  datatype TraceRow = TraceRow(project: nat, traceId: string, session: Option<string>, start: string, end: string)

  datatype SpanRow = SpanRow(
    trace: nat, spanId: string, parent: Option<string>, name: string, kind: string,
    start: string, end: string, attributes: string, events: string,
    status: string, statusMessage: string,
    cum: Counts, prompt: Option<int>, completion: Option<int>)

  /** The committed or in-transaction contents; a project row is its name. */
  datatype Db = Db(projects: seq<string>, traces: seq<TraceRow>, spans: seq<SpanRow>)

  const EMPTY := Db([], [], [])

  type Cache = map<string, nat>

  /** The SQL statements of one insert, any one of which the database may refuse. */
  datatype Statement = Begin | Commit | SelectProject | CreateProject | SelectTrace | UpdateStart | UpdateEnd
                     | CreateTrace | SumChildren | InsertRow | Propagate

  type Fault = Option<Statement>

  datatype Error = SerializeSpan | EnsureProject | UpsertTrace | SumChildrenFailed | InsertFailed | PropagateFailed
                 | SavepointFailed | ReleaseFailed | BeginFailed | CommitFailed

  /** Tables, project cache and error after a call. */
  datatype Outcome = Outcome(db: Db, cache: Cache, error: Option<Error>)

  // ----- columns -----

  /** nullString: the empty string is stored as NULL. */
  function NullString(s: string): (column: Option<string>)
    ensures column.None? <==> s == ""
    ensures column.Some? ==> column.value == s
  {
    if s == "" then None else Some(s)
  }

  function SelfTotals(span: Span): Counts {
    var errors := if span.status == "ERROR" then 1 else 0;
    if span.kind == "LLM" && span.usage.Some?
    then Counts(errors, span.usage.value.prompt, span.usage.value.completion)
    else Counts(errors, 0, 0)
  }

  predicate Serializable(span: Span) {
    span.attributes.Json? && span.events.Json?
  }

  predicate StatusAllowed(status: string) {
    status == "OK" || status == "ERROR" || status == "UNSET"
  }

  function RowOf(span: Span, trace: nat, cum: Counts): SpanRow
    requires Serializable(span)
  {
    var tokens := span.kind == "LLM" && span.usage.Some?;
    SpanRow(trace, span.spanId, NullString(span.parentId), span.name, span.kind,
            FormatTime(span.start), FormatTime(span.end), span.attributes.text, span.events.text,
            span.status, span.statusMessage, cum,
            if tokens then Some(span.usage.value.prompt) else None,
            if tokens then Some(span.usage.value.completion) else None)
  }

  /** The columns an insert takes from the span and never changes again. */
  predicate Describes(row: SpanRow, span: Span) {
    && row.spanId == span.spanId && row.name == span.name && row.kind == span.kind
    && (row.parent.None? <==> span.parentId == "") && (row.parent.Some? ==> row.parent.value == span.parentId)
    && row.start == FormatTime(span.start) && row.end == FormatTime(span.end)
    && span.attributes == Json(row.attributes) && span.events == Json(row.events)
    && row.status == span.status && row.statusMessage == span.statusMessage
    && (if span.kind == "LLM" && span.usage.Some?
        then row.prompt == Some(span.usage.value.prompt) && row.completion == Some(span.usage.value.completion)
        else row.prompt == row.completion == None)
  }

  lemma {:induction false} RowDescribes(span: Span, trace: nat, cum: Counts)
    requires Serializable(span)
    ensures Describes(RowOf(span, trace, cum), span)
    ensures RowOf(span, trace, cum).trace == trace && RowOf(span, trace, cum).cum == cum
  {}

  /** The columns of the span, its trace's rowid and the sums are the whole row. */
  lemma {:induction false} DescribedRow(row: SpanRow, span: Span)
    requires Describes(row, span)
    ensures Serializable(span) && row == RowOf(span, row.trace, row.cum)
  {}

  /** A row's own contribution, read back from its columns. */
  function SelfOf(row: SpanRow): Counts {
    Counts(if row.status == "ERROR" then 1 else 0, row.prompt.GetOr(0), row.completion.GetOr(0))
  }

  lemma {:induction false} SelfOfRow(span: Span, trace: nat, cum: Counts)
    requires Serializable(span)
    ensures SelfOf(RowOf(span, trace, cum)) == SelfTotals(span)
  {}

  // ----- lookups, by rowid -----

  function FindProject(projects: seq<string>, name: string): (id: Option<nat>)
    ensures id.Some? ==> 1 <= id.value <= |projects| && projects[id.value - 1] == name
    ensures id.None? ==> name !in projects
  {
    if projects == [] then None
    else if projects[|projects| - 1] == name then Some(|projects|)
    else
      assert projects == projects[..|projects| - 1] + [projects[|projects| - 1]];
      FindProject(projects[..|projects| - 1], name)
  }

  function FindTrace(traces: seq<TraceRow>, traceId: string): (id: Option<nat>)
    ensures id.Some? ==> 1 <= id.value <= |traces| && traces[id.value - 1].traceId == traceId
    ensures id.None? ==> forall i | 0 <= i < |traces| :: traces[i].traceId != traceId
  {
    if traces == [] then None
    else if traces[|traces| - 1].traceId == traceId then Some(|traces|)
    else FindTrace(traces[..|traces| - 1], traceId)
  }

  /** WHERE trace_rowid = ? AND span_id = ? */
  function FindSpan(spans: seq<SpanRow>, trace: nat, spanId: string): (id: Option<nat>)
    ensures id.Some? ==> 1 <= id.value <= |spans| &&
                         spans[id.value - 1].trace == trace && spans[id.value - 1].spanId == spanId
    ensures id.None? ==> forall i | 0 <= i < |spans| :: !(spans[i].trace == trace && spans[i].spanId == spanId)
  {
    if spans == [] then None
    else if spans[|spans| - 1].trace == trace && spans[|spans| - 1].spanId == spanId then Some(|spans|)
    else FindSpan(spans[..|spans| - 1], trace, spanId)
  }

  predicate HasSpan(spans: seq<SpanRow>, spanId: string) {
    exists i | 0 <= i < |spans| :: spans[i].spanId == spanId
  }

  predicate IsChild(row: SpanRow, trace: nat, parent: string) {
    row.trace == trace && row.parent == Some(parent)
  }

  /** SELECT SUM(...) over the direct children already stored; NULL, on no rows, counts as zero. */
  function ChildSum(spans: seq<SpanRow>, trace: nat, parent: string): Counts {
    if spans == [] then ZERO
    else
      var last := spans[|spans| - 1];
      var rest := ChildSum(spans[..|spans| - 1], trace, parent);
      if IsChild(last, trace, parent) then last.cum.Plus(rest) else rest
  }

  // ----- the stored forest -----

  function TraceIdOf(traces: seq<TraceRow>, row: SpanRow): string {
    if 1 <= row.trace <= |traces| then traces[row.trace - 1].traceId else ""
  }

  function NodeOf(traces: seq<TraceRow>, row: SpanRow): Node {
    Node(TraceIdOf(traces, row), row.parent, SelfOf(row))
  }

  function SpanNode(span: Span): Node {
    Node(span.traceId, NullString(span.parentId), SelfTotals(span))
  }

  function ForestOf(traces: seq<TraceRow>, spans: seq<SpanRow>): Forest {
    if spans == [] then map[]
    else
      var last := spans[|spans| - 1];
      ForestOf(traces, spans[..|spans| - 1])[last.spanId := NodeOf(traces, last)]
  }

  predicate DistinctSpans(spans: seq<SpanRow>) {
    forall i, j | 0 <= i < j < |spans| :: spans[i].spanId != spans[j].spanId
  }

  predicate DistinctTraces(traces: seq<TraceRow>) {
    forall i, j | 0 <= i < j < |traces| :: traces[i].traceId != traces[j].traceId
  }

  lemma {:induction false} ForestAt(traces: seq<TraceRow>, spans: seq<SpanRow>, i: nat)
    requires DistinctSpans(spans) && i < |spans|
    ensures spans[i].spanId in ForestOf(traces, spans)
    ensures ForestOf(traces, spans)[spans[i].spanId] == NodeOf(traces, spans[i])
    decreases |spans|
  {
    if i < |spans| - 1 {
      ForestAt(traces, spans[..|spans| - 1], i);
    }
  }

  lemma {:induction false} ForestKeys(traces: seq<TraceRow>, spans: seq<SpanRow>, id: string)
    ensures id in ForestOf(traces, spans) <==> HasSpan(spans, id)
    decreases |spans|
  {
    if spans != [] {
      var front := spans[..|spans| - 1];
      ForestKeys(traces, front, id);
      if HasSpan(spans, id) && spans[|spans| - 1].spanId != id {
        var i :| 0 <= i < |spans| && spans[i].spanId == id;
        assert front[i].spanId == id;
      }
      if HasSpan(front, id) {
        var i :| 0 <= i < |front| && front[i].spanId == id;
        assert spans[i].spanId == id;
      }
      if spans[|spans| - 1].spanId == id {
        assert HasSpan(spans, id);
      }
    }
  }

  predicate DistinctProjects(projects: seq<string>) {
    forall i, j | 0 <= i < j < |projects| :: projects[i] != projects[j]
  }

  /** The keys and constraints the schema enforces on spans, and when token columns are filled. */
  predicate WellFormedSpans(traces: seq<TraceRow>, spans: seq<SpanRow>) {
    && DistinctSpans(spans)
    && (forall i | 0 <= i < |spans| :: 1 <= spans[i].trace <= |traces|)
    && (forall i | 0 <= i < |spans| :: StatusAllowed(spans[i].status))
    && (forall i | 0 <= i < |spans| :: spans[i].kind != "LLM" ==> spans[i].prompt == spans[i].completion == None)
  }

  /** What the schema's keys guarantee of any tables, even half-way through an insert. */
  predicate Keyed(traces: seq<TraceRow>, spans: seq<SpanRow>) {
    DistinctTraces(traces) && WellFormedSpans(traces, spans)
  }

  /** Every row's cumulative columns hold the sum over its persisted subtree. */
  ghost predicate Counted(f: Forest, spans: seq<SpanRow>) {
    forall i | 0 <= i < |spans| :: spans[i].spanId in f && spans[i].cum == SubtreeSum(f, spans[i].spanId)
  }

  ghost predicate Indexed(traces: seq<TraceRow>, spans: seq<SpanRow>) {
    WellFormedSpans(traces, spans) && Acyclic(ForestOf(traces, spans)) && Counted(ForestOf(traces, spans), spans)
  }

  ghost predicate Sound(db: Db) {
    DistinctProjects(db.projects) && DistinctTraces(db.traces) && Indexed(db.traces, db.spans)
  }

  // ----- what each step does -----

  /** ensureProject: the cache, then the table, then a new row; the cache remembers the answer. */
  function EnsuredProject(
    projects: seq<string>, cache: Cache, name: string, fault: Fault): (seq<string>, Cache, Result<nat, Error>)
  {
    if name in cache then (projects, cache, Ok(cache[name]))
    else if fault == Some(SelectProject) then (projects, cache, Err(EnsureProject))
    else match FindProject(projects, name)
      case Some(id) => (projects, cache[name := id], Ok(id))
      case None =>
        if fault == Some(CreateProject) then (projects, cache, Err(EnsureProject))
        else (projects + [name], cache[name := |projects| + 1], Ok(|projects| + 1))
  }

  function StartOf(row: TraceRow, span: Span): string {
    if Less(FormatTime(span.start), row.start) then FormatTime(span.start) else row.start
  }

  function EndOf(row: TraceRow, span: Span): string {
    if Less(row.end, FormatTime(span.end)) then FormatTime(span.end) else row.end
  }

  function Started(row: TraceRow, span: Span): TraceRow {
    row.(start := StartOf(row, span))
  }

  function Widened(row: TraceRow, span: Span): TraceRow {
    row.(start := StartOf(row, span), end := EndOf(row, span))
  }

  function NewTrace(span: Span, project: nat): TraceRow {
    TraceRow(project, span.traceId, NullString(span.sessionId), FormatTime(span.start), FormatTime(span.end))
  }

  /** upsertTrace: widen the range of an existing row, or create the row. */
  function UpsertedTrace(
    traces: seq<TraceRow>, span: Span, project: nat, fault: Fault): (seq<TraceRow>, Result<nat, Error>)
  {
    if fault == Some(SelectTrace) then (traces, Err(UpsertTrace))
    else match FindTrace(traces, span.traceId)
      case Some(id) =>
        var row := traces[id - 1];
        if fault == Some(UpdateStart) && StartOf(row, span) != row.start then (traces, Err(UpsertTrace))
        else if fault == Some(UpdateEnd) && EndOf(row, span) != row.end
          then (traces[id - 1 := Started(row, span)], Err(UpsertTrace))
        else (traces[id - 1 := Widened(row, span)], Ok(id))
      case None =>
        if fault == Some(CreateTrace) then (traces, Err(UpsertTrace))
        else (traces + [NewTrace(span, project)], Ok(|traces| + 1))
  }

  /** Adding counts to the rows whose span id lies in ids. */
  ghost function Raised(spans: seq<SpanRow>, ids: set<string>, delta: Counts): (r: seq<SpanRow>)
    ensures |r| == |spans|
  {
    seq(|spans|, i requires 0 <= i < |spans| =>
      if spans[i].spanId in ids then spans[i].(cum := spans[i].cum.Plus(delta)) else spans[i])
  }

  /** The persisted spans above id, id itself not included. */
  ghost function Above(f: Forest, id: string): set<string>
    requires id in f
  {
    match ParentOf(f, id)
    case None => {}
    case Some(p) => set a | a in f && Reaches(f, p, a)
  }

  function CumOf(spans: seq<SpanRow>, span: Span, trace: nat): Counts {
    SelfTotals(span).Plus(ChildSum(spans, trace, span.spanId))
  }

  function WithRow(spans: seq<SpanRow>, span: Span, trace: nat): seq<SpanRow>
    requires Serializable(span)
  {
    spans + [RowOf(span, trace, CumOf(spans, span, trace))]
  }

  /** The row goes in with its children's sums absorbed, and its totals go to everything above it. */
  ghost function Persisted(
    traces: seq<TraceRow>, spans: seq<SpanRow>, span: Span, trace: nat, fault: Fault): (seq<SpanRow>, Option<Error>)
    requires Serializable(span)
  {
    if fault == Some(SumChildren) then (spans, Some(SumChildrenFailed))
    else if fault == Some(InsertRow) || !StatusAllowed(span.status) then (spans, Some(InsertFailed))
    else if HasSpan(spans, span.spanId) then (spans, None)
    else
      var rows := WithRow(spans, span, trace);
      if span.parentId == "" then (rows, None)
      else if fault == Some(Propagate) then (rows, Some(PropagateFailed))
      else (Raised(rows, Above(ForestOf(traces, rows), span.spanId), CumOf(spans, span, trace)), None)
  }

  /** insertSpanTx: what is in the open transaction when it returns, failed or not. */
  ghost function InsertedTx(db: Db, cache: Cache, span: Span, project: string, fault: Fault): Outcome {
    if !Serializable(span) then Outcome(db, cache, Some(SerializeSpan))
    else
      var (projects, cache', projectId) := EnsuredProject(db.projects, cache, project, fault);
      if projectId.Err? then Outcome(db.(projects := projects), cache', Some(projectId.error))
      else
        var (traces, trace) := UpsertedTrace(db.traces, span, projectId.value, fault);
        if trace.Err? then Outcome(Db(projects, traces, db.spans), cache', Some(trace.error))
        else
          var (spans, error) := Persisted(traces, db.spans, span, trace.value, fault);
          Outcome(Db(projects, traces, spans), cache', error)
  }

  /** InsertSpan: all of it or none of it in the tables; the cache is not part of the transaction. */
  ghost function Inserted(db: Db, cache: Cache, span: Span, project: string, fault: Fault): Outcome {
    if fault == Some(Begin) then Outcome(db, cache, Some(BeginFailed))
    else
      var tx := InsertedTx(db, cache, span, project, fault);
      if tx.error.Some? then Outcome(db, tx.cache, tx.error)
      else if fault == Some(Commit) then Outcome(db, tx.cache, Some(CommitFailed))
      else tx
  }

  datatype Ingest = Ingest(span: Span, project: string)

  /** What fails around one batch item: SAVEPOINT, a statement of the insert, ROLLBACK TO, RELEASE. */
  datatype ItemFault = ItemFault(save: bool, insert: Fault, rollBack: bool, release: bool) {
    predicate Clean() { !save && !rollBack && !release }
  }

  /** insertSpanSavepoint: the errors of ROLLBACK TO and of the RELEASE after it are ignored. */
  ghost function Savepointed(db: Db, cache: Cache, item: Ingest, fault: ItemFault): Outcome {
    if fault.save then Outcome(db, cache, Some(SavepointFailed))
    else
      var tx := InsertedTx(db, cache, item.span, item.project, fault.insert);
      if tx.error.Some? then tx.(db := if fault.rollBack then tx.db else db)
      else if fault.release then tx.(error := Some(ReleaseFailed))
      else tx
  }

  /** The walk of this insert comes to an end: the only thing the Go code needs of the parent links. */
  ghost predicate WalkEnds(db: Db, cache: Cache, span: Span, project: string, fault: Fault) {
    InsertedTx(db, cache, span, project, fault).error.None? && !HasSpan(db.spans, span.spanId) ==>
      ChainEnds(ForestOf(db.traces, db.spans)[span.spanId := SpanNode(span)], span.spanId)
  }

  // ----- batches -----

  datatype BatchOutcome = BatchOutcome(db: Db, cache: Cache, errors: seq<Option<Error>>)

  /** The first k items of a batch, inside its open transaction. */
  ghost function Batched(db: Db, cache: Cache, items: seq<Ingest>, faults: seq<ItemFault>, k: nat): (b: BatchOutcome)
    requires k <= |items| == |faults|
    ensures |b.errors| == k
    decreases k
  {
    if k == 0 then BatchOutcome(db, cache, [])
    else
      var b := Batched(db, cache, items, faults, k - 1);
      var o := Savepointed(b.db, b.cache, items[k - 1], faults[k - 1]);
      BatchOutcome(o.db, o.cache, b.errors + [o.error])
  }

  function FillErrors(errors: seq<Option<Error>>, e: Error): (r: seq<Option<Error>>)
    ensures |r| == |errors|
  {
    seq(|errors|, i requires 0 <= i < |errors| => if errors[i].None? then Some(e) else errors[i])
  }

  /** InsertSpans: one transaction around all the items. */
  ghost function BatchInserted(
    db: Db, cache: Cache, items: seq<Ingest>, faults: seq<ItemFault>, begin: bool, commit: bool): BatchOutcome
    requires |items| == |faults|
  {
    if begin then BatchOutcome(db, cache, seq(|items|, i => Some(BeginFailed)))
    else
      var b := Batched(db, cache, items, faults, |items|);
      if commit then BatchOutcome(db, b.cache, FillErrors(b.errors, CommitFailed)) else b
  }

  /** Each item's walk ends, in the state the batch has reached by then. */
  ghost predicate BatchWalksEnd(db: Db, cache: Cache, items: seq<Ingest>, faults: seq<ItemFault>)
    requires |items| == |faults|
  {
    forall k | 0 <= k < |items| && !faults[k].save ::
      var b := Batched(db, cache, items, faults, k);
      WalkEnds(b.db, b.cache, items[k].span, items[k].project, faults[k].insert)
  }
}
