/** What calls report: the first statement that fails, and nothing if all go through. */
module Reports {
  import opened Prelude
  import opened Tables
  import opened Runs
  import opened CacheCoherence
  import opened Calls

  /** What the first part of an insert that does not go through is reported as. */
  function FirstFailure(s: State, a: Arrival): Option<Error> {
    if !Serializable(a.span) then Some(SerializeSpan)
    else if !EnsuresProject(s, a) then Some(EnsureProject)
    else if FailsTrace(s.db.traces, a.span, a.fault) then Some(UpsertTrace)
    else if a.fault == Some(SumChildren) then Some(SumChildrenFailed)
    else if a.fault == Some(InsertRow) || a.span.status !in {"OK", "ERROR", "UNSET"} then Some(InsertFailed)
    else if a.fault == Some(Propagate) && !HasSpan(s.db.spans, a.span.spanId) && a.span.parentId != ""
      then Some(PropagateFailed)
    else None
  }

  lemma {:induction false} EnsureReports(s: State, a: Arrival)
    ensures EnsuredProject(s.db.projects, s.cache, a.project, a.fault).2.Ok? <==> EnsuresProject(s, a)
    ensures var r := EnsuredProject(s.db.projects, s.cache, a.project, a.fault).2; r.Err? ==> r.error == EnsureProject
  {}

  lemma {:induction false} UpsertReports(traces: seq<TraceRow>, span: Span, project: nat, fault: Fault)
    ensures var r := UpsertedTrace(traces, span, project, fault).1; r.Err? ==> r.error == UpsertTrace
  {
    hide StartOf, EndOf;
  }

  lemma {:induction false} PersistReports(
    traces: seq<TraceRow>, spans: seq<SpanRow>, span: Span, trace: nat, fault: Fault)
    requires Serializable(span)
    ensures Persisted(traces, spans, span, trace, fault).1 ==
            if fault == Some(SumChildren) then Some(SumChildrenFailed)
            else if fault == Some(InsertRow) || !StatusAllowed(span.status) then Some(InsertFailed)
            else if fault == Some(Propagate) && !HasSpan(spans, span.spanId) && span.parentId != ""
              then Some(PropagateFailed)
            else None
  {
    hide WithRow, Above, Raised, CumOf, HasSpan, StatusAllowed;
  }

  lemma {:induction false} StatusesAllowed(status: string)
    ensures StatusAllowed(status) <==> status in {"OK", "ERROR", "UNSET"}
  {}

  lemma {:induction false} TxReports(s: State, a: Arrival)
    ensures InsertedTx(s.db, s.cache, a.span, a.project, a.fault).error == FirstFailure(s, a)
  {
    hide EnsuredProject, UpsertedTrace, Persisted, FailsTrace, EnsuresProject, HasSpan, StatusAllowed;
    StatusesAllowed(a.span.status);
    EnsureReports(s, a);
    var (projects, cache, id) := EnsuredProject(s.db.projects, s.cache, a.project, a.fault);
    if Serializable(a.span) && id.Ok? {
      TraceFailsIff(s.db.traces, a.span, id.value, a.fault);
      UpsertReports(s.db.traces, a.span, id.value, a.fault);
      var (traces, trace) := UpsertedTrace(s.db.traces, a.span, id.value, a.fault);
      if trace.Ok? {
        PersistReports(traces, s.db.spans, a.span, trace.value, a.fault);
      }
    }
  }

  /** InsertSpan reports its first failure, the transaction's own statements included. */
  lemma {:induction false} InsertReports(s: State, a: Arrival)
    ensures Arrive(s, a).error ==
            if a.fault == Some(Begin) then Some(BeginFailed)
            else if FirstFailure(s, a).None? && a.fault == Some(Commit) then Some(CommitFailed)
            else FirstFailure(s, a)
  {
    hide InsertedTx, FirstFailure;
    TxReports(s, a);
  }

  function ItemArrival(item: Ingest, fault: ItemFault): Arrival {
    Arrival(item.span, item.project, fault.insert)
  }

  /** An item reports nothing exactly if its SAVEPOINT, its insert and its RELEASE all went through. */
  lemma {:induction false} ItemReports(s: State, item: Ingest, fault: ItemFault)
    ensures var error := Savepointed(s.db, s.cache, item, fault).error;
            && (error.None? <==> !fault.save && FirstFailure(s, ItemArrival(item, fault)).None? && !fault.release)
            && (fault.save ==> error == Some(SavepointFailed))
            && (!fault.save && FirstFailure(s, ItemArrival(item, fault)).Some? ==>
                  error == FirstFailure(s, ItemArrival(item, fault)))
            && (!fault.save && FirstFailure(s, ItemArrival(item, fault)).None? && fault.release ==>
                  error == Some(ReleaseFailed))
  {
    hide InsertedTx, FirstFailure;
    TxReports(s, ItemArrival(item, fault));
  }

  lemma {:induction false} ErrorAt(s: State, items: seq<Ingest>, faults: seq<ItemFault>, k: nat, n: nat)
    requires k < n <= |items| == |faults|
    ensures Batched(s.db, s.cache, items, faults, n).errors[k] ==
            var b := BatchState(s, items, faults, k); Savepointed(b.db, b.cache, items[k], faults[k]).error
    decreases n
  {
    hide Savepointed;
    if k < n - 1 {
      ErrorAt(s, items, faults, k, n - 1);
    }
  }

  /** The error vector of a batch, entry by entry, in the state the batch has reached there. */
  lemma {:induction false} BatchReports(
    s: State, items: seq<Ingest>, faults: seq<ItemFault>, begin: bool, commit: bool, k: nat)
    requires k < |items| == |faults|
    ensures var b, o := BatchState(s, items, faults, k), BatchInserted(s.db, s.cache, items, faults, begin, commit);
            var error := Savepointed(b.db, b.cache, items[k], faults[k]).error;
            && |o.errors| == |items|
            && (begin ==> o.errors[k] == Some(BeginFailed))
            && (!begin && !commit ==> o.errors[k] == error)
            && (!begin && commit ==> o.errors[k] == if error.Some? then error else Some(CommitFailed))
  {
    hide Savepointed, Batched;
    ErrorAt(s, items, faults, k, |items|);
  }
}
