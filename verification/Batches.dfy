/** The batch path against the one-at-a-time path. */
module Batches {
  import opened Prelude
  import opened Timestamps
  import opened Forest
  import opened Tables
  import opened Steps

  /** InsertSpan on the items in order, each in a transaction of its own. */
  ghost function OneByOne(db: Db, cache: Cache, items: seq<Ingest>, faults: seq<ItemFault>, k: nat): (b: BatchOutcome)
    requires k <= |items| == |faults|
    ensures |b.errors| == k
    decreases k
  {
    if k == 0 then BatchOutcome(db, cache, [])
    else
      var b := OneByOne(db, cache, items, faults, k - 1);
      var o := Inserted(b.db, b.cache, items[k - 1].span, items[k - 1].project, faults[k - 1].insert);
      BatchOutcome(o.db, o.cache, b.errors + [o.error])
  }

  /** Savepoints work, and the faults are those of statements inside the inserts. */
  predicate CleanSavepoints(faults: seq<ItemFault>) {
    forall k | 0 <= k < |faults| ::
      faults[k].Clean() && faults[k].insert != Some(Begin) && faults[k].insert != Some(Commit)
  }

  lemma {:induction false} SavepointRefinesInsert(db: Db, cache: Cache, item: Ingest, fault: ItemFault)
    requires fault.Clean() && fault.insert != Some(Begin) && fault.insert != Some(Commit)
    ensures Savepointed(db, cache, item, fault) == Inserted(db, cache, item.span, item.project, fault.insert)
  {
    hide InsertedTx;
  }

  lemma {:induction false} BatchedIsOneByOne(db: Db, cache: Cache, items: seq<Ingest>, faults: seq<ItemFault>, k: nat)
    requires k <= |items| == |faults| && CleanSavepoints(faults)
    ensures Batched(db, cache, items, faults, k) == OneByOne(db, cache, items, faults, k)
    decreases k
  {
    hide Savepointed, Inserted;
    if k > 0 {
      BatchedIsOneByOne(db, cache, items, faults, k - 1);
      var b := Batched(db, cache, items, faults, k - 1);
      SavepointRefinesInsert(b.db, b.cache, items[k - 1], faults[k - 1]);
    }
  }

  /**
   Batch refinement: when begin, savepoints and commit succeed, InsertSpans leaves the tables, the
   cache and the per-item errors that InsertSpan leaves on the same items in order.
   */
  lemma {:induction false} BatchRefinesOneByOne(db: Db, cache: Cache, items: seq<Ingest>, faults: seq<ItemFault>)
    requires |items| == |faults| && CleanSavepoints(faults)
    ensures BatchInserted(db, cache, items, faults, false, false) == OneByOne(db, cache, items, faults, |items|)
  {
    BatchedIsOneByOne(db, cache, items, faults, |items|);
  }

  /** An item that fails inside an open batch leaves the tables as they were before it. */
  lemma {:induction false} FailedItemLeavesTables(
    db: Db, cache: Cache, items: seq<Ingest>, faults: seq<ItemFault>, k: nat)
    requires k < |items| == |faults| && !faults[k].rollBack && !faults[k].release
    requires Batched(db, cache, items, faults, k + 1).errors[k].Some?
    ensures Batched(db, cache, items, faults, k + 1).db == Batched(db, cache, items, faults, k).db
  {
    hide InsertedTx;
  }

  /** Losing the transaction loses every item, and says so in every entry; the cache is not restored. */
  lemma {:induction false} LostBatchReportsAll(
    db: Db, cache: Cache, items: seq<Ingest>, faults: seq<ItemFault>, begin: bool, commit: bool)
    requires |items| == |faults| && (begin || commit)
    ensures var b := BatchInserted(db, cache, items, faults, begin, commit);
            && b.db == db && |b.errors| == |items| && (forall i | 0 <= i < |items| :: b.errors[i].Some?)
            && (begin ==> b.cache == cache)
            && (!begin ==> forall i | 0 <= i < |items| && Batched(db, cache, items, faults, |items|).errors[i].Some? ::
                             b.errors[i] == Batched(db, cache, items, faults, |items|).errors[i])
  {
    hide Batched;
  }

  // ----- when a batch keeps the sums -----

  ghost function WithSpan(db: Db, span: Span): Forest {
    ForestOf(db.traces, db.spans)[span.spanId := SpanNode(span)]
  }

  /**
   The item that breaks the sums: its row is in, its propagation is refused, the refused rollback
   leaves the row there, and there was something to propagate to, or no end to it.
   */
  ghost predicate BreaksSums(db: Db, item: Ingest, fault: ItemFault) {
    && !fault.save && fault.rollBack && RefusesPropagation(db, item.span, fault.insert)
    && !UnraisedIsRight(WithSpan(db, item.span), item.span.spanId)
  }

  /** The insert stops at the UPDATE of the ancestors. */
  predicate RefusesPropagation(db: Db, span: Span, fault: Fault) {
    && fault == Some(Propagate) && Serializable(span) && StatusAllowed(span.status)
    && !HasSpan(db.spans, span.spanId) && span.parentId != ""
  }

  /** Nothing above the new span needs its counts. */
  ghost predicate UnraisedIsRight(g: Forest, n: string)
    requires n in g
  {
    ChainEnds(g, n) && (ParentOf(g, n) == None || SubtreeSum(g, n) == ZERO)
  }

  lemma {:induction false} UnraisedIndexedIff(traces: seq<TraceRow>, spans: seq<SpanRow>, span: Span, trace: nat)
    requires DistinctTraces(traces) && Indexed(traces, spans) && Serializable(span) && StatusAllowed(span.status)
    requires !HasSpan(spans, span.spanId) && 1 <= trace <= |traces| && traces[trace - 1].traceId == span.traceId
    ensures var g := ForestOf(traces, spans)[span.spanId := SpanNode(span)];
            Indexed(traces, WithRow(spans, span, trace)) <==> UnraisedIsRight(g, span.spanId)
  {
    hide Acyclic, SubtreeSum, ChainEnds, FormatTime, ForestOf, CumOf, Counted, WellFormedSpans, Raised;
    var n := span.spanId;
    var f := ForestOf(traces, spans);
    ForestKeys(traces, spans, n);
    var g := f[n := SpanNode(span)];
    var cum := CumOf(spans, span, trace);
    var row := RowOf(span, trace, cum);
    ForestAppend(traces, spans, row);
    SelfOfRow(span, trace, cum);
    AcyclicIffNewChainEnds(f, g, n);
    NewRowWellFormed(traces, span, trace, cum);
    RaisedWellFormed(traces, spans, row, {}, cum);
    NothingRaised(spans + [row], cum);
    if Acyclic(g) {
      CumIsSubtreeSum(traces, spans, span, trace, g);
      EachHasRow(traces, spans);
      UnraisedCountedIff(f, spans, g, row);
    }
  }

  lemma {:induction false} EachHasRow(traces: seq<TraceRow>, spans: seq<SpanRow>)
    ensures forall id | id in ForestOf(traces, spans) :: HasSpan(spans, id)
  {
    hide ForestOf, HasSpan;
    forall id | id in ForestOf(traces, spans)
      ensures HasSpan(spans, id)
    {
      ForestKeys(traces, spans, id);
    }
  }

  lemma {:induction false} UnraisedCountedIff(f: Forest, spans: seq<SpanRow>, g: Forest, row: SpanRow)
    requires Counted(f, spans) && Extends(f, g, row.spanId) && Acyclic(g) && row.cum == SubtreeSum(g, row.spanId)
    requires forall id | id in f :: HasSpan(spans, id)
    ensures Counted(g, spans + [row]) <==> ParentOf(g, row.spanId) == None || row.cum == ZERO
  {
    hide Acyclic, SubtreeSum, Reaches, ParentOf;
    var n, rows := row.spanId, spans + [row];
    InsertedSums(f, g, n);
    if ParentOf(g, n).Some? && row.cum != ZERO {
      var p := ParentOf(g, n).value;
      ParentIsReached(f, g, n);
      var i: nat :| i < |spans| && spans[i].spanId == p;
      assert rows[i] == spans[i];
    } else {
      if ParentOf(g, n) == None { RootReachesItself(g, n); }
      forall i | 0 <= i < |rows|
        ensures rows[i].spanId in g && rows[i].cum == SubtreeSum(g, rows[i].spanId)
      {
        assert i < |spans| ==> rows[i] == spans[i];
      }
    }
  }

  lemma {:induction false} ParentIsReached(f: Forest, g: Forest, n: string)
    requires Extends(f, g, n) && Acyclic(g) && ParentOf(g, n).Some?
    ensures ParentOf(g, n).value in f && Reaches(g, n, ParentOf(g, n).value)
  {
    hide Reaches, Acyclic;
    var p := ParentOf(g, n).value;
    StepReaches(g, n, p);
    StepReaches(g, p, p);
    NotOwnParent(g, n);
  }

  lemma {:induction false} RootReachesItself(g: Forest, n: string)
    requires n in g && ParentOf(g, n) == None
    ensures forall id :: Reaches(g, n, id) <==> id == n
  {
    hide Reaches;
    forall id: string
      ensures Reaches(g, n, id) <==> id == n
    {
      StepReaches(g, n, id);
    }
  }

  lemma {:induction false} NotOwnParent(g: Forest, n: string)
    requires n in g && Acyclic(g)
    ensures ParentOf(g, n) != Some(n)
  {
    assert Climb(g, n, 1) == ParentOf(g, n);
  }

  /** What an insert leaves inside an open transaction is sound, unless it is refused the propagation it needs. */
  lemma {:induction false} TxSoundIff(db: Db, cache: Cache, span: Span, project: string, fault: Fault)
    requires Sound(db) && WalkEnds(db, cache, span, project, fault)
    ensures Sound(InsertedTx(db, cache, span, project, fault).db) <==>
            !(RefusesPropagation(db, span, fault) && !UnraisedIsRight(WithSpan(db, span), span.spanId))
  {
    hide Indexed, UpsertedTrace, ForestOf, DistinctTraces, DistinctProjects, Persisted, EnsuredProject, HasSpan,
      UnraisedIsRight, StatusAllowed, ChainEnds;
    if Serializable(span) {
      var (projects, cache', id) := EnsuredProject(db.projects, cache, project, fault);
      EnsureKeeps(db.projects, cache, project, fault);
      EnsureFails(db.projects, cache, project, fault);
      if id.Ok? {
        UpsertKeeps(db.traces, db.spans, span, id.value, fault);
        UpsertFails(db.traces, span, id.value, fault);
        var (traces, trace) := UpsertedTrace(db.traces, span, id.value, fault);
        if trace.Ok? {
          PersistedSoundIff(db, traces, span, trace.value, id.value, fault);
        }
      }
    }
  }

  lemma {:induction false} EnsureFails(projects: seq<string>, cache: Cache, name: string, fault: Fault)
    ensures EnsuredProject(projects, cache, name, fault).2.Err? ==> fault != Some(Propagate)
  {}

  lemma {:induction false} UpsertFails(traces: seq<TraceRow>, span: Span, project: nat, fault: Fault)
    ensures UpsertedTrace(traces, span, project, fault).1.Err? ==> fault != Some(Propagate)
  {
    hide StartOf, EndOf;
  }

  lemma {:induction false} PersistedSoundIff(
    db: Db, traces: seq<TraceRow>, span: Span, trace: nat, project: nat, fault: Fault)
    requires Sound(db) && Serializable(span)
    requires UpsertedTrace(db.traces, span, project, fault) == (traces, Ok(trace))
    requires Persisted(traces, db.spans, span, trace, fault).1.None? && !HasSpan(db.spans, span.spanId) ==>
               ChainEnds(WithSpan(db, span), span.spanId)
    ensures DistinctTraces(traces)
    ensures Indexed(traces, Persisted(traces, db.spans, span, trace, fault).0) <==>
            !(RefusesPropagation(db, span, fault) && !UnraisedIsRight(WithSpan(db, span), span.spanId))
  {
    hide Indexed, UpsertedTrace, ForestOf, DistinctTraces, WithRow, CumOf, Above, Raised, HasSpan,
      UnraisedIsRight, StatusAllowed, ChainEnds;
    UpsertKeeps(db.traces, db.spans, span, project, fault);
    if Persisted(traces, db.spans, span, trace, fault).1.None? {
      PersistStep(db.traces, db.spans, span, project, fault);
    } else if RefusesPropagation(db, span, fault) {
      UnraisedIndexedIff(traces, db.spans, span, trace);
    }
  }

  /** One batch item keeps the tables sound if and only if it does not break the sums in that way. */
  lemma {:induction false} ItemSoundIff(db: Db, cache: Cache, item: Ingest, fault: ItemFault)
    requires Sound(db) && (!fault.save ==> WalkEnds(db, cache, item.span, item.project, fault.insert))
    ensures Sound(Savepointed(db, cache, item, fault).db) <==> !BreaksSums(db, item, fault)
  {
    hide Sound, InsertedTx, RefusesPropagation, UnraisedIsRight, WalkEnds, WithSpan;
    if !fault.save {
      TxSoundIff(db, cache, item.span, item.project, fault.insert);
      RefusalIsError(db, cache, item.span, item.project, fault.insert);
    }
  }

  lemma {:induction false} RefusalIsError(db: Db, cache: Cache, span: Span, project: string, fault: Fault)
    ensures RefusesPropagation(db, span, fault) ==> InsertedTx(db, cache, span, project, fault).error.Some?
  {
    hide UpsertedTrace, EnsuredProject, HasSpan, StatusAllowed, WithRow, CumOf, Above, Raised;
  }

  /** No item up to k breaks the sums, in the state the batch has reached by then. */
  ghost predicate NoneBreaks(db: Db, cache: Cache, items: seq<Ingest>, faults: seq<ItemFault>, k: nat)
    requires k <= |items| == |faults|
  {
    forall j | 0 <= j < k :: !BreaksSums(Batched(db, cache, items, faults, j).db, items[j], faults[j])
  }

  /** Inside a batch the tables stay sound up to the first item that breaks the sums, and not past it. */
  lemma {:induction false} BatchedSoundIff(db: Db, cache: Cache, items: seq<Ingest>, faults: seq<ItemFault>, k: nat)
    requires k <= |items| == |faults| && Sound(db) && BatchWalksEnd(db, cache, items, faults)
    ensures NoneBreaks(db, cache, items, faults, k) ==> Sound(Batched(db, cache, items, faults, k).db)
    ensures k > 0 && NoneBreaks(db, cache, items, faults, k - 1) && !NoneBreaks(db, cache, items, faults, k) ==>
              !Sound(Batched(db, cache, items, faults, k).db)
    decreases k
  {
    hide Sound, Savepointed, BreaksSums, WalkEnds;
    if k > 0 {
      BatchedSoundIff(db, cache, items, faults, k - 1);
      if NoneBreaks(db, cache, items, faults, k - 1) {
        var b := Batched(db, cache, items, faults, k - 1);
        ItemSoundIff(b.db, b.cache, items[k - 1], faults[k - 1]);
      }
    }
  }

  /** A batch on sound tables leaves sound tables if it is lost as a whole, or no item breaks the sums. */
  lemma {:induction false} BatchKeepsSound(
    db: Db, cache: Cache, items: seq<Ingest>, faults: seq<ItemFault>, begin: bool, commit: bool)
    requires |items| == |faults| && Sound(db) && (!begin ==> BatchWalksEnd(db, cache, items, faults))
    requires begin || commit || NoneBreaks(db, cache, items, faults, |items|)
    ensures Sound(BatchInserted(db, cache, items, faults, begin, commit).db)
  {
    hide Sound, BatchWalksEnd, NoneBreaks;
    if !begin && !commit {
      BatchedSoundIff(db, cache, items, faults, |items|);
    }
  }

  /** Where every ROLLBACK TO succeeds, nothing breaks the sums, whatever else fails. */
  lemma {:induction false} RollBacksSuffice(db: Db, cache: Cache, items: seq<Ingest>, faults: seq<ItemFault>)
    requires |items| == |faults| && forall k | 0 <= k < |faults| :: !faults[k].rollBack
    ensures NoneBreaks(db, cache, items, faults, |items|)
  {
    hide RefusesPropagation, UnraisedIsRight;
  }
}
