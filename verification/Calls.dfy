/**
 Runs that mix single inserts and batches. The rows such a run leaves are those of a faultless run of
 InsertSpan over the spans it stored.
 */
module Calls {
  import opened Prelude
  import opened Text
  import opened Timestamps
  import opened Forest
  import opened Tables
  import opened Steps
  import opened Runs
  import opened Orders
  import opened Batches
  import opened CacheCoherence

  datatype AnyCall = One(arrival: Arrival)
                   | Many(items: seq<Ingest>, faults: seq<ItemFault>, begin: bool, commit: bool)

  /** A call of InsertSpan, or of InsertSpans with what fails around each item. */
  type Call = c: AnyCall | c.Many? ==> |c.items| == |c.faults|
    witness Many([], [], false, false)

  ghost function Called(s: State, c: Call): State {
    match c
    case One(a) => var o := Arrive(s, a); State(o.db, o.cache)
    case Many(items, faults, begin, commit) =>
      var b := BatchInserted(s.db, s.cache, items, faults, begin, commit);
      State(b.db, b.cache)
  }

  ghost function CallRun(calls: seq<Call>): State {
    if calls == [] then State(EMPTY, map[]) else Called(CallRun(calls[..|calls| - 1]), calls[|calls| - 1])
  }

  ghost predicate CallReturns(s: State, c: Call) {
    match c
    case One(a) => WalkEnds(s.db, s.cache, a.span, a.project, a.fault)
    case Many(items, faults, begin, _) => !begin ==> BatchWalksEnd(s.db, s.cache, items, faults)
  }

  /** Every call returned: no walk ran into a cycle of parent links. */
  ghost predicate CallsReturn(calls: seq<Call>) {
    calls != [] ==>
      CallsReturn(calls[..|calls| - 1]) && CallReturns(CallRun(calls[..|calls| - 1]), calls[|calls| - 1])
  }

  // ----- the sums -----

  ghost predicate CallBreaks(s: State, c: Call) {
    && c.Many? && !c.begin && !c.commit
    && !NoneBreaks(s.db, s.cache, c.items, c.faults, |c.items|)
  }

  ghost predicate NoCallBreaks(calls: seq<Call>) {
    calls != [] ==>
      NoCallBreaks(calls[..|calls| - 1]) && !CallBreaks(CallRun(calls[..|calls| - 1]), calls[|calls| - 1])
  }

  /** After any calls none of which breaks the sums, the tables are sound. */
  lemma {:induction false} CallRunIsSound(calls: seq<Call>)
    requires CallsReturn(calls) && NoCallBreaks(calls)
    ensures Sound(CallRun(calls).db)
    decreases |calls|
  {
    hide Sound, BatchInserted, Inserted, WalkEnds, BatchWalksEnd, NoneBreaks;
    if calls == [] {
      EmptyIsSound();
    } else {
      var front, c := calls[..|calls| - 1], calls[|calls| - 1];
      CallRunIsSound(front);
      var s := CallRun(front);
      match c {
        case One(a) =>
          InsertKeepsSound(s.db, s.cache, a.span, a.project, a.fault);
        case Many(items, faults, begin, commit) =>
          BatchKeepsSound(s.db, s.cache, items, faults, begin, commit);
      }
    }
  }

  /** So in such a run each row holds the counts of itself and all persisted spans below it. */
  lemma {:induction false} SubtreeSumsOverCalls(calls: seq<Call>, i: nat)
    requires CallsReturn(calls) && NoCallBreaks(calls) && i < |CallRun(calls).db.spans|
    ensures var db := CallRun(calls).db;
            var f := ForestOf(db.traces, db.spans);
            && Acyclic(f) && db.spans[i].spanId in f
            && f[db.spans[i].spanId] == NodeOf(db.traces, db.spans[i])
            && db.spans[i].cum == SumOf(Selfs(f), set x | x in f && Reaches(f, x, db.spans[i].spanId))
  {
    hide ForestOf, Reaches, OnCycle, CallRun, CallsReturn, NoCallBreaks, SumOf;
    CallRunIsSound(calls);
    var db := CallRun(calls).db;
    ForestAt(db.traces, db.spans, i);
  }

  // ----- the same rows up to projects -----

  predicate SameTraces(a: seq<TraceRow>, b: seq<TraceRow>) {
    |a| == |b| && forall t | 0 <= t < |a| :: a[t].(project := 0) == b[t].(project := 0)
  }

  predicate SameRows(a: Db, b: Db) {
    a.spans == b.spans && SameTraces(a.traces, b.traces)
  }

  lemma {:induction false} SameForest(a: seq<TraceRow>, b: seq<TraceRow>, spans: seq<SpanRow>)
    requires SameTraces(a, b)
    ensures ForestOf(a, spans) == ForestOf(b, spans)
    decreases |spans|
  {
    if spans != [] {
      SameForest(a, b, spans[..|spans| - 1]);
    }
  }

  lemma {:induction false} SameFound(a: seq<TraceRow>, b: seq<TraceRow>, traceId: string)
    requires SameTraces(a, b)
    ensures FindTrace(a, traceId) == FindTrace(b, traceId)
    decreases |a|
  {
    if a != [] {
      SameFound(a[..|a| - 1], b[..|b| - 1], traceId);
    }
  }

  /** A call that got through would have got through without faults, on the same rows. */
  lemma {:induction false} SameUpsert(
    a: seq<TraceRow>, b: seq<TraceRow>, span: Span, project: nat, fault: Fault, other: nat)
    requires SameTraces(a, b) && UpsertedTrace(a, span, project, fault).1.Ok?
    ensures UpsertedTrace(b, span, other, None).1 == UpsertedTrace(a, span, project, fault).1
    ensures SameTraces(UpsertedTrace(a, span, project, fault).0, UpsertedTrace(b, span, other, None).0)
  {
    hide FormatTime, Less, StartOf, EndOf, Started;
    SameFound(a, b, span.traceId);
    if FindTrace(a, span.traceId).Some? {
      var i := FindTrace(a, span.traceId).value - 1;
      SameWidened(a[i], b[i], span);
    }
  }

  lemma {:induction false} SameWidened(t: TraceRow, u: TraceRow, span: Span)
    requires t.(project := 0) == u.(project := 0)
    ensures Widened(t, span).(project := 0) == Widened(u, span).(project := 0)
  {
    hide FormatTime, Less;
    assert t.start == u.start && t.end == u.end;
  }

  lemma {:induction false} SamePersisted(
    a: seq<TraceRow>, b: seq<TraceRow>, spans: seq<SpanRow>, span: Span, trace: nat, fault: Fault)
    requires SameTraces(a, b) && Serializable(span) && Persisted(a, spans, span, trace, fault).1.None?
    ensures Persisted(b, spans, span, trace, None) == Persisted(a, spans, span, trace, fault)
  {
    hide ForestOf, CumOf, HasSpan, StatusAllowed, Raised, Above;
    if !HasSpan(spans, span.spanId) {
      SameForest(a, b, WithRow(spans, span, trace));
    }
  }

  lemma {:induction false} EnsuredFaultless(projects: seq<string>, cache: Cache, name: string)
    ensures EnsuredProject(projects, cache, name, None).2.Ok?
  {}

  lemma {:induction false} SameInsert(s: State, r: State, span: Span, project: string, fault: Fault)
    requires SameRows(s.db, r.db) && InsertedTx(s.db, s.cache, span, project, fault).error.None?
    ensures var o := Arrive(r, Arrival(span, project, None));
            && o.error.None? && SameRows(InsertedTx(s.db, s.cache, span, project, fault).db, o.db)
    ensures WalkEnds(s.db, s.cache, span, project, fault) ==> WalkEnds(r.db, r.cache, span, project, None)
    ensures Serializable(span) && StatusAllowed(span.status)
  {
    hide EnsuredProject, UpsertedTrace, Persisted, HasSpan, ChainEnds, SameTraces, ForestOf, SpanNode;
    var (p, _, id) := EnsuredProject(s.db.projects, s.cache, project, fault);
    var other := EnsuredProject(r.db.projects, r.cache, project, None).2;
    EnsuredFaultless(r.db.projects, r.cache, project);
    SameUpsert(s.db.traces, r.db.traces, span, id.value, fault, other.value);
    var (a, trace) := UpsertedTrace(s.db.traces, span, id.value, fault);
    var b := UpsertedTrace(r.db.traces, span, other.value, None).0;
    SamePersisted(a, b, s.db.spans, span, trace.value, fault);
    SameForest(s.db.traces, r.db.traces, s.db.spans);
    PersistedStatus(a, s.db.spans, span, trace.value, fault);
  }

  lemma {:induction false} PersistedStatus(
    traces: seq<TraceRow>, spans: seq<SpanRow>, span: Span, trace: nat, fault: Fault)
    requires Serializable(span) && Persisted(traces, spans, span, trace, fault).1.None?
    ensures StatusAllowed(span.status)
  {}

  // ----- what was stored -----

  /** The items of a batch whose insert got through, as faultless arrivals. */
  ghost function KeptItems(s: State, items: seq<Ingest>, faults: seq<ItemFault>, k: nat): seq<Arrival>
    requires k <= |items| == |faults|
    decreases k
  {
    if k == 0 then []
    else
      var b := Batched(s.db, s.cache, items, faults, k - 1);
      var rest := KeptItems(s, items, faults, k - 1);
      if !faults[k - 1].save && GetsThrough(State(b.db, b.cache), items[k - 1], faults[k - 1].insert)
      then rest + [Arrival(items[k - 1].span, items[k - 1].project, None)] else rest
  }

  ghost predicate GetsThrough(s: State, item: Ingest, fault: Fault) {
    InsertedTx(s.db, s.cache, item.span, item.project, fault).error.None?
  }

  ghost function Kept(s: State, c: Call): seq<Arrival> {
    match c
    case One(a) => if Arrive(s, a).error.None? then [Arrival(a.span, a.project, None)] else []
    case Many(items, faults, begin, commit) => if begin || commit then [] else KeptItems(s, items, faults, |items|)
  }

  /** What a run stored, call by call: the spans that reached the tables for good. */
  ghost function KeptBy(calls: seq<Call>): seq<Arrival> {
    if calls == [] then []
    else KeptBy(calls[..|calls| - 1]) + Kept(CallRun(calls[..|calls| - 1]), calls[|calls| - 1])
  }

  // ----- refused rollbacks -----

  /** A batch item as an arrival: a refused SAVEPOINT is a refused BEGIN, and there is no COMMIT of its own. */
  function AsArrival(item: Ingest, fault: ItemFault): Arrival {
    var statement := if fault.save then Some(Begin)
                     else if fault.insert == Some(Begin) || fault.insert == Some(Commit) then None
                     else fault.insert;
    Arrival(item.span, item.project, statement)
  }

  ghost function BatchState(s: State, items: seq<Ingest>, faults: seq<ItemFault>, k: nat): State
    requires k <= |items| == |faults|
  {
    var b := Batched(s.db, s.cache, items, faults, k);
    State(b.db, b.cache)
  }

  /** ensureProject gets through. */
  predicate EnsuresProject(s: State, a: Arrival) {
    a.project in s.cache ||
    (a.fault != Some(SelectProject) && (a.project in s.db.projects || a.fault != Some(CreateProject)))
  }

  /** The upsert changes the trace rows, even if it fails after the first of two updates. */
  predicate ChangesTraces(traces: seq<TraceRow>, span: Span, fault: Fault) {
    fault != Some(SelectTrace) &&
    match FindTrace(traces, span.traceId)
    case None => fault != Some(CreateTrace)
    case Some(id) =>
      if Less(FormatTime(span.start), traces[id - 1].start) then fault != Some(UpdateStart)
      else Less(traces[id - 1].end, FormatTime(span.end)) && fault != Some(UpdateEnd)
  }

  /** The insert fails, its rollback is refused, and it has changed trace or span rows by then. */
  predicate SpillsRows(s: State, item: Ingest, fault: ItemFault) {
    var a := AsArrival(item, fault);
    && fault.rollBack && !fault.save && Serializable(item.span) && EnsuresProject(s, a) && FailsLater(s, a)
    && (ChangesTraces(s.db.traces, item.span, a.fault) || RefusesPropagation(s.db, item.span, a.fault))
  }

  lemma {:induction false} OuterFaultsIgnored(db: Db, cache: Cache, span: Span, project: string, fault: Fault)
    requires fault == Some(Begin) || fault == Some(Commit)
    ensures InsertedTx(db, cache, span, project, fault) == InsertedTx(db, cache, span, project, None)
  {
    hide EnsuredProject, UpsertedTrace, Persisted;
    if Serializable(span) {
      EnsureIgnores(db.projects, cache, project, fault);
      var (_, _, id) := EnsuredProject(db.projects, cache, project, fault);
      if id.Ok? {
        UpsertIgnores(db.traces, span, id.value, fault);
        var (traces, trace) := UpsertedTrace(db.traces, span, id.value, fault);
        if trace.Ok? {
          PersistIgnores(traces, db.spans, span, trace.value, fault);
        }
      }
    }
  }

  lemma {:induction false} EnsureIgnores(projects: seq<string>, cache: Cache, name: string, fault: Fault)
    requires fault == Some(Begin) || fault == Some(Commit)
    ensures EnsuredProject(projects, cache, name, fault) == EnsuredProject(projects, cache, name, None)
  {}

  lemma {:induction false} UpsertIgnores(traces: seq<TraceRow>, span: Span, project: nat, fault: Fault)
    requires fault == Some(Begin) || fault == Some(Commit)
    ensures UpsertedTrace(traces, span, project, fault) == UpsertedTrace(traces, span, project, None)
  {
    hide StartOf, EndOf;
  }

  lemma {:induction false} PersistIgnores(
    traces: seq<TraceRow>, spans: seq<SpanRow>, span: Span, trace: nat, fault: Fault)
    requires Serializable(span) && (fault == Some(Begin) || fault == Some(Commit))
    ensures Persisted(traces, spans, span, trace, fault) == Persisted(traces, spans, span, trace, None)
  {
    hide WithRow, Above, Raised, HasSpan, CumOf;
  }

  /** Inside the transaction the item's insert is the arrival's, apart from BEGIN. */
  lemma {:induction false} ItemTx(s: State, item: Ingest, fault: ItemFault)
    requires !fault.save
    ensures InsertedTx(s.db, s.cache, item.span, item.project, fault.insert) ==
            InsertedTx(s.db, s.cache, item.span, item.project, AsArrival(item, fault).fault)
  {
    hide InsertedTx;
    if fault.insert == Some(Begin) || fault.insert == Some(Commit) {
      OuterFaultsIgnored(s.db, s.cache, item.span, item.project, fault.insert);
    }
  }

  lemma {:induction false} EnsuresIff(s: State, a: Arrival)
    ensures EnsuredProject(s.db.projects, s.cache, a.project, a.fault).2.Ok? <==> EnsuresProject(s, a)
  {}

  lemma {:induction false} TracesChangeIff(traces: seq<TraceRow>, span: Span, project: nat, fault: Fault)
    ensures SameTraces(UpsertedTrace(traces, span, project, fault).0, traces) <==> !ChangesTraces(traces, span, fault)
    ensures !ChangesTraces(traces, span, fault) ==> UpsertedTrace(traces, span, project, fault).0 == traces
  {
    hide FormatTime, Less, NewTrace;
    var after := UpsertedTrace(traces, span, project, fault).0;
    if FindTrace(traces, span.traceId).Some? {
      var i := FindTrace(traces, span.traceId).value - 1;
      LessIsStrictOrder(FormatTime(span.start), traces[i].start, "");
      LessIsStrictOrder(traces[i].end, FormatTime(span.end), "");
      assert after[i].(project := 0) == traces[i].(project := 0) <==>
             after[i].start == traces[i].start && after[i].end == traces[i].end;
      forall t | 0 <= t < |traces| && t != i
        ensures after[t] == traces[t]
      {}
      assert after[i] == traces[i] ==> after == traces;
    }
  }

  lemma {:induction false} SpansChangeIff(
    traces: seq<TraceRow>, spans: seq<SpanRow>, span: Span, trace: nat, fault: Fault)
    requires Serializable(span) && Persisted(traces, spans, span, trace, fault).1.Some?
    ensures Persisted(traces, spans, span, trace, fault).0 == spans <==>
            !(fault == Some(Propagate) && StatusAllowed(span.status) && !HasSpan(spans, span.spanId) &&
              span.parentId != "")
  {
    hide RowOf, CumOf, Above, Raised, HasSpan, StatusAllowed, ForestOf;
  }

  /** What a failed insert leaves in the open transaction, in terms of what it was given. */
  lemma {:induction false} FailedTxRows(s: State, a: Arrival)
    requires a.fault != Some(Begin) && a.fault != Some(Commit)
    ensures var tx := InsertedTx(s.db, s.cache, a.span, a.project, a.fault);
            && (tx.error.Some? <==> !Serializable(a.span) || !EnsuresProject(s, a) || FailsLater(s, a))
            && (tx.error.Some? ==>
                  (SameRows(tx.db, s.db) <==>
                     !(Serializable(a.span) && EnsuresProject(s, a) &&
                       (ChangesTraces(s.db.traces, a.span, a.fault) || RefusesPropagation(s.db, a.span, a.fault)))))
            && (tx.error.Some? && SameRows(tx.db, s.db) ==> tx.db == s.db.(projects := tx.db.projects))
  {
    hide EnsuredProject, UpsertedTrace, Persisted, HasSpan, StatusAllowed, FailsTrace, SameTraces, ChangesTraces,
      EnsuresProject;
    EnsuresIff(s, a);
    SameAsItself(s.db.traces);
    if Serializable(a.span) && EnsuresProject(s, a) {
      var (projects, cache, id) := EnsuredProject(s.db.projects, s.cache, a.project, a.fault);
      TraceFailsIff(s.db.traces, a.span, id.value, a.fault);
      TracesChangeIff(s.db.traces, a.span, id.value, a.fault);
      var (traces, trace) := UpsertedTrace(s.db.traces, a.span, id.value, a.fault);
      if trace.Ok? {
        PersistFailsIff(traces, s.db.spans, a.span, trace.value, a.fault);
        if Persisted(traces, s.db.spans, a.span, trace.value, a.fault).1.Some? {
          SpansChangeIff(traces, s.db.spans, a.span, trace.value, a.fault);
        }
      } else {
        TraceFailure(s.db.traces, a.span, a.fault);
      }
    }
  }

  lemma {:induction false} SameAsItself(traces: seq<TraceRow>)
    ensures SameTraces(traces, traces)
  {}

  lemma {:induction false} TraceFailure(traces: seq<TraceRow>, span: Span, fault: Fault)
    ensures FailsTrace(traces, span, fault) ==> fault != Some(Propagate)
  {}

  /** An item that does not get through leaves the rows alone if and only if it does not spill them. */
  lemma {:induction false} ItemKeepsRowsIff(s: State, item: Ingest, fault: ItemFault)
    requires fault.save || !GetsThrough(s, item, fault.insert)
    ensures SameRows(Savepointed(s.db, s.cache, item, fault).db, s.db) <==> !SpillsRows(s, item, fault)
  {
    hide InsertedTx, FailsLater, EnsuresProject, ChangesTraces, RefusesPropagation, SameTraces;
    SameAsItself(s.db.traces);
    if !fault.save {
      ItemTx(s, item, fault);
      FailedTxRows(s, AsArrival(item, fault));
    }
  }

  ghost predicate NoneSpills(s: State, items: seq<Ingest>, faults: seq<ItemFault>, k: nat)
    requires k <= |items| == |faults|
  {
    forall j | 0 <= j < k :: !SpillsRows(BatchState(s, items, faults, j), items[j], faults[j])
  }

  /** No item of a batch that commits spills rows. */
  ghost predicate Restores(s: State, c: Call) {
    c.Many? && !c.begin && !c.commit ==> NoneSpills(s, c.items, c.faults, |c.items|)
  }

  ghost predicate AllRestore(calls: seq<Call>) {
    calls != [] ==>
      AllRestore(calls[..|calls| - 1]) && Restores(CallRun(calls[..|calls| - 1]), calls[|calls| - 1])
  }

  // ----- the rows of mixed runs -----

  /** Faultless arrivals of spans that can be stored. */
  predicate Clean(arrivals: seq<Arrival>) {
    forall i | 0 <= i < |arrivals| :: arrivals[i].fault == None && Storable(arrivals[i].span)
  }

  lemma {:induction false} CleanCommits(arrivals: seq<Arrival>)
    requires Clean(arrivals)
    ensures SpansOf(Committed(arrivals)) == Offered(arrivals)
  {
    hide Committed, Storable;
    FaultlessCommits(arrivals);
    assert StorableOf(Offered(arrivals)) == Offered(arrivals);
  }

  ghost predicate Follows(s: State, kept: seq<Arrival>) {
    Returns(kept) && Clean(kept) && SameRows(s.db, Run(kept).db)
  }

  lemma {:induction false} FollowsOne(s: State, kept: seq<Arrival>, item: Ingest, fault: Fault)
    requires Follows(s, kept) && GetsThrough(s, item, fault)
    requires WalkEnds(s.db, s.cache, item.span, item.project, fault)
    ensures var tx := InsertedTx(s.db, s.cache, item.span, item.project, fault);
            Follows(State(tx.db, tx.cache), kept + [Arrival(item.span, item.project, None)])
  {
    hide InsertedTx, SameRows, WalkEnds, Inserted, StatusAllowed, Serializable;
    var a := Arrival(item.span, item.project, None);
    SameInsert(s, Run(kept), item.span, item.project, fault);
    assert (kept + [a])[..|kept|] == kept;
  }

  lemma {:induction false} RowsFollow(a: Db, b: Db, c: Db)
    requires SameRows(b, c)
    ensures SameRows(a, b) <==> SameRows(a, c)
  {
    forall t | 0 <= t < |b.traces|
      ensures b.traces[t].(project := 0) == c.traces[t].(project := 0)
    {}
  }

  lemma {:induction false} FollowsItem(s: State, kept: seq<Arrival>, item: Ingest, fault: ItemFault)
    requires Follows(s, kept) && (!fault.save ==> WalkEnds(s.db, s.cache, item.span, item.project, fault.insert))
    ensures var o := Savepointed(s.db, s.cache, item, fault);
            var more := if !fault.save && GetsThrough(s, item, fault.insert)
                        then [Arrival(item.span, item.project, None)] else [];
            Follows(State(o.db, o.cache), kept + more) <==> !SpillsRows(s, item, fault)
  {
    hide InsertedTx, WalkEnds, Returns, Clean, SameRows, Run, FailsLater, EnsuresProject, ChangesTraces,
      RefusesPropagation;
    if !fault.save && GetsThrough(s, item, fault.insert) {
      FollowsOne(s, kept, item, fault.insert);
      ItemTx(s, item, fault);
      FailedTxRows(s, AsArrival(item, fault));
    } else {
      assert kept + [] == kept;
      ItemKeepsRowsIff(s, item, fault);
      RowsFollow(Savepointed(s.db, s.cache, item, fault).db, s.db, Run(kept).db);
    }
  }

  /** Inside a batch the rows are those of a faultless run up to the first spill, and not right after it. */
  lemma {:induction false} FollowsItems(
    s: State, kept: seq<Arrival>, items: seq<Ingest>, faults: seq<ItemFault>, k: nat)
    requires Follows(s, kept) && k <= |items| == |faults| && BatchWalksEnd(s.db, s.cache, items, faults)
    ensures NoneSpills(s, items, faults, k) ==>
              Follows(BatchState(s, items, faults, k), kept + KeptItems(s, items, faults, k))
    ensures k > 0 && NoneSpills(s, items, faults, k - 1) && !NoneSpills(s, items, faults, k) ==>
              !Follows(BatchState(s, items, faults, k), kept + KeptItems(s, items, faults, k))
    decreases k
  {
    hide InsertedTx, WalkEnds, Follows, Savepointed, SpillsRows;
    if k == 0 {
      assert kept + [] == kept;
    } else {
      FollowsItems(s, kept, items, faults, k - 1);
      if NoneSpills(s, items, faults, k - 1) {
        var now, all := BatchState(s, items, faults, k - 1), kept + KeptItems(s, items, faults, k - 1);
        var item, fault := items[k - 1], faults[k - 1];
        FollowsItem(now, all, item, fault);
        var a := Arrival(item.span, item.project, None);
        assert all + [a] == kept + (KeptItems(s, items, faults, k - 1) + [a]);
        assert all + [] == kept + KeptItems(s, items, faults, k - 1);
      }
    }
  }

  lemma {:induction false} FollowsCall(s: State, kept: seq<Arrival>, c: Call)
    requires Follows(s, kept) && CallReturns(s, c) && Restores(s, c)
    ensures Follows(Called(s, c), kept + Kept(s, c))
  {
    hide InsertedTx, WalkEnds, Returns, Clean, SameRows, Run, Batched, BatchWalksEnd, KeptItems, NoneSpills;
    assert kept + [] == kept;
    match c {
      case One(a) =>
        if Arrive(s, a).error.None? {
          FollowsOne(s, kept, Ingest(a.span, a.project), a.fault);
        }
      case Many(items, faults, begin, commit) =>
        if !begin && !commit {
          FollowsItems(s, kept, items, faults, |items|);
        }
    }
  }

  /**
   Whatever mix of single inserts and batches, whatever failed as long as nothing spills: the rows are
   those of a faultless run of InsertSpan over the spans that were stored.
   */
  lemma {:induction false} CallsFollowInserts(calls: seq<Call>)
    requires CallsReturn(calls) && AllRestore(calls)
    ensures Follows(CallRun(calls), KeptBy(calls))
    decreases |calls|
  {
    hide Called, Kept, CallReturns, Restores;
    if calls != [] {
      CallsFollowInserts(calls[..|calls| - 1]);
      FollowsCall(CallRun(calls[..|calls| - 1]), KeptBy(calls[..|calls| - 1]), calls[|calls| - 1]);
    }
  }

  lemma {:induction false} SameStored(a: Db, b: Db)
    requires SameRows(a, b)
    ensures StoredSpans(a) == StoredSpans(b) && Ranges(a) == Ranges(b)
  {
    forall i | 0 <= i < |a.spans|
      ensures Stored(a, a.spans[i]) == Stored(b, b.spans[i])
    {}
    forall i | 0 <= i < |a.traces|
      ensures Range(a.traces[i].traceId, a.traces[i].start, a.traces[i].end) ==
              Range(b.traces[i].traceId, b.traces[i].start, b.traces[i].end)
    {
      assert a.traces[i].(project := 0) == b.traces[i].(project := 0);
    }
  }

  /** The rows of a mixed run in closed form, and so for any two runs that stored the same spans. */
  lemma {:induction false} CallRowsInClosedForm(calls: seq<Call>)
    requires CallsReturn(calls) && AllRestore(calls) && Consistent(Offered(KeptBy(calls)))
    ensures AllSerializable(Offered(KeptBy(calls)))
    ensures StoredSpans(CallRun(calls).db) == FinalSpans(Offered(KeptBy(calls)))
    ensures Ranges(CallRun(calls).db) == Ranges(Run(KeptBy(calls)).db)
  {
    hide CallRun, CallsReturn, AllRestore, SameRows, Run, Returns, Clean, Offered, KeptBy, Committed,
      FinalSpans, Consistent, AllSerializable;
    CallsFollowInserts(calls);
    SameStored(CallRun(calls).db, Run(KeptBy(calls)).db);
    CleanCommits(KeptBy(calls));
    RowsInClosedForm(KeptBy(calls));
  }

  /** Order and grouping do not matter: only which spans were stored. */
  lemma {:induction false} GroupingDoesNotMatter(a: seq<Call>, b: seq<Call>)
    requires CallsReturn(a) && AllRestore(a) && CallsReturn(b) && AllRestore(b)
    requires Offered(KeptBy(a)) == Offered(KeptBy(b)) && Consistent(Offered(KeptBy(a)))
    ensures StoredSpans(CallRun(a).db) == StoredSpans(CallRun(b).db)
    ensures Ranges(CallRun(a).db) == Ranges(CallRun(b).db)
  {
    hide CallRun, CallsReturn, AllRestore, Run, Returns, Clean, Offered, KeptBy, Committed, FinalSpans,
      Consistent, SameRows, AllSerializable;
    CallRowsInClosedForm(a);
    CallRowsInClosedForm(b);
    CallsFollowInserts(a);
    CallsFollowInserts(b);
    CleanCommits(KeptBy(a));
    CleanCommits(KeptBy(b));
    OrderIndependence(KeptBy(a), KeptBy(b));
  }
}
