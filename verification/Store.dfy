/**
 The store: tables updated in place inside nested transactions, and the project cache beside them.
 Each method is proved to do exactly what the functions of module Tables say of the same step.
 */
module Store {
  import opened Prelude
  import opened Text
  import opened Timestamps
  import opened Forest
  import opened Tables
  import opened Steps

  // ----- the recursive walk, row by row -----

  /** The n-th row of the recursive query holds the span n links above the first. */
  ghost predicate Climbs(f: Forest, spans: seq<SpanRow>, start: string, visited: seq<nat>) {
    forall k | 0 <= k < |visited| ::
      1 <= visited[k] <= |spans| && start in f && Climb(f, start, k) == Some(spans[visited[k] - 1].spanId)
  }

  ghost function IdsOf(spans: seq<SpanRow>, visited: seq<nat>): set<string>
    requires forall k | 0 <= k < |visited| :: 1 <= visited[k] <= |spans|
  {
    set k | 0 <= k < |visited| :: spans[visited[k] - 1].spanId
  }

  lemma {:induction false} NoneAfterNone(f: Forest, id: string, j: nat, k: nat)
    requires id in f && j <= k && Climb(f, id, j) == None
    ensures Climb(f, id, k) == None
  {
    ClimbAdd(f, id, j, k - j);
  }

  /** A finished walk has met every span above the start and nothing else. */
  lemma {:induction false} WalkIsComplete(f: Forest, spans: seq<SpanRow>, start: string, visited: seq<nat>)
    requires start in f && Climbs(f, spans, start, visited) && Climb(f, start, |visited|) == None
    ensures IdsOf(spans, visited) == set a | a in f && Reaches(f, start, a)
  {
    forall a | a in f && Reaches(f, start, a)
      ensures a in IdsOf(spans, visited)
    {
      var k: nat :| Climb(f, start, k) == Some(a);
      if k >= |visited| { NoneAfterNone(f, start, |visited|, k); }
      assert spans[visited[k] - 1].spanId == a;
    }
    forall a | a in IdsOf(spans, visited)
      ensures a in f && Reaches(f, start, a)
    {
      var k: nat :| k < |visited| && spans[visited[k] - 1].spanId == a;
      assert Climb(f, start, k) == Some(a);
    }
  }

  /** A finished walk has met no row twice. */
  lemma {:induction false} WalkIsSimple(
    f: Forest, spans: seq<SpanRow>, start: string, visited: seq<nat>, i: nat, j: nat)
    requires start in f && Climbs(f, spans, start, visited) && ChainEnds(f, start)
    requires i < j < |visited|
    ensures visited[i] != visited[j]
  {
    if visited[i] == visited[j] {
      var x := spans[visited[i] - 1].spanId;
      assert Climb(f, start, i) == Some(x) && Climb(f, start, j) == Some(x);
      ClimbAdd(f, start, i, j - i);
      assert Reaches(f, start, x) && OnCycle(f, x);
      EndsIffNoCycleAbove(f, start);
    }
  }

  lemma {:induction false} WalkNeverRepeats(f: Forest, spans: seq<SpanRow>, start: string, visited: seq<nat>)
    requires start in f && Climbs(f, spans, start, visited) && ChainEnds(f, start)
    ensures forall i, j | 0 <= i < j < |visited| :: visited[i] != visited[j]
  {
    hide Climbs, ChainEnds;
    forall i, j | 0 <= i < j < |visited|
      ensures visited[i] != visited[j]
    {
      WalkIsSimple(f, spans, start, visited, i, j);
    }
  }

  // ----- keys survive every step, finished or not -----

  lemma {:induction false} TxKeepsKeys(db: Db, cache: Cache, span: Span, project: string, fault: Fault)
    requires Keyed(db.traces, db.spans)
    ensures var r := InsertedTx(db, cache, span, project, fault); Keyed(r.db.traces, r.db.spans)
  {
    hide FormatTime, ForestOf, Above, CumOf, DistinctProjects;
    if Serializable(span) {
      var (projects, cache', id) := EnsuredProject(db.projects, cache, project, fault);
      if id.Ok? {
        UpsertKeepsKeys(db.traces, db.spans, span, id.value, fault);
        var (traces, trace) := UpsertedTrace(db.traces, span, id.value, fault);
        if trace.Ok? {
          PersistKeepsKeys(traces, db.spans, span, trace.value, fault);
        }
      }
    }
  }

  lemma {:induction false} SavepointKeepsKeys(db: Db, cache: Cache, item: Ingest, fault: ItemFault)
    requires Keyed(db.traces, db.spans)
    ensures var r := Savepointed(db, cache, item, fault); Keyed(r.db.traces, r.db.spans)
  {
    hide Keyed, InsertedTx;
    TxKeepsKeys(db, cache, item.span, item.project, fault.insert);
  }

  lemma {:induction false} UpsertKeepsKeys(
    traces: seq<TraceRow>, spans: seq<SpanRow>, span: Span, project: nat, fault: Fault)
    requires Keyed(traces, spans)
    ensures var (after, r) := UpsertedTrace(traces, span, project, fault);
            && Keyed(after, spans) && TraceIdsKept(traces, after)
            && (r.Ok? ==> 1 <= r.value <= |after| && after[r.value - 1].traceId == span.traceId)
  {
    hide FormatTime, StatusAllowed;
  }

  lemma {:induction false} PersistKeepsKeys(
    traces: seq<TraceRow>, spans: seq<SpanRow>, span: Span, trace: nat, fault: Fault)
    requires Keyed(traces, spans) && Serializable(span) && 1 <= trace <= |traces|
    ensures Keyed(traces, Persisted(traces, spans, span, trace, fault).0)
  {
    hide FormatTime, ForestOf, Above, Raised, WellFormedSpans, DistinctTraces, CumOf, HasSpan, StatusAllowed, RowOf;
    if StatusAllowed(span.status) && !HasSpan(spans, span.spanId) {
      var cum := CumOf(spans, span, trace);
      var row := RowOf(span, trace, cum);
      NewRowKeyed(traces, spans, span, trace);
      NewRowWellFormed(traces, span, trace, cum);
      ForestAppend(traces, spans, row);
      RowOfSpanId(span, trace, cum);
      RaisedWellFormed(traces, spans, row, Above(ForestOf(traces, spans + [row]), span.spanId), cum);
    }
  }

  lemma {:induction false} RowOfSpanId(span: Span, trace: nat, cum: Counts)
    requires Serializable(span)
    ensures RowOf(span, trace, cum).spanId == span.spanId
  {}

  class Store {
    var projects: seq<string>
    var traces: seq<TraceRow>
    var spans: seq<SpanRow>
    /** The open transaction and its savepoints: what each would roll back to, innermost last. */
    var saves: seq<Db>
    var cache: Cache

    function Contents(): Db
      reads this
    {
      Db(projects, traces, spans)
    }

    constructor ()
      ensures Contents() == EMPTY && cache == map[] && saves == []
    {
      projects, traces, spans, saves, cache := [], [], [], [], map[];
    }

    // ----- transaction control -----

    /** BEGIN and SAVEPOINT. */
    method Save()
      modifies this`saves
      ensures saves == old(saves) + [Contents()]
    {
      saves := saves + [Contents()];
    }

    /** ROLLBACK TO: the tables return to the innermost save, which stays open; the cache does not return. */
    method RollBackTo()
      requires saves != []
      modifies this`projects, this`traces, this`spans
      ensures Contents() == saves[|saves| - 1]
    {
      var saved := saves[|saves| - 1];
      projects, traces, spans := saved.projects, saved.traces, saved.spans;
    }

    /** RELEASE and COMMIT: the innermost save is forgotten. */
    method Release()
      requires saves != []
      modifies this`saves
      ensures saves == old(saves)[..|old(saves)| - 1]
    {
      saves := saves[..|saves| - 1];
    }

    // ----- the statements of one insert -----

    method EnsureProject(name: string, fault: Fault) returns (r: Result<nat, Error>)
      modifies this`projects, this`cache
      ensures (projects, cache, r) == EnsuredProject(old(projects), old(cache), name, fault)
    {
      if name in cache {
        return Ok(cache[name]);
      }
      if fault == Some(SelectProject) {
        return Err(Error.EnsureProject);
      }
      var id: nat;
      match FindProject(projects, name) {
        case Some(found) =>
          id := found;
        case None =>
          if fault == Some(CreateProject) {
            return Err(Error.EnsureProject);
          }
          projects := projects + [name];
          id := |projects|;
      }
      cache := cache[name := id];
      return Ok(id);
    }

    method UpsertTrace(span: Span, project: nat, fault: Fault) returns (r: Result<nat, Error>)
      modifies this`traces
      ensures (traces, r) == UpsertedTrace(old(traces), span, project, fault)
    {
      hide FormatTime, Less;
      if fault == Some(SelectTrace) {
        return Err(Error.UpsertTrace);
      }
      match FindTrace(traces, span.traceId)
      case Some(id) =>
        var startS, endS := traces[id - 1].start, traces[id - 1].end;
        if Less(FormatTime(span.start), startS) {
          if fault == Some(UpdateStart) {
            LessIsStrictOrder(FormatTime(span.start), startS, "");
            return Err(Error.UpsertTrace);
          }
          traces := traces[id - 1 := traces[id - 1].(start := FormatTime(span.start))];
        }
        assert traces == old(traces)[id - 1 := Started(old(traces)[id - 1], span)];
        if Less(endS, FormatTime(span.end)) {
          if fault == Some(UpdateEnd) {
            LessIsStrictOrder(endS, FormatTime(span.end), "");
            return Err(Error.UpsertTrace);
          }
          traces := traces[id - 1 := traces[id - 1].(end := FormatTime(span.end))];
        }
        assert traces == old(traces)[id - 1 := Widened(old(traces)[id - 1], span)];
        return Ok(id);
      case None =>
        if fault == Some(CreateTrace) {
          return Err(Error.UpsertTrace);
        }
        traces := traces + [NewTrace(span, project)];
        return Ok(|traces|);
    }

    method SumChildren(trace: nat, spanId: string) returns (sum: Counts)
      ensures sum == ChildSum(spans, trace, spanId)
    {
      sum := ZERO;
      for i := 0 to |spans|
        invariant sum == ChildSum(spans[..i], trace, spanId)
      {
        assert spans[..i + 1][..i] == spans[..i];
        if IsChild(spans[i], trace, spanId) {
          sum := spans[i].cum.Plus(sum);
        }
      }
      assert spans[..|spans|] == spans;
    }

    /** WITH RECURSIVE ancestors: every row the query yields, in the order it yields them. */
    method Ancestors(trace: nat, parentId: string) returns (visited: seq<nat>)
      requires Keyed(traces, spans)
      requires FindSpan(spans, trace, parentId).Some? ==>
                 parentId in ForestOf(traces, spans) && ChainEnds(ForestOf(traces, spans), parentId)
      ensures FindSpan(spans, trace, parentId).None? ==> visited == []
      ensures FindSpan(spans, trace, parentId).Some? ==>
                var f := ForestOf(traces, spans);
                Climbs(f, spans, parentId, visited) && Climb(f, parentId, |visited|) == None
      ensures forall i, j | 0 <= i < j < |visited| :: visited[i] != visited[j]
    {
      hide ForestOf, FindSpan, Keyed, ParentOf;
      visited := [];
      var cur := FindSpan(spans, trace, parentId);
      if cur.None? {
        return;
      }
      ghost var f := ForestOf(traces, spans);
      ghost var end: nat :| Climb(f, parentId, end) == None;
      while cur.Some?
        invariant Climbs(f, spans, parentId, visited) && |visited| <= end
        invariant cur.Some? ==> 1 <= cur.value <= |spans| && spans[cur.value - 1].trace == trace
        invariant Climb(f, parentId, |visited|) ==
                  if cur.Some? then Some(spans[cur.value - 1].spanId) else None
        decreases end - |visited|
      {
        var row := cur.value - 1;
        ParentRow(traces, spans, row);
        NextClimb(f, parentId, |visited|);
        visited := visited + [cur.value];
        match spans[row].parent {
          case None => cur := None;
          case Some(p) => cur := FindSpan(spans, trace, p);
        }
      }
      WalkNeverRepeats(f, spans, parentId, visited);
    }

    method PropagateToAncestors(trace: nat, parentId: string, delta: Counts)
      requires Keyed(traces, spans)
      requires parentId != "" && FindSpan(spans, trace, parentId).Some? ==>
                 parentId in ForestOf(traces, spans) && ChainEnds(ForestOf(traces, spans), parentId)
      modifies this`spans
      ensures spans == Raised(old(spans), FoundAbove(traces, old(spans), trace, parentId), delta)
    {
      hide ForestOf, FindSpan, Keyed, ChainEnds, NullString, Reaches, Climbs, IdsOf;
      if parentId == "" {
        NothingRaised(spans, delta);
        return;
      }
      var visited := Ancestors(trace, parentId);
      ghost var ids := FoundAbove(traces, spans, trace, parentId);
      if FindSpan(spans, trace, parentId).Some? {
        WalkIsComplete(ForestOf(traces, spans), spans, parentId, visited);
      }
      for i := 0 to |spans|
        invariant |spans| == |old(spans)|
        invariant forall k | 0 <= k < i :: spans[k] == Raised(old(spans), ids, delta)[k]
        invariant forall k | i <= k < |spans| :: spans[k] == old(spans)[k]
      {
        VisitedIff(traces, old(spans), trace, parentId, visited, i);
        if i + 1 in visited {
          spans := spans[i := spans[i].(cum := spans[i].cum.Plus(delta))];
        }
      }
    }

    /** The rest of insertSpanTx, once the trace row is known. */
    method PersistSpan(span: Span, trace: nat, fault: Fault) returns (error: Option<Error>)
      requires Keyed(traces, spans) && Serializable(span)
      requires 1 <= trace <= |traces| && traces[trace - 1].traceId == span.traceId
      requires Persisted(traces, spans, span, trace, fault).1.None? && !HasSpan(spans, span.spanId) ==>
                 ChainEnds(ForestOf(traces, spans)[span.spanId := SpanNode(span)], span.spanId)
      modifies this`spans
      ensures (spans, error) == Persisted(traces, old(spans), span, trace, fault)
    {
      hide ForestOf, FindSpan, Keyed, ChainEnds, HasSpan, FormatTime, Raised, FoundAbove, StatusAllowed, Above;
      if fault == Some(Statement.SumChildren) {
        return Some(SumChildrenFailed);
      }
      var children := SumChildren(trace, span.spanId);
      var cum := SelfTotals(span).Plus(children);
      if fault == Some(InsertRow) || !StatusAllowed(span.status) {
        return Some(InsertFailed);
      }
      if HasSpan(spans, span.spanId) {
        return None;
      }
      NewRowKeyed(traces, spans, span, trace);
      NewRowForest(traces, traces, spans, span, trace);
      spans := spans + [RowOf(span, trace, cum)];
      NewRowAbove(traces, spans, span.parentId);
      if span.parentId == "" {
        return None;
      }
      if fault == Some(Propagate) {
        return Some(PropagateFailed);
      }
      PropagateToAncestors(trace, span.parentId, cum);
      return None;
    }

    method InsertSpanTx(span: Span, project: string, fault: Fault) returns (error: Option<Error>)
      requires Keyed(traces, spans) && WalkEnds(Contents(), cache, span, project, fault)
      modifies this`projects, this`traces, this`spans, this`cache
      ensures Outcome(Contents(), cache, error) == InsertedTx(old(Contents()), old(cache), span, project, fault)
    {
      hide ForestOf, Keyed, ChainEnds, EnsuredProject, UpsertedTrace, HasSpan, Persisted;
      if !Serializable(span) {
        return Some(SerializeSpan);
      }
      var projectId := EnsureProject(project, fault);
      if projectId.Err? {
        return Some(projectId.error);
      }
      UpsertKeepsKeys(traces, spans, span, projectId.value, fault);
      var trace := UpsertTrace(span, projectId.value, fault);
      if trace.Err? {
        return Some(trace.error);
      }
      ForestKept(old(traces), traces, spans);
      error := PersistSpan(span, trace.value, fault);
    }

    method InsertSpan(span: Span, project: string, fault: Fault) returns (error: Option<Error>)
      requires saves == [] && Keyed(traces, spans) && WalkEnds(Contents(), cache, span, project, fault)
      modifies this
      ensures saves == []
      ensures Outcome(Contents(), cache, error) == Inserted(old(Contents()), old(cache), span, project, fault)
    {
      hide Keyed, WalkEnds, InsertedTx;
      if fault == Some(Begin) {
        return Some(BeginFailed);
      }
      Save();
      error := InsertSpanTx(span, project, fault);
      if error.None? && fault == Some(Commit) {
        error := Some(CommitFailed);
      }
      if error.Some? {
        RollBackTo();
      }
      Release();
    }

    // ----- batches -----

    method InsertSpanSavepoint(item: Ingest, fault: ItemFault) returns (error: Option<Error>)
      requires Keyed(traces, spans)
      requires !fault.save ==> WalkEnds(Contents(), cache, item.span, item.project, fault.insert)
      modifies this
      ensures |old(saves)| <= |saves| && saves[..|old(saves)|] == old(saves)
      ensures Outcome(Contents(), cache, error) == Savepointed(old(Contents()), old(cache), item, fault)
    {
      hide Keyed, WalkEnds, InsertedTx;
      if fault.save {
        return Some(SavepointFailed);
      }
      Save();
      error := InsertSpanTx(item.span, item.project, fault.insert);
      if error.Some? {
        if !fault.rollBack {
          RollBackTo();
        }
        if !fault.release {
          Release();
        }
        return;
      }
      if fault.release {
        return Some(ReleaseFailed);
      }
      Release();
    }

    /** The error of a failed commit goes to every entry that has none yet. */
    static method FillNil(errs: array<Option<Error>>, e: Error)
      modifies errs
      ensures errs[..] == FillErrors(old(errs[..]), e)
    {
      for i := 0 to errs.Length
        invariant forall k | 0 <= k < i :: errs[k] == FillErrors(old(errs[..]), e)[k]
        invariant forall k | i <= k < errs.Length :: errs[k] == old(errs[k])
      {
        if errs[i].None? {
          errs[i] := Some(e);
        }
      }
    }

    static method FillAll(errs: array<Option<Error>>, e: Error)
      modifies errs
      ensures forall k | 0 <= k < errs.Length :: errs[k] == Some(e)
    {
      for i := 0 to errs.Length
        invariant forall k | 0 <= k < i :: errs[k] == Some(e)
      {
        errs[i] := Some(e);
      }
    }

    method InsertSpans(items: seq<Ingest>, faults: seq<ItemFault>, begin: bool, commit: bool)
      returns (errs: array<Option<Error>>)
      requires |items| == |faults| && saves == [] && Keyed(traces, spans)
      requires !begin ==> BatchWalksEnd(Contents(), cache, items, faults)
      modifies this
      ensures fresh(errs) && saves == []
      ensures BatchOutcome(Contents(), cache, errs[..]) ==
              BatchInserted(old(Contents()), old(cache), items, faults, begin, commit)
    {
      hide Keyed, WalkEnds, Savepointed;
      errs := new Option<Error>[|items|](i => None);
      if begin {
        FillAll(errs, BeginFailed);
        return;
      }
      Save();
      ghost var db, was := Contents(), cache;
      for i := 0 to |items|
        invariant saves != [] && saves[0] == db && Keyed(traces, spans)
        invariant BatchOutcome(Contents(), cache, errs[..i]) == Batched(db, was, items, faults, i)
        invariant forall k | i <= k < |items| :: errs[k] == None
      {
        SavepointKeepsKeys(Contents(), cache, items[i], faults[i]);
        var err := InsertSpanSavepoint(items[i], faults[i]);
        if err.Some? {
          errs[i] := err;
        }
        assert errs[..i + 1] == errs[..i] + [err];
      }
      assert errs[..] == errs[..|items|];
      if commit {
        // the transaction is lost as a whole
        projects, traces, spans := saves[0].projects, saves[0].traces, saves[0].spans;
        FillNil(errs, CommitFailed);
      }
      saves := [];
    }
  }

  lemma {:induction false} ForestKept(before: seq<TraceRow>, after: seq<TraceRow>, spans: seq<SpanRow>)
    requires Keyed(before, spans) && TraceIdsKept(before, after)
    ensures ForestOf(before, spans) == ForestOf(after, spans)
  {
    ForestKeptByTraces(before, after, spans);
  }

  /** Whether the UPDATE touches row i: its rowid is among those the query yielded. */
  lemma {:induction false} VisitedIff(
    traces: seq<TraceRow>, spans: seq<SpanRow>, trace: nat, parentId: string, visited: seq<nat>, i: nat)
    requires Keyed(traces, spans) && i < |spans| && parentId != ""
    requires FindSpan(spans, trace, parentId).None? ==> visited == []
    requires FindSpan(spans, trace, parentId).Some? ==>
               var f := ForestOf(traces, spans);
               && parentId in f && Climbs(f, spans, parentId, visited)
               && IdsOf(spans, visited) == set a | a in f && Reaches(f, parentId, a)
    ensures i + 1 in visited <==> spans[i].spanId in FoundAbove(traces, spans, trace, parentId)
  {
    hide ForestOf, FindSpan, Reaches, StatusAllowed;
    if FindSpan(spans, trace, parentId).Some? && spans[i].spanId in IdsOf(spans, visited) {
      var k: nat :| k < |visited| && spans[visited[k] - 1].spanId == spans[i].spanId;
      assert visited[k] - 1 == i;
    }
  }

  lemma {:induction false} NewRowKeyed(traces: seq<TraceRow>, spans: seq<SpanRow>, span: Span, trace: nat)
    requires Keyed(traces, spans) && Serializable(span) && StatusAllowed(span.status)
    requires 1 <= trace <= |traces| && !HasSpan(spans, span.spanId)
    ensures Keyed(traces, WithRow(spans, span, trace))
  {
    hide CumOf, FormatTime;
    var cum := CumOf(spans, span, trace);
    NewRowWellFormed(traces, span, trace, cum);
    RaisedWellFormed(traces, spans, RowOf(span, trace, cum), {}, cum);
    NothingRaised(spans + [RowOf(span, trace, cum)], cum);
  }

  lemma {:induction false} NodeOfRow(traces: seq<TraceRow>, span: Span, trace: nat, cum: Counts)
    requires Serializable(span) && 1 <= trace <= |traces| && traces[trace - 1].traceId == span.traceId
    ensures NodeOf(traces, RowOf(span, trace, cum)) == SpanNode(span)
  {
    hide FormatTime;
    SelfOfRow(span, trace, cum);
  }

  lemma {:induction false} NewRowForest(
    before: seq<TraceRow>, traces: seq<TraceRow>, spans: seq<SpanRow>, span: Span, trace: nat)
    requires Keyed(before, spans) && TraceIdsKept(before, traces) && Serializable(span)
    requires 1 <= trace <= |traces| && traces[trace - 1].traceId == span.traceId
    ensures ForestOf(traces, WithRow(spans, span, trace)) == ForestOf(before, spans)[span.spanId := SpanNode(span)]
  {
    hide CumOf, ForestOf, Keyed, TraceIdsKept, RowOf, NodeOf, SpanNode;
    ForestKept(before, traces, spans);
    ForestAppend(traces, spans, RowOf(span, trace, CumOf(spans, span, trace)));
    NodeOfRow(traces, span, trace, CumOf(spans, span, trace));
    RowOfSpanId(span, trace, CumOf(spans, span, trace));
  }

  /** The query started from the newest row's parent column finds what lies above that row. */
  lemma {:induction false} NewRowAbove(traces: seq<TraceRow>, rows: seq<SpanRow>, parentId: string)
    requires Keyed(traces, rows) && rows != [] && rows[|rows| - 1].parent == NullString(parentId)
    ensures var f, row := ForestOf(traces, rows), rows[|rows| - 1];
            && row.spanId in f
            && FoundAbove(traces, rows, row.trace, parentId) == Above(f, row.spanId)
            && (parentId != "" && FindSpan(rows, row.trace, parentId).Some? && ChainEnds(f, row.spanId) ==>
                  parentId in f && ChainEnds(f, parentId))
  {
    hide ForestOf, FindSpan, Reaches, Keyed;
    var f, row := ForestOf(traces, rows), rows[|rows| - 1];
    ParentRow(traces, rows, |rows| - 1);
    if parentId != "" && FindSpan(rows, row.trace, parentId).Some? && ChainEnds(f, row.spanId) {
      var k: nat :| Climb(f, row.spanId, k) == None;
      assert Climb(f, row.spanId, k) == Climb(f, parentId, k - 1);
    }
  }

  /** What the recursive query finds, before any span is named as its start. */
  ghost function FoundAbove(traces: seq<TraceRow>, spans: seq<SpanRow>, trace: nat, parentId: string): set<string> {
    if parentId == "" || FindSpan(spans, trace, parentId).None? || parentId !in ForestOf(traces, spans) then {}
    else set a | a in ForestOf(traces, spans) && Reaches(ForestOf(traces, spans), parentId, a)
  }

  lemma {:induction false} NextClimb(f: Forest, id: string, k: nat)
    requires id in f && Climb(f, id, k).Some?
    ensures Climb(f, id, k + 1) == ParentOf(f, Climb(f, id, k).value)
  {
    ClimbAdd(f, id, k, 1);
  }
}
