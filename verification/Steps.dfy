/** Every insert keeps the tables sound: the cumulative columns stay equal to the subtree sums. */
module Steps {
  import opened Prelude
  import opened Text
  import opened Timestamps
  import opened Forest
  import opened Tables

  // ----- what the forest does not see -----

  ghost predicate TraceIdsKept(before: seq<TraceRow>, after: seq<TraceRow>) {
    |before| <= |after| && forall i | 0 <= i < |before| :: after[i].traceId == before[i].traceId
  }

  lemma {:induction false} ForestKeptByTraces(a: seq<TraceRow>, b: seq<TraceRow>, spans: seq<SpanRow>)
    requires TraceIdsKept(a, b)
    requires forall i | 0 <= i < |spans| :: 1 <= spans[i].trace <= |a|
    ensures ForestOf(a, spans) == ForestOf(b, spans)
    decreases |spans|
  {
    if spans != [] {
      ForestKeptByTraces(a, b, spans[..|spans| - 1]);
    }
  }

  lemma {:induction false} ForestAppend(traces: seq<TraceRow>, spans: seq<SpanRow>, row: SpanRow)
    ensures ForestOf(traces, spans + [row]) == ForestOf(traces, spans)[row.spanId := NodeOf(traces, row)]
  {
    assert (spans + [row])[..|spans|] == spans;
  }

  lemma {:induction false} ForestRaised(traces: seq<TraceRow>, spans: seq<SpanRow>, ids: set<string>, delta: Counts)
    ensures ForestOf(traces, Raised(spans, ids, delta)) == ForestOf(traces, spans)
    decreases |spans|
  {
    if spans != [] {
      var front, r := spans[..|spans| - 1], Raised(spans, ids, delta);
      ForestRaised(traces, front, ids, delta);
      assert r[..|spans| - 1] == Raised(front, ids, delta);
    }
  }

  // ----- the children's sum -----

  function ChildIds(spans: seq<SpanRow>, trace: nat, parent: string): set<string> {
    set i | 0 <= i < |spans| && IsChild(spans[i], trace, parent) :: spans[i].spanId
  }

  lemma {:induction false} ChildSumOverIds(spans: seq<SpanRow>, trace: nat, parent: string, m: map<string, Counts>)
    requires DistinctSpans(spans)
    requires forall i | 0 <= i < |spans| :: spans[i].spanId in m && m[spans[i].spanId] == spans[i].cum
    ensures ChildIds(spans, trace, parent) <= m.Keys
    ensures ChildSum(spans, trace, parent) == SumOf(m, ChildIds(spans, trace, parent))
    decreases |spans|
  {
    if spans != [] {
      var front, last := spans[..|spans| - 1], spans[|spans| - 1];
      ChildSumOverIds(front, trace, parent, m);
      var ids := ChildIds(front, trace, parent);
      if IsChild(last, trace, parent) {
        assert ChildIds(spans, trace, parent) == ids + {last.spanId};
        SumTakeOut(m, ids + {last.spanId}, last.spanId);
        assert ids + {last.spanId} - {last.spanId} == ids;
      } else {
        assert ChildIds(spans, trace, parent) == ids;
      }
    }
  }

  lemma {:induction false} RowOfId(traces: seq<TraceRow>, spans: seq<SpanRow>, id: string) returns (i: nat)
    requires DistinctSpans(spans) && id in ForestOf(traces, spans)
    ensures i < |spans| && spans[i].spanId == id
    ensures ForestOf(traces, spans)[id] == NodeOf(traces, spans[i])
  {
    ForestKeys(traces, spans, id);
    i :| 0 <= i < |spans| && spans[i].spanId == id;
    ForestAt(traces, spans, i);
  }

  /** Following the parent column within the trace is following the forest's link. */
  lemma {:induction false} ParentRow(traces: seq<TraceRow>, spans: seq<SpanRow>, row: nat)
    requires Keyed(traces, spans) && row < |spans|
    ensures spans[row].spanId in ForestOf(traces, spans)
    ensures ParentOf(ForestOf(traces, spans), spans[row].spanId) ==
            match spans[row].parent
            case None => None
            case Some(p) => if FindSpan(spans, spans[row].trace, p).Some? then Some(p) else None
  {
    hide ForestOf, SelfOf, StatusAllowed;
    var f := ForestOf(traces, spans);
    ForestAt(traces, spans, row);
    match spans[row].parent
    case None =>
    case Some(p) =>
      if p in f {
        var i := RowOfId(traces, spans, p);
      }
      if FindSpan(spans, spans[row].trace, p).Some? {
        ForestAt(traces, spans, FindSpan(spans, spans[row].trace, p).value - 1);
      }
  }

  lemma {:induction false} ChildIdIsChild(
    traces: seq<TraceRow>, spans: seq<SpanRow>, trace: nat, n: string, g: Forest, id: string)
    requires WellFormedSpans(traces, spans) && DistinctTraces(traces) && 1 <= trace <= |traces|
    requires Extends(ForestOf(traces, spans), g, n) && g[n].trace == traces[trace - 1].traceId
    requires id in ForestOf(traces, spans)
    ensures id in ChildIds(spans, trace, n) <==> id in ChildrenOf(g, n)
  {
    var i := RowOfId(traces, spans, id);
    assert g[id] == NodeOf(traces, spans[i]);
    assert IsChild(spans[i], trace, n) <==> id in ChildrenOf(g, n);
    if id in ChildIds(spans, trace, n) {
      var j: nat :| j < |spans| && IsChild(spans[j], trace, n) && spans[j].spanId == id;
      assert i == j;
    }
  }

  lemma {:induction false} ChildIdsAreChildren(
    traces: seq<TraceRow>, spans: seq<SpanRow>, trace: nat, n: string, g: Forest)
    requires WellFormedSpans(traces, spans) && DistinctTraces(traces) && 1 <= trace <= |traces|
    requires Extends(ForestOf(traces, spans), g, n) && g[n].trace == traces[trace - 1].traceId
    requires n !in ChildrenOf(g, n)
    ensures ChildIds(spans, trace, n) == ChildrenOf(g, n)
  {
    forall id | id in ChildIds(spans, trace, n)
      ensures id in ChildrenOf(g, n)
    {
      var i: nat :| i < |spans| && IsChild(spans[i], trace, n) && spans[i].spanId == id;
      ForestAt(traces, spans, i);
      ChildIdIsChild(traces, spans, trace, n, g, id);
    }
    forall id | id in ChildrenOf(g, n)
      ensures id in ChildIds(spans, trace, n)
    {
      ChildIdIsChild(traces, spans, trace, n, g, id);
    }
  }

  // ----- one span going in -----

  lemma {:induction false} UpsertKeeps(
    traces: seq<TraceRow>, spans: seq<SpanRow>, span: Span, project: nat, fault: Fault)
    requires DistinctTraces(traces) && Indexed(traces, spans)
    ensures var (after, r) := UpsertedTrace(traces, span, project, fault);
            && DistinctTraces(after) && Indexed(after, spans) && ForestOf(after, spans) == ForestOf(traces, spans)
            && (r.Ok? ==> 1 <= r.value <= |after| && after[r.value - 1].traceId == span.traceId)
  {
    hide Acyclic, Counted, FormatTime, StatusAllowed, ForestOf, Less;
    var (after, r) := UpsertedTrace(traces, span, project, fault);
    ForestKeptByTraces(traces, after, spans);
  }

  /** The children's cumulative columns and the span's own counts make the span's subtree sum. */
  lemma {:induction false} CumIsSubtreeSum(
    traces: seq<TraceRow>, spans: seq<SpanRow>, span: Span, trace: nat, g: Forest)
    requires DistinctTraces(traces) && Indexed(traces, spans) && !HasSpan(spans, span.spanId)
    requires 1 <= trace <= |traces| && traces[trace - 1].traceId == span.traceId
    requires g == ForestOf(traces, spans)[span.spanId := SpanNode(span)] && Acyclic(g)
    ensures CumOf(spans, span, trace) == SubtreeSum(g, span.spanId)
  {
    hide Acyclic, SubtreeSum, Subtree;
    var n := span.spanId;
    var f := ForestOf(traces, spans);
    ForestKeys(traces, spans, n);
    InsertedSums(f, g, n);
    NewSubtree(f, g, n);
    ChildIdsAreChildren(traces, spans, trace, n, g);
    ChildSumOverIds(spans, trace, n, SubtreeSums(f));
  }

  lemma {:induction false} RaisedRow(f: Forest, spans: seq<SpanRow>, g: Forest, row: SpanRow, i: nat)
    requires Counted(f, spans) && Extends(f, g, row.spanId) && Acyclic(g)
    requires row.cum == SubtreeSum(g, row.spanId) && i <= |spans|
    ensures var rows := Raised(spans + [row], Above(g, row.spanId), row.cum);
            rows[i].spanId in g && rows[i].cum == SubtreeSum(g, rows[i].spanId)
  {
    hide Acyclic, SubtreeSum, Above;
    InsertedSums(f, g, row.spanId);
    AboveIsReached(g, row.spanId);
    if i < |spans| {
      var a := spans[i].spanId;
      assert a in g && (a in Above(g, row.spanId) <==> Reaches(g, row.spanId, a));
    }
  }

  lemma {:induction false} RaisedCounts(f: Forest, spans: seq<SpanRow>, g: Forest, row: SpanRow)
    requires Counted(f, spans) && Extends(f, g, row.spanId) && Acyclic(g)
    requires row.cum == SubtreeSum(g, row.spanId)
    ensures Counted(g, Raised(spans + [row], Above(g, row.spanId), row.cum))
  {
    hide Acyclic, SubtreeSum, Above;
    var rows := Raised(spans + [row], Above(g, row.spanId), row.cum);
    forall i: nat | i < |rows|
      ensures rows[i].spanId in g && rows[i].cum == SubtreeSum(g, rows[i].spanId)
    {
      RaisedRow(f, spans, g, row, i);
    }
  }

  lemma {:induction false} NothingRaised(spans: seq<SpanRow>, delta: Counts)
    ensures Raised(spans, {}, delta) == spans
  {}

  lemma {:induction false} RaisedWellFormed(
    traces: seq<TraceRow>, spans: seq<SpanRow>, row: SpanRow, ids: set<string>, delta: Counts)
    requires WellFormedSpans(traces, spans) && WellFormedSpans(traces, [row]) && !HasSpan(spans, row.spanId)
    ensures WellFormedSpans(traces, Raised(spans + [row], ids, delta))
  {
    var rows := Raised(spans + [row], ids, delta);
    forall i | 0 <= i < |spans|
      ensures rows[i].spanId == spans[i].spanId != row.spanId
      ensures 1 <= rows[i].trace <= |traces|
      ensures StatusAllowed(rows[i].status)
      ensures rows[i].kind != "LLM" ==> rows[i].prompt == rows[i].completion == None
    {}
    assert [row][0] == row;
    assert rows[|spans|].(cum := row.cum) == row;
  }

  /** The heart of the store: a new row and its propagation restore every subtree sum. */
  lemma {:induction false} PersistKeepsIndexed(
    traces: seq<TraceRow>, spans: seq<SpanRow>, span: Span, trace: nat, fault: Fault)
    requires DistinctTraces(traces) && Indexed(traces, spans) && Serializable(span) && !HasSpan(spans, span.spanId)
    requires 1 <= trace <= |traces| && traces[trace - 1].traceId == span.traceId
    requires Persisted(traces, spans, span, trace, fault).1.None?
    requires ChainEnds(ForestOf(traces, spans)[span.spanId := SpanNode(span)], span.spanId)
    ensures var after := Persisted(traces, spans, span, trace, fault).0;
            && Indexed(traces, after)
            && ForestOf(traces, after) == ForestOf(traces, spans)[span.spanId := SpanNode(span)]
  {
    hide Acyclic, SubtreeSum, Above, ChainEnds, FormatTime, ForestOf, CumOf, Counted, Raised, WellFormedSpans;
    var n := span.spanId;
    var f := ForestOf(traces, spans);
    ForestKeys(traces, spans, n);
    var g := f[n := SpanNode(span)];
    var cum := CumOf(spans, span, trace);
    var row := RowOf(span, trace, cum);
    ForestAppend(traces, spans, row);
    SelfOfRow(span, trace, cum);
    AcyclicIffNewChainEnds(f, g, n);
    CumIsSubtreeSum(traces, spans, span, trace, g);
    AboveIsReached(g, n);
    RaisedCounts(f, spans, g, row);
    NewRowWellFormed(traces, span, trace, cum);
    RaisedWellFormed(traces, spans, row, Above(g, n), cum);
    ForestRaised(traces, spans + [row], Above(g, n), cum);
    NothingRaised(spans + [row], cum);
  }

  lemma {:induction false} NewRowWellFormed(traces: seq<TraceRow>, span: Span, trace: nat, cum: Counts)
    requires Serializable(span) && StatusAllowed(span.status) && 1 <= trace <= |traces|
    ensures WellFormedSpans(traces, [RowOf(span, trace, cum)])
  {}

  lemma {:induction false} AboveIsReached(g: Forest, n: string)
    requires n in g && Acyclic(g)
    ensures forall a | a in g :: a in Above(g, n) <==> a != n && Reaches(g, n, a)
    ensures g[n].parent.None? ==> Above(g, n) == {}
  {
    forall a | a in g
      ensures a in Above(g, n) <==> a != n && Reaches(g, n, a)
    {
      StepReaches(g, n, a);
      if a == n && a in Above(g, n) {
        var k: nat :| Climb(g, ParentOf(g, n).value, k) == Some(n);
        var turn: nat := k + 1;
        assert Climb(g, n, turn) == Climb(g, ParentOf(g, n).value, k);
        assert false;
      }
    }
  }

  lemma {:induction false} EnsureKeeps(projects: seq<string>, cache: Cache, name: string, fault: Fault)
    requires DistinctProjects(projects)
    ensures DistinctProjects(EnsuredProject(projects, cache, name, fault).0)
  {}

  /** Persisting on top of the upserted trace, new span or duplicate. */
  lemma {:induction false} PersistStep(
    traces: seq<TraceRow>, spans: seq<SpanRow>, span: Span, project: nat, fault: Fault)
    requires DistinctTraces(traces) && Indexed(traces, spans) && Serializable(span)
    requires UpsertedTrace(traces, span, project, fault).1.Ok?
    requires var (after, trace) := UpsertedTrace(traces, span, project, fault);
             Persisted(after, spans, span, trace.value, fault).1.None?
    requires !HasSpan(spans, span.spanId) ==>
               ChainEnds(ForestOf(traces, spans)[span.spanId := SpanNode(span)], span.spanId)
    ensures var (after, trace) := UpsertedTrace(traces, span, project, fault);
            var rows := Persisted(after, spans, span, trace.value, fault).0;
            && DistinctTraces(after) && Indexed(after, rows)
            && ForestOf(after, rows) == if HasSpan(spans, span.spanId) then ForestOf(traces, spans)
                                        else ForestOf(traces, spans)[span.spanId := SpanNode(span)]
  {
    hide Indexed, UpsertedTrace, ChainEnds, ForestOf, DistinctTraces, WithRow, CumOf, Above, Raised, HasSpan;
    UpsertKeeps(traces, spans, span, project, fault);
    var (after, trace) := UpsertedTrace(traces, span, project, fault);
    if !HasSpan(spans, span.spanId) {
      PersistKeepsIndexed(after, spans, span, trace.value, fault);
    }
  }

  /** One call of InsertSpan on sound tables leaves sound tables, whatever fails. */
  lemma {:induction false} InsertKeepsSound(db: Db, cache: Cache, span: Span, project: string, fault: Fault)
    requires Sound(db) && WalkEnds(db, cache, span, project, fault)
    ensures Sound(Inserted(db, cache, span, project, fault).db)
    ensures var r := Inserted(db, cache, span, project, fault);
            ForestOf(r.db.traces, r.db.spans) ==
            if r.error.Some? || HasSpan(db.spans, span.spanId) then ForestOf(db.traces, db.spans)
            else ForestOf(db.traces, db.spans)[span.spanId := SpanNode(span)]
  {
    hide Indexed, UpsertedTrace, ChainEnds, ForestOf, DistinctTraces, DistinctProjects, Persisted, EnsuredProject,
      HasSpan;
    if InsertedTx(db, cache, span, project, fault).error.None? {
      var (projects, cache', id) := EnsuredProject(db.projects, cache, project, fault);
      EnsureKeeps(db.projects, cache, project, fault);
      PersistStep(db.traces, db.spans, span, id.value, fault);
    }
  }
}
