/** Whole runs of the store: any arrivals, in any order, with any failures, from empty tables. */
module Runs {
  import opened Prelude
  import opened Text
  import opened Timestamps
  import opened Forest
  import opened Tables
  import opened Steps

  datatype Arrival = Arrival(span: Span, project: string, fault: Fault)

  datatype State = State(db: Db, cache: Cache)

  ghost function Arrive(s: State, a: Arrival): Outcome {
    Inserted(s.db, s.cache, a.span, a.project, a.fault)
  }

  ghost function Run(arrivals: seq<Arrival>): State {
    if arrivals == [] then State(EMPTY, map[])
    else
      var o := Arrive(Run(arrivals[..|arrivals| - 1]), arrivals[|arrivals| - 1]);
      State(o.db, o.cache)
  }

  /** Every call returned: no walk ran into a cycle of parent links. */
  ghost predicate Returns(arrivals: seq<Arrival>) {
    arrivals != [] ==>
      var before, a := Run(arrivals[..|arrivals| - 1]), arrivals[|arrivals| - 1];
      Returns(arrivals[..|arrivals| - 1]) && WalkEnds(before.db, before.cache, a.span, a.project, a.fault)
  }

  lemma {:induction false} RunIsSound(arrivals: seq<Arrival>)
    requires Returns(arrivals)
    ensures Sound(Run(arrivals).db)
    decreases |arrivals|
  {
    hide Indexed, WalkEnds, Inserted, ForestOf;
    if arrivals == [] {
      EmptyIsSound();
    } else {
      var front, a := arrivals[..|arrivals| - 1], arrivals[|arrivals| - 1];
      RunIsSound(front);
      InsertKeepsSound(Run(front).db, Run(front).cache, a.span, a.project, a.fault);
    }
  }

  lemma {:induction false} EmptyIsSound()
    ensures Sound(EMPTY)
  {}

  /**
   The promise of the cumulative columns, over every run: whatever the order of arrival, whatever
   was duplicated or failed, each row holds the counts of itself and all persisted spans below it.
   */
  lemma {:induction false} SubtreeSumsOverRuns(arrivals: seq<Arrival>, i: nat)
    requires Returns(arrivals) && i < |Run(arrivals).db.spans|
    ensures var db := Run(arrivals).db;
            var f := ForestOf(db.traces, db.spans);
            && Acyclic(f) && db.spans[i].spanId in f
            && f[db.spans[i].spanId] == NodeOf(db.traces, db.spans[i])
            && db.spans[i].cum == SumOf(Selfs(f), set x | x in f && Reaches(f, x, db.spans[i].spanId))
  {
    hide ForestOf, Reaches, OnCycle, Run, Returns, SumOf;
    RunIsSound(arrivals);
    var db := Run(arrivals).db;
    ForestAt(db.traces, db.spans, i);
  }

  // ----- which arrivals were committed, and what the tables remember of them -----

  ghost function Committed(arrivals: seq<Arrival>): set<Arrival> {
    if arrivals == [] then {}
    else
      var front, a := arrivals[..|arrivals| - 1], arrivals[|arrivals| - 1];
      if Arrive(Run(front), a).error.None? then Committed(front) + {a} else Committed(front)
  }

  /** A stored row is the row of this span: its columns and its trace are the span's. */
  predicate RowFrom(db: Db, row: SpanRow, span: Span) {
    && Describes(row, span)
    && 1 <= row.trace <= |db.traces| && db.traces[row.trace - 1].traceId == span.traceId
  }

  ghost predicate Covers(db: Db, cache: Cache, a: Arrival) {
    && a.project in cache
    && HasSpan(db.spans, a.span.spanId)
    && exists t | 0 <= t < |db.traces| :: CoversTimes(db.traces[t], a.span)
  }

  predicate CoversTimes(t: TraceRow, span: Span) {
    && t.traceId == span.traceId
    && !Less(FormatTime(span.start), t.start)
    && !Less(t.end, FormatTime(span.end))
  }

  lemma {:induction false} WidenedCovers(t: TraceRow, span: Span)
    requires t.traceId == span.traceId
    ensures CoversTimes(Widened(t, span), span)
    ensures forall s: Span | CoversTimes(t, s) :: CoversTimes(Widened(t, span), s)
  {
    hide FormatTime;
    LessIsStrictOrder(FormatTime(span.start), FormatTime(span.start), "");
    LessIsStrictOrder(FormatTime(span.end), FormatTime(span.end), "");
    forall s: Span | CoversTimes(t, s)
      ensures CoversTimes(Widened(t, span), s)
    {
      LessIsStrictOrder(FormatTime(s.start), FormatTime(span.start), t.start);
      LessIsStrictOrder(t.end, FormatTime(span.end), FormatTime(s.end));
    }
  }

  // ----- one committed arrival -----

  /** The parts of a committed insert. */
  lemma {:induction false} CommittedParts(s: State, a: Arrival) returns (project: nat, trace: nat)
    requires Arrive(s, a).error.None?
    ensures var o := Arrive(s, a);
            && Serializable(a.span) && StatusAllowed(a.span.status)
            && (o.db.projects, o.cache, Ok(project)) == EnsuredProject(s.db.projects, s.cache, a.project, a.fault)
            && (o.db.traces, Ok(trace)) == UpsertedTrace(s.db.traces, a.span, project, a.fault)
            && (o.db.spans, None) == Persisted(o.db.traces, s.db.spans, a.span, trace, a.fault)
  {
    hide EnsuredProject, UpsertedTrace, WithRow, CumOf, Above, Raised, ForestOf, HasSpan;
    var ensured := EnsuredProject(s.db.projects, s.cache, a.project, a.fault);
    project := ensured.2.value;
    trace := UpsertedTrace(s.db.traces, a.span, project, a.fault).1.value;
  }

  /** Rows only gain counts; a new span's row is appended. */
  lemma {:induction false} PersistRows(traces: seq<TraceRow>, spans: seq<SpanRow>, span: Span, trace: nat, fault: Fault)
    requires Serializable(span) && Persisted(traces, spans, span, trace, fault).1.None?
    ensures var rows := Persisted(traces, spans, span, trace, fault).0;
            && |rows| == |spans| + (if HasSpan(spans, span.spanId) then 0 else 1)
            && (forall i | 0 <= i < |spans| :: rows[i] == spans[i].(cum := rows[i].cum))
            && (!HasSpan(spans, span.spanId) ==> rows[|spans|] == RowOf(span, trace, rows[|spans|].cum))
            && (forall id: string :: HasSpan(rows, id) <==> HasSpan(spans, id) || id == span.spanId)
  {
    hide CumOf, Above, ForestOf, FormatTime;
    var rows := Persisted(traces, spans, span, trace, fault).0;
    forall id: string
      ensures HasSpan(rows, id) <==> HasSpan(spans, id) || id == span.spanId
    {
      if HasSpan(spans, id) {
        var i :| 0 <= i < |spans| && spans[i].spanId == id;
        assert rows[i].spanId == id;
      }
      if !HasSpan(spans, span.spanId) && id == span.spanId {
        assert rows[|spans|].spanId == id;
      }
    }
  }

  /** The trace table after an upsert covers the span, and whatever it covered before. */
  lemma {:induction false} UpsertCovers(traces: seq<TraceRow>, span: Span, project: nat, fault: Fault)
    requires UpsertedTrace(traces, span, project, fault).1.Ok?
    ensures var after := UpsertedTrace(traces, span, project, fault).0;
            && TraceIdsKept(traces, after)
            && (exists t | 0 <= t < |after| :: CoversTimes(after[t], span))
            && (forall t, s: Span | 0 <= t < |traces| && CoversTimes(traces[t], s) :: CoversTimes(after[t], s))
  {
    hide FormatTime, CoversTimes, Widened, NewTrace, StartOf, EndOf;
    var after := UpsertedTrace(traces, span, project, fault).0;
    match FindTrace(traces, span.traceId)
    case Some(id) =>
      WidenedCovers(traces[id - 1], span);
      WidenedId(traces[id - 1], span);
      assert CoversTimes(after[id - 1], span);
    case None =>
      NewTraceCovers(span, project);
      assert CoversTimes(after[|traces|], span);
  }

  lemma {:induction false} WidenedId(t: TraceRow, span: Span)
    ensures Widened(t, span).traceId == t.traceId
  {}

  lemma {:induction false} NewTraceCovers(span: Span, project: nat)
    ensures CoversTimes(NewTrace(span, project), span)
  {
    hide FormatTime;
    LessIsStrictOrder(FormatTime(span.start), FormatTime(span.start), "");
    LessIsStrictOrder(FormatTime(span.end), FormatTime(span.end), "");
  }

  /** The cache only grows, and every arrival that gets past ensureProject is in it. */
  lemma {:induction false} CacheGrows(s: State, a: Arrival)
    ensures s.cache.Keys <= Arrive(s, a).cache.Keys
    ensures forall name | name in s.cache :: Arrive(s, a).cache[name] == s.cache[name]
    ensures Arrive(s, a).error.None? ==> a.project in Arrive(s, a).cache
  {
    hide UpsertedTrace, Persisted;
  }

  lemma {:induction false} FailureKeepsTables(s: State, a: Arrival)
    ensures Arrive(s, a).error.Some? ==> Arrive(s, a).db == s.db
  {
    hide InsertedTx;
  }

  // ----- what a run remembers -----

  lemma {:induction false} CoversKept(s: State, a: Arrival, b: Arrival)
    requires Arrive(s, a).error.None? && Covers(s.db, s.cache, b)
    ensures Covers(Arrive(s, a).db, Arrive(s, a).cache, b)
  {
    hide EnsuredProject, UpsertedTrace, Persisted, CoversTimes, Inserted, HasSpan;
    var o := Arrive(s, a);
    var project, trace := CommittedParts(s, a);
    CacheGrows(s, a);
    UpsertCovers(s.db.traces, a.span, project, a.fault);
    PersistRows(o.db.traces, s.db.spans, a.span, trace, a.fault);
    var t :| 0 <= t < |s.db.traces| && CoversTimes(s.db.traces[t], b.span);
    assert CoversTimes(o.db.traces[t], b.span);
  }

  lemma {:induction false} CoversNew(s: State, a: Arrival)
    requires Arrive(s, a).error.None?
    ensures Covers(Arrive(s, a).db, Arrive(s, a).cache, a)
  {
    hide EnsuredProject, UpsertedTrace, Persisted, CoversTimes, Inserted, HasSpan;
    var project, trace := CommittedParts(s, a);
    CacheGrows(s, a);
    UpsertCovers(s.db.traces, a.span, project, a.fault);
    PersistRows(Arrive(s, a).db.traces, s.db.spans, a.span, trace, a.fault);
  }

  lemma {:induction false} CommittedAreCovered(arrivals: seq<Arrival>, b: Arrival)
    requires b in Committed(arrivals)
    ensures Covers(Run(arrivals).db, Run(arrivals).cache, b)
    decreases |arrivals|
  {
    hide Covers, Inserted;
    var front, a := arrivals[..|arrivals| - 1], arrivals[|arrivals| - 1];
    if Arrive(Run(front), a).error.None? {
      CoversNew(Run(front), a);
    }
    if b in Committed(front) {
      CommittedAreCovered(front, b);
      CoversAfter(Run(front), a, b);
    }
  }

  lemma {:induction false} CoversAfter(s: State, a: Arrival, b: Arrival)
    requires Covers(s.db, s.cache, b)
    ensures Covers(Arrive(s, a).db, Arrive(s, a).cache, b)
  {
    hide Inserted, CoversTimes;
    if Arrive(s, a).error.None? {
      CoversKept(s, a, b);
    } else {
      FailureKeepsTables(s, a);
      CacheGrows(s, a);
    }
  }

  /**
   Exact retry: after any run, offering again a span that was committed, under the same project,
   changes no row of any table and nothing in the cache.
   */
  lemma {:induction false} RetryIsNoOp(arrivals: seq<Arrival>, b: Arrival)
    requires b in Committed(arrivals) && Returns(arrivals)
    ensures Arrive(Run(arrivals), b.(fault := None)) == Outcome(Run(arrivals).db, Run(arrivals).cache, None)
  {
    hide Run, Returns, Committed, CoversTimes;
    CommittedAreCovered(arrivals, b);
    CommittedIsStorable(arrivals, b);
    RunIsSound(arrivals);
    DuplicateIsNoOpIff(Run(arrivals), b.span, b.project);
  }

  lemma {:induction false} CommittedIsStorable(arrivals: seq<Arrival>, b: Arrival)
    requires b in Committed(arrivals)
    ensures Serializable(b.span) && StatusAllowed(b.span.status)
    decreases |arrivals|
  {
    hide Inserted, Run;
    var front, a := arrivals[..|arrivals| - 1], arrivals[|arrivals| - 1];
    if b in Committed(front) {
      CommittedIsStorable(front, b);
    } else {
      var _, _ := CommittedParts(Run(front), a);
    }
  }

  /**
   A duplicate span id is accepted silently, but its project and trace rows have already been
   touched: exactly when it changes nothing.
   */
  lemma {:induction false} DuplicateIsNoOpIff(s: State, span: Span, project: string)
    requires Sound(s.db) && HasSpan(s.db.spans, span.spanId) && Serializable(span) && StatusAllowed(span.status)
    ensures var o := Arrive(s, Arrival(span, project, None));
            && o.error.None? && o.db.spans == s.db.spans
            && (o.db == s.db <==>
                  && (project in s.cache || project in s.db.projects)
                  && exists t | 0 <= t < |s.db.traces| :: CoversTimes(s.db.traces[t], span))
            && (o.db == s.db && project in s.cache ==> o.cache == s.cache)
  {
    hide Indexed, CoversTimes, FormatTime, Widened, NewTrace;
    var o := Arrive(s, Arrival(span, project, None));
    match FindTrace(s.db.traces, span.traceId) {
      case Some(id) =>
        CoversIffUnwidened(s.db.traces[id - 1], span);
        assert s.db.traces[id - 1 := Widened(s.db.traces[id - 1], span)] == s.db.traces
           <==> Widened(s.db.traces[id - 1], span) == s.db.traces[id - 1];
        forall t | 0 <= t < |s.db.traces| && CoversTimes(s.db.traces[t], span)
          ensures t == id - 1
        {
          CoversSameTrace(s.db.traces[t], span);
        }
      case None =>
        forall t | 0 <= t < |s.db.traces| && CoversTimes(s.db.traces[t], span)
          ensures false
        {
          CoversSameTrace(s.db.traces[t], span);
        }
    }
  }

  lemma {:induction false} CoversSameTrace(t: TraceRow, span: Span)
    requires CoversTimes(t, span)
    ensures t.traceId == span.traceId
  {}

  lemma {:induction false} CoversIffUnwidened(t: TraceRow, span: Span)
    requires t.traceId == span.traceId
    ensures CoversTimes(t, span) <==> Widened(t, span) == t
  {
    hide FormatTime;
    LessIsStrictOrder(FormatTime(span.start), t.start, FormatTime(span.start));
    LessIsStrictOrder(t.end, FormatTime(span.end), t.end);
  }
}
