/** What a run leaves in the tables is a function of the set of spans committed, not of their order. */
module Orders {
  import opened Prelude
  import opened Text
  import opened Timestamps
  import opened Forest
  import opened Tables
  import opened Steps
  import opened Runs

  ghost function SpansOf(arrivals: set<Arrival>): set<Span> {
    set a | a in arrivals :: a.span
  }

  /** Equal span ids carry equal content, as in retries of the same export. */
  predicate Consistent(spans: set<Span>) {
    forall s, t | s in spans && t in spans && s.spanId == t.spanId :: s == t
  }

  ghost function Ids(spans: set<Span>): set<string> {
    set s | s in spans :: s.spanId
  }

  ghost function ById(spans: set<Span>, id: string): Span
    requires id in Ids(spans)
  {
    var s :| s in spans && s.spanId == id;
    s
  }

  /** The forest the spans themselves describe. */
  ghost function ContentForest(spans: set<Span>): Forest {
    map id | id in Ids(spans) :: SpanNode(ById(spans, id))
  }

  // ----- every stored row comes from a committed span -----

  lemma {:induction false} RowFromAfter(s: State, a: Arrival, i: nat, span: Span)
    requires Arrive(s, a).error.None? && Sound(s.db) && i < |s.db.spans| && RowFrom(s.db, s.db.spans[i], span)
    ensures i < |Arrive(s, a).db.spans| && RowFrom(Arrive(s, a).db, Arrive(s, a).db.spans[i], span)
  {
    hide EnsuredProject, UpsertedTrace, Persisted, Inserted, Indexed, CoversTimes, FormatTime, HasSpan;
    var project, trace := CommittedParts(s, a);
    UpsertCovers(s.db.traces, a.span, project, a.fault);
    PersistRows(Arrive(s, a).db.traces, s.db.spans, a.span, trace, a.fault);
  }

  /**
   A new span that commits has one row, the last: its columns are the span's, it belongs to the span's
   trace, and of the other rows only the cumulative columns change.
   */
  lemma {:induction false} NewSpanIsStored(s: State, a: Arrival)
    requires Arrive(s, a).error.None? && Sound(s.db) && !HasSpan(s.db.spans, a.span.spanId)
    ensures var rows := Arrive(s, a).db.spans;
            && |rows| == |s.db.spans| + 1
            && RowFrom(Arrive(s, a).db, rows[|s.db.spans|], a.span)
            && forall i | 0 <= i < |s.db.spans| ::
                 rows[i].spanId != a.span.spanId && rows[i] == s.db.spans[i].(cum := rows[i].cum)
  {
    hide EnsuredProject, UpsertedTrace, Persisted, Inserted, FormatTime, DistinctProjects, Describes, RowOf;
    var project, trace := CommittedParts(s, a);
    UpsertKeeps(s.db.traces, s.db.spans, a.span, project, a.fault);
    PersistRows(Arrive(s, a).db.traces, s.db.spans, a.span, trace, a.fault);
    RowDescribes(a.span, trace, Arrive(s, a).db.spans[|s.db.spans|].cum);
  }

  /** Over every run: each row has the columns of a committed span, and belongs to its trace. */
  lemma {:induction false} RowComesFrom(arrivals: seq<Arrival>, i: nat) returns (a: Arrival)
    requires Returns(arrivals) && i < |Run(arrivals).db.spans|
    ensures a in Committed(arrivals) && RowFrom(Run(arrivals).db, Run(arrivals).db.spans[i], a.span)
    decreases |arrivals|
  {
    hide Inserted, RowFrom, WalkEnds, Sound;
    var front, last := arrivals[..|arrivals| - 1], arrivals[|arrivals| - 1];
    var s := Run(front);
    RunIsSound(front);
    if Arrive(s, last).error.Some? {
      FailureKeepsTables(s, last);
      a := RowComesFrom(front, i);
    } else if i < |s.db.spans| {
      a := RowComesFrom(front, i);
      RowFromAfter(s, last, i, a.span);
    } else {
      a := last;
      SpanCountStep(s, last);
      NewSpanIsStored(s, last);
    }
  }

  lemma {:induction false} SpanCountStep(s: State, a: Arrival)
    requires Arrive(s, a).error.None?
    ensures |Arrive(s, a).db.spans| == |s.db.spans| + (if HasSpan(s.db.spans, a.span.spanId) then 0 else 1)
  {
    hide EnsuredProject, UpsertedTrace, Persisted, Inserted, HasSpan;
    var project, trace := CommittedParts(s, a);
    PersistRows(Arrive(s, a).db.traces, s.db.spans, a.span, trace, a.fault);
  }

  // ----- the stored forest is the forest of the contents -----

  lemma {:induction false} ContentNode(spans: set<Span>, s: Span)
    requires Consistent(spans) && s in spans
    ensures s.spanId in ContentForest(spans) && ContentForest(spans)[s.spanId] == SpanNode(s)
  {
    hide SpanNode;
    assert s.spanId in Ids(spans);
  }

  lemma {:induction false} RowFromNode(db: Db, row: SpanRow, span: Span)
    requires RowFrom(db, row, span)
    ensures NodeOf(db.traces, row) == SpanNode(span) && row.spanId == span.spanId
  {
    hide FormatTime;
    SelfOfRow(span, row.trace, row.cum);
  }

  lemma {:induction false} ForestNodeIsContent(arrivals: seq<Arrival>, id: string)
    requires Returns(arrivals) && Consistent(SpansOf(Committed(arrivals)))
    ensures var f, g := ForestOf(Run(arrivals).db.traces, Run(arrivals).db.spans),
            ContentForest(SpansOf(Committed(arrivals)));
            (id in f <==> id in g) && (id in f ==> f[id] == g[id])
  {
    hide ForestOf, ContentForest, RowFrom, Covers, Consistent, SpanNode, NodeOf, Run, Returns, Committed;
    var db := Run(arrivals).db;
    var spans := SpansOf(Committed(arrivals));
    ForestKeys(db.traces, db.spans, id);
    if HasSpan(db.spans, id) {
      var i: nat :| i < |db.spans| && db.spans[i].spanId == id;
      var a := RowComesFrom(arrivals, i);
      RowFromNode(db, db.spans[i], a.span);
      assert a.span in spans;
      ContentNode(spans, a.span);
      RunIsSound(arrivals);
      ForestAt(db.traces, db.spans, i);
    }
    ContentHasId(spans, id);
    if id in Ids(spans) {
      var a :| a in Committed(arrivals) && a.span.spanId == id;
      CommittedAreCovered(arrivals, a);
      CoveredHasSpan(db, Run(arrivals).cache, a);
    }
  }

  lemma {:induction false} ContentHasId(spans: set<Span>, id: string)
    ensures id in ContentForest(spans) <==> id in Ids(spans)
  {}

  lemma {:induction false} CoveredHasSpan(db: Db, cache: Cache, a: Arrival)
    requires Covers(db, cache, a)
    ensures HasSpan(db.spans, a.span.spanId)
  {}

  lemma {:induction false} ForestIsContent(arrivals: seq<Arrival>)
    requires Returns(arrivals) && Consistent(SpansOf(Committed(arrivals)))
    ensures ForestOf(Run(arrivals).db.traces, Run(arrivals).db.spans) == ContentForest(SpansOf(Committed(arrivals)))
  {
    hide ForestOf, ContentForest, Run, Returns, Committed, Consistent;
    var f, g := ForestOf(Run(arrivals).db.traces, Run(arrivals).db.spans), ContentForest(SpansOf(Committed(arrivals)));
    forall id: string
      ensures (id in f <==> id in g) && (id in f ==> f[id] == g[id])
    {
      ForestNodeIsContent(arrivals, id);
    }
    assert f.Keys == g.Keys;
  }

  // ----- span rows -----

  /** A span row up to rowids: the trace is named by its trace id. */
  datatype StoredSpan = StoredSpan(traceId: string, row: SpanRow)

  function Stored(db: Db, row: SpanRow): StoredSpan {
    StoredSpan(TraceIdOf(db.traces, row), row.(trace := 0))
  }

  ghost function StoredSpans(db: Db): set<StoredSpan> {
    set i | 0 <= i < |db.spans| :: Stored(db, db.spans[i])
  }

  /** The row a span ends with, given all the spans committed. */
  ghost function FinalSpan(f: Forest, span: Span): (s: StoredSpan)
    requires Serializable(span)
    ensures s.traceId == span.traceId && Describes(s.row, span)
    ensures s.row.trace == 0 && s.row.cum == SubtreeSum(f, span.spanId)
  {
    RowDescribes(span, 0, SubtreeSum(f, span.spanId));
    StoredSpan(span.traceId, RowOf(span, 0, SubtreeSum(f, span.spanId)))
  }

  lemma {:induction false} RowIsFinal(db: Db, i: nat, span: Span)
    requires Sound(db) && i < |db.spans| && RowFrom(db, db.spans[i], span)
    ensures Stored(db, db.spans[i]) == FinalSpan(ForestOf(db.traces, db.spans), span)
  {
    hide ForestOf, FormatTime, SubtreeSum, Acyclic, WellFormedSpans, DistinctProjects, DistinctTraces;
  }

  ghost predicate AllSerializable(spans: set<Span>) {
    forall s | s in spans :: Serializable(s)
  }

  ghost function FinalSpans(spans: set<Span>): set<StoredSpan>
    requires AllSerializable(spans)
  {
    set s | s in spans :: FinalSpan(ContentForest(spans), s)
  }

  /** The span rows a run leaves, in closed form: each committed span once, with its subtree's sums. */
  lemma {:induction false} RowsInClosedForm(arrivals: seq<Arrival>)
    requires Returns(arrivals) && Consistent(SpansOf(Committed(arrivals)))
    ensures AllSerializable(SpansOf(Committed(arrivals)))
    ensures StoredSpans(Run(arrivals).db) == FinalSpans(SpansOf(Committed(arrivals)))
  {
    hide ForestOf, ContentForest, RowFrom, Covers, Consistent, Run, Returns, Committed, Sound, FinalSpan, Stored,
      Serializable;
    var db := Run(arrivals).db;
    var spans := SpansOf(Committed(arrivals));
    RunIsSound(arrivals);
    ForestIsContent(arrivals);
    forall s | s in spans
      ensures Serializable(s)
    {
      var a :| a in Committed(arrivals) && a.span == s;
      CommittedIsStorable(arrivals, a);
    }
    var f := ContentForest(spans);
    forall x | x in StoredSpans(db)
      ensures x in FinalSpans(spans)
    {
      var i: nat :| i < |db.spans| && x == Stored(db, db.spans[i]);
      var a := RowComesFrom(arrivals, i);
      RowIsFinal(db, i, a.span);
      assert a.span in spans;
    }
    forall s | s in spans
      ensures FinalSpan(f, s) in StoredSpans(db)
    {
      var a :| a in Committed(arrivals) && a.span == s;
      CommittedAreCovered(arrivals, a);
      CoveredHasSpan(db, Run(arrivals).cache, a);
      var i: nat :| i < |db.spans| && db.spans[i].spanId == s.spanId;
      var b := RowComesFrom(arrivals, i);
      RowFromNode(db, db.spans[i], b.span);
      RowIsFinal(db, i, b.span);
      SameIdSameSpan(spans, s, b.span);
    }
  }

  lemma {:induction false} SameIdSameSpan(spans: set<Span>, s: Span, t: Span)
    requires Consistent(spans) && s in spans && t in spans && s.spanId == t.spanId
    ensures s == t
  {}

  // ----- trace ranges -----

  /** A trace row spans exactly from the text-least start to the text-greatest end of its spans. */
  ghost predicate RangeOf(t: TraceRow, spans: set<Span>) {
    && (forall s | s in spans && s.traceId == t.traceId :: CoversTimes(t, s))
    && (exists s :: s in spans && s.traceId == t.traceId && FormatTime(s.start) == t.start)
    && (exists s :: s in spans && s.traceId == t.traceId && FormatTime(s.end) == t.end)
  }

  /** Where a trace row's texts come from after an upsert. */
  lemma {:induction false} UpsertSources(traces: seq<TraceRow>, span: Span, project: nat, fault: Fault, t: nat)
    requires t < |UpsertedTrace(traces, span, project, fault).0|
    ensures var after := UpsertedTrace(traces, span, project, fault).0[t];
            && (t < |traces| ==> after.traceId == traces[t].traceId)
            && (t >= |traces| || after.start != traces[t].start ==>
              after.traceId == span.traceId && after.start == FormatTime(span.start))
            && (t >= |traces| || after.end != traces[t].end ==>
              after.traceId == span.traceId && after.end == FormatTime(span.end))
  {
    hide FormatTime, Less;
  }

  lemma {:induction false} TextsComeFrom(arrivals: seq<Arrival>, t: nat) returns (first: Arrival, last: Arrival)
    requires t < |Run(arrivals).db.traces|
    ensures var row := Run(arrivals).db.traces[t];
            && first in Committed(arrivals) && first.span.traceId == row.traceId &&
              FormatTime(first.span.start) == row.start
            && last in Committed(arrivals) && last.span.traceId == row.traceId && FormatTime(last.span.end) == row.end
    decreases |arrivals|
  {
    hide Inserted, FormatTime, UpsertedTrace, EnsuredProject, Persisted;
    var front, a := arrivals[..|arrivals| - 1], arrivals[|arrivals| - 1];
    var s := Run(front);
    if Arrive(s, a).error.Some? {
      FailureKeepsTables(s, a);
      first, last := TextsComeFrom(front, t);
    } else {
      var project, trace := CommittedParts(s, a);
      UpsertSources(s.db.traces, a.span, project, a.fault, t);
      first, last := a, a;
      if t < |s.db.traces| {
        var f, l := TextsComeFrom(front, t);
        if Run(arrivals).db.traces[t].start == s.db.traces[t].start { first := f; }
        if Run(arrivals).db.traces[t].end == s.db.traces[t].end { last := l; }
      }
    }
  }

  lemma {:induction false} CoveredByRow(db: Db, cache: Cache, a: Arrival, t: nat)
    requires Covers(db, cache, a) && DistinctTraces(db.traces)
    requires t < |db.traces| && db.traces[t].traceId == a.span.traceId
    ensures CoversTimes(db.traces[t], a.span)
  {
    hide FormatTime, Less;
    var u :| 0 <= u < |db.traces| && CoversTimes(db.traces[u], a.span);
    assert u == t;
  }

  /** Over every run: each trace row's range is that of the spans committed for it, duplicates included. */
  lemma {:induction false} RangesOverRuns(arrivals: seq<Arrival>, t: nat)
    requires Returns(arrivals) && t < |Run(arrivals).db.traces|
    ensures RangeOf(Run(arrivals).db.traces[t], SpansOf(Committed(arrivals)))
  {
    hide Run, Returns, Committed, Covers, CoversTimes, FormatTime, Indexed;
    var row := Run(arrivals).db.traces[t];
    var first, last := TextsComeFrom(arrivals, t);
    assert first.span in SpansOf(Committed(arrivals)) && last.span in SpansOf(Committed(arrivals));
    RunIsSound(arrivals);
    forall s | s in SpansOf(Committed(arrivals)) && s.traceId == row.traceId
      ensures CoversTimes(row, s)
    {
      var a :| a in Committed(arrivals) && a.span == s;
      CommittedAreCovered(arrivals, a);
      CoveredByRow(Run(arrivals).db, Run(arrivals).cache, a, t);
    }
  }

  lemma {:induction false} RangeIsUnique(t: TraceRow, u: TraceRow, spans: set<Span>)
    requires RangeOf(t, spans) && RangeOf(u, spans) && t.traceId == u.traceId
    ensures t.start == u.start && t.end == u.end
  {
    hide FormatTime, Less;
    var a :| a in spans && a.traceId == t.traceId && FormatTime(a.start) == t.start;
    var b :| b in spans && b.traceId == u.traceId && FormatTime(b.start) == u.start;
    var c :| c in spans && c.traceId == t.traceId && FormatTime(c.end) == t.end;
    var d :| d in spans && d.traceId == u.traceId && FormatTime(d.end) == u.end;
    LessIsStrictOrder(t.start, u.start, "");
    LessIsStrictOrder(t.end, u.end, "");
    assert CoversTimes(t, b) && CoversTimes(u, a) && CoversTimes(t, d) && CoversTimes(u, c);
  }

  /** The stored start is the earliest start unless another one is earlier within its second. */
  lemma {:induction false} StartIsEarliestIff(t: TraceRow, spans: set<Span>, x: Span)
    requires RangeOf(t, spans) && x in spans && x.traceId == t.traceId && FormatTime(x.start) == t.start
    ensures (exists s :: s in spans && s.traceId == t.traceId && Earlier(s.start, x.start)) <==>
            (exists s :: s in spans && s.traceId == t.traceId && StartsEarlierInSecond(s.start, x.start))
  {
    hide FormatTime, Less, StartsEarlierInSecond, Earlier;
    forall s | s in spans && s.traceId == t.traceId
      ensures Earlier(s.start, x.start) <==> StartsEarlierInSecond(s.start, x.start)
    {
      assert CoversTimes(t, s);
      UnlessStartsEarlier(s.start, x.start);
    }
  }

  /** The stored end is the latest end unless it is earlier than another one within their second. */
  lemma {:induction false} EndIsLatestIff(t: TraceRow, spans: set<Span>, x: Span)
    requires RangeOf(t, spans) && x in spans && x.traceId == t.traceId && FormatTime(x.end) == t.end
    ensures (exists s :: s in spans && s.traceId == t.traceId && Earlier(x.end, s.end)) <==>
            (exists s :: s in spans && s.traceId == t.traceId && StartsEarlierInSecond(x.end, s.end))
  {
    hide FormatTime, Less, StartsEarlierInSecond, Earlier;
    forall s | s in spans && s.traceId == t.traceId
      ensures Earlier(x.end, s.end) <==> StartsEarlierInSecond(x.end, s.end)
    {
      assert CoversTimes(t, s);
      UnlessStartsEarlier(x.end, s.end);
    }
  }

  datatype Range = Range(traceId: string, start: string, end: string)

  ghost function Ranges(db: Db): set<Range> {
    set i | 0 <= i < |db.traces| :: Range(db.traces[i].traceId, db.traces[i].start, db.traces[i].end)
  }

  lemma {:induction false} RangesWithin(a: seq<Arrival>, b: seq<Arrival>)
    requires Returns(a) && Returns(b) && SpansOf(Committed(a)) == SpansOf(Committed(b))
    ensures Ranges(Run(a).db) <= Ranges(Run(b).db)
  {
    hide Run, Returns, Committed, Covers, CoversTimes, FormatTime, RangeOf;
    var spans := SpansOf(Committed(a));
    forall r | r in Ranges(Run(a).db)
      ensures r in Ranges(Run(b).db)
    {
      var i: nat :| i < |Run(a).db.traces| && var t := Run(a).db.traces[i]; r == Range(t.traceId, t.start, t.end);
      RangesOverRuns(a, i);
      var first, _ := TextsComeFrom(a, i);
      assert first.span in spans;
      var other :| other in Committed(b) && other.span == first.span;
      CommittedAreCovered(b, other);
      var j := CoveringRow(Run(b).db, Run(b).cache, other);
      RangesOverRuns(b, j);
      RangeIsUnique(Run(a).db.traces[i], Run(b).db.traces[j], spans);
    }
  }

  lemma {:induction false} CoveringRow(db: Db, cache: Cache, a: Arrival) returns (t: nat)
    requires Covers(db, cache, a)
    ensures t < |db.traces| && db.traces[t].traceId == a.span.traceId
  {
    hide FormatTime, Less;
    t :| t < |db.traces| && CoversTimes(db.traces[t], a.span);
  }

  // ----- order of arrival -----

  /** Runs that commit the same spans end with the same span rows and the same trace ranges. */
  lemma {:induction false} OrderIndependence(a: seq<Arrival>, b: seq<Arrival>)
    requires Returns(a) && Returns(b)
    requires SpansOf(Committed(a)) == SpansOf(Committed(b)) && Consistent(SpansOf(Committed(a)))
    ensures StoredSpans(Run(a).db) == StoredSpans(Run(b).db)
    ensures Ranges(Run(a).db) == Ranges(Run(b).db)
  {
    hide Run, Returns, Committed, Consistent, FinalSpans;
    RowsInClosedForm(a);
    RowsInClosedForm(b);
    RangesWithin(a, b);
    RangesWithin(b, a);
  }

  ghost function Offered(arrivals: seq<Arrival>): set<Span> {
    set i | 0 <= i < |arrivals| :: arrivals[i].span
  }

  /** What the table's constraints and JSON allow to be stored. */
  predicate Storable(span: Span) {
    Serializable(span) && StatusAllowed(span.status)
  }

  ghost function StorableOf(spans: set<Span>): set<Span> {
    set s | s in spans && Storable(s)
  }

  lemma {:induction false} CommittedWereOffered(arrivals: seq<Arrival>)
    ensures SpansOf(Committed(arrivals)) <= StorableOf(Offered(arrivals))
    decreases |arrivals|
  {
    hide Arrive, Storable;
    if arrivals != [] {
      var front, a := arrivals[..|arrivals| - 1], arrivals[|arrivals| - 1];
      CommittedWereOffered(front);
      OfferedStep(arrivals);
      UnstorableFails(Run(front).db, Run(front).cache, a.span, a.project, a.fault);
      CommitsInside(Run(front), a);
    }
  }

  lemma {:induction false} UnstorableFails(db: Db, cache: Cache, span: Span, project: string, fault: Fault)
    ensures !Storable(span) ==> InsertedTx(db, cache, span, project, fault).error.Some?
  {
    hide EnsuredProject, UpsertedTrace, HasSpan, StatusAllowed, WithRow, Above, Raised, CumOf;
  }

  lemma {:induction false} CommitsInside(s: State, a: Arrival)
    ensures Arrive(s, a).error.None? ==> InsertedTx(s.db, s.cache, a.span, a.project, a.fault).error.None?
  {
    hide InsertedTx;
  }

  /** No walk meets a cycle if the storable offered spans' own parent links have none. */
  lemma {:induction false} ReturnsIfAcyclic(arrivals: seq<Arrival>, universe: set<Span>)
    requires StorableOf(Offered(arrivals)) <= universe && Consistent(universe) && Acyclic(ContentForest(universe))
    ensures Returns(arrivals)
    decreases |arrivals|
  {
    hide Run, Committed, Consistent, ContentForest, Acyclic, ForestOf, WalkEnds, Storable;
    if arrivals != [] {
      var front, a := arrivals[..|arrivals| - 1], arrivals[|arrivals| - 1];
      OfferedStep(arrivals);
      ReturnsIfAcyclic(front, universe);
      if Storable(a.span) {
        CommittedWereOffered(front);
        ConsistentPart(SpansOf(Committed(front)), universe);
        ForestIsContent(front);
        PrefixWalkEnds(Run(front), a, SpansOf(Committed(front)), universe);
      } else {
        FailingWalkEnds(Run(front), a);
      }
    }
  }

  lemma {:induction false} FailingWalkEnds(s: State, a: Arrival)
    requires !Storable(a.span)
    ensures WalkEnds(s.db, s.cache, a.span, a.project, a.fault)
  {
    hide InsertedTx, Storable;
    UnstorableFails(s.db, s.cache, a.span, a.project, a.fault);
  }

  lemma {:induction false} ConsistentPart(part: set<Span>, whole: set<Span>)
    requires part <= whole && Consistent(whole)
    ensures Consistent(part)
  {}

  lemma {:induction false} PrefixWalkEnds(s: State, a: Arrival, spans: set<Span>, universe: set<Span>)
    requires spans <= universe && a.span in universe && Consistent(spans)
    requires Consistent(universe) && Acyclic(ContentForest(universe))
    requires ForestOf(s.db.traces, s.db.spans) == ContentForest(spans)
    ensures WalkEnds(s.db, s.cache, a.span, a.project, a.fault)
  {
    hide Acyclic, InsertedTx, ForestOf, ContentForest, SpanNode, ChainEnds, Consistent;
    var n := a.span.spanId;
    var f := ContentForest(spans)[n := SpanNode(a.span)];
    var g := ContentForest(universe);
    forall id | id in f
      ensures id in g && f[id] == g[id]
    {
      ContentNode(universe, a.span);
      if id != n {
        ContentHasId(spans, id);
        var t :| t in spans && t.spanId == id;
        ContentNode(spans, t);
        ContentNode(universe, t);
      }
    }
    SubforestAcyclic(f, g);
    AcyclicChainEnds(f, n);
  }

  lemma {:induction false} AcyclicChainEnds(f: Forest, id: string)
    requires id in f && Acyclic(f)
    ensures ChainEnds(f, id)
  {
    EndsIffNoCycleAbove(f, id);
  }

  predicate Faultless(arrivals: seq<Arrival>) {
    forall i | 0 <= i < |arrivals| :: arrivals[i].fault == None
  }

  lemma {:induction false} FaultlessCommitsIff(s: State, a: Arrival)
    requires a.fault == None
    ensures Arrive(s, a).error.None? <==> Storable(a.span)
  {
    hide FormatTime, ForestOf, CumOf, Above;
  }

  lemma {:induction false} OfferedStep(arrivals: seq<Arrival>)
    requires arrivals != []
    ensures Offered(arrivals) == Offered(arrivals[..|arrivals| - 1]) + {arrivals[|arrivals| - 1].span}
  {
    var front := arrivals[..|arrivals| - 1];
    forall s | s in Offered(arrivals)
      ensures s in Offered(front) + {arrivals[|arrivals| - 1].span}
    {
      var i :| 0 <= i < |arrivals| && arrivals[i].span == s;
      if i < |front| { assert front[i].span == s; }
    }
    forall s | s in Offered(front)
      ensures s in Offered(arrivals)
    {
      var i :| 0 <= i < |front| && front[i].span == s;
      assert arrivals[i].span == s;
    }
    assert arrivals[|arrivals| - 1].span in Offered(arrivals);
  }

  lemma {:induction false} FaultlessCommits(arrivals: seq<Arrival>)
    requires Faultless(arrivals)
    ensures SpansOf(Committed(arrivals)) == StorableOf(Offered(arrivals))
    decreases |arrivals|
  {
    hide Arrive, Storable;
    if arrivals != [] {
      var front, a := arrivals[..|arrivals| - 1], arrivals[|arrivals| - 1];
      FaultlessCommits(front);
      FaultlessCommitsIff(Run(front), a);
      OfferedStep(arrivals);
      assert Arrive(Run(front), a).error.None? ==>
             SpansOf(Committed(arrivals)) == SpansOf(Committed(front)) + {a.span};
    }
  }

  /**
   Arrival order does not matter: two sequences offering the same spans, with retries anywhere and
   with no cycle among the parent links of those that can be stored, leave the same span rows and the
   same trace ranges. Spans that cannot be stored leave nothing in either.
   */
  lemma {:induction false} ArrivalOrderDoesNotMatter(a: seq<Arrival>, b: seq<Arrival>)
    requires Faultless(a) && Faultless(b) && Offered(a) == Offered(b)
    requires Consistent(StorableOf(Offered(a))) && Acyclic(ContentForest(StorableOf(Offered(a))))
    ensures AllSerializable(StorableOf(Offered(a)))
    ensures StoredSpans(Run(a).db) == StoredSpans(Run(b).db) == FinalSpans(StorableOf(Offered(a)))
    ensures Ranges(Run(a).db) == Ranges(Run(b).db)
  {
    hide Run, Returns, Committed, Consistent, FinalSpans, Faultless, ContentForest, Acyclic, Offered, StorableOf,
      AllSerializable;
    ReturnsIfAcyclic(a, StorableOf(Offered(a)));
    ReturnsIfAcyclic(b, StorableOf(Offered(a)));
    FaultlessCommits(a);
    FaultlessCommits(b);
    OrderIndependence(a, b);
    RowsInClosedForm(a);
  }
}
