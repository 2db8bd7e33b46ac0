/**
 The project cache against the projects table. The cache is written inside the transaction but not
 rolled back with it, so it agrees with the table exactly as long as no transaction that created a
 project is lost.
 */
module CacheCoherence {
  import opened Prelude
  import opened Text
  import opened Timestamps
  import opened Tables
  import opened Runs

  /** Every cached id is the rowid of the project of that name. */
  predicate Coherent(projects: seq<string>, cache: Cache) {
    forall name | name in cache :: 1 <= cache[name] <= |projects| && projects[cache[name] - 1] == name
  }

  /** The insert gets as far as creating its project. */
  predicate CreatesProject(s: State, a: Arrival) {
    && a.project !in s.cache && a.project !in s.db.projects && Serializable(a.span)
    && a.fault != Some(Begin) && a.fault != Some(SelectProject) && a.fault != Some(CreateProject)
  }

  /** Something after ensureProject fails: a refused statement that this insert comes to, or a bad status. */
  predicate FailsLater(s: State, a: Arrival) {
    || FailsTrace(s.db.traces, a.span, a.fault)
    || a.fault == Some(SumChildren) || a.fault == Some(InsertRow) || !StatusAllowed(a.span.status)
    || (a.fault == Some(Propagate) && !HasSpan(s.db.spans, a.span.spanId) && a.span.parentId != "")
    || a.fault == Some(Commit)
  }

  /** upsertTrace comes to the refused statement. */
  predicate FailsTrace(traces: seq<TraceRow>, span: Span, fault: Fault) {
    fault == Some(SelectTrace) ||
    match FindTrace(traces, span.traceId)
    case None => fault == Some(CreateTrace)
    case Some(id) =>
      || (fault == Some(UpdateStart) && Less(FormatTime(span.start), traces[id - 1].start))
      || (fault == Some(UpdateEnd) && Less(traces[id - 1].end, FormatTime(span.end)))
  }

  /** The insert creates its project and then loses the transaction. */
  predicate StrandsProject(s: State, a: Arrival) {
    CreatesProject(s, a) && FailsLater(s, a)
  }

  lemma {:induction false} TraceFailsIff(traces: seq<TraceRow>, span: Span, project: nat, fault: Fault)
    ensures UpsertedTrace(traces, span, project, fault).1.Err? <==> FailsTrace(traces, span, fault)
  {
    hide FormatTime;
    if FindTrace(traces, span.traceId).Some? {
      var row := traces[FindTrace(traces, span.traceId).value - 1];
      LessIsStrictOrder(FormatTime(span.start), row.start, "");
      LessIsStrictOrder(row.end, FormatTime(span.end), "");
    }
  }

  lemma {:induction false} PersistFailsIff(
    traces: seq<TraceRow>, spans: seq<SpanRow>, span: Span, trace: nat, fault: Fault)
    requires Serializable(span)
    ensures Persisted(traces, spans, span, trace, fault).1.Some? <==>
            || fault == Some(SumChildren) || fault == Some(InsertRow) || !StatusAllowed(span.status)
            || (fault == Some(Propagate) && !HasSpan(spans, span.spanId) && span.parentId != "")
  {
    hide WithRow, Above, Raised, CumOf, ForestOf, HasSpan, StatusAllowed;
  }

  /** What the condition means for the call: the name is cached, the table does not have it. */
  lemma {:induction false} StrandsIff(s: State, a: Arrival)
    ensures StrandsProject(s, a) <==>
            && a.project !in s.cache && a.project !in s.db.projects
            && a.project in Arrive(s, a).cache && a.project !in Arrive(s, a).db.projects
  {
    hide UpsertedTrace, Persisted, FailsTrace, HasSpan, StatusAllowed;
    if CreatesProject(s, a) {
      var (projects, _, id) := EnsuredProject(s.db.projects, s.cache, a.project, a.fault);
      TraceFailsIff(s.db.traces, a.span, id.value, a.fault);
      var (traces, trace) := UpsertedTrace(s.db.traces, a.span, id.value, a.fault);
      if trace.Ok? {
        PersistFailsIff(traces, s.db.spans, a.span, trace.value, a.fault);
      }
    }
  }

  /** Without any refused statement, a bad status is the one way to strand a project. */
  lemma {:induction false} FaultlessStrandsIff(s: State, a: Arrival)
    requires a.fault == None
    ensures StrandsProject(s, a) <==>
            a.project !in s.cache && a.project !in s.db.projects && Serializable(a.span) &&
              !StatusAllowed(a.span.status)
  {
    hide FormatTime;
  }

  lemma {:induction false} ProjectsStep(s: State, a: Arrival)
    ensures var o := Arrive(s, a);
            var e := EnsuredProject(s.db.projects, s.cache, a.project, a.fault);
            && (o.cache == s.cache || o.cache == e.1)
            && (a.project in o.cache ==> o.cache == e.1)
            && (o.error.None? ==> o.db.projects == e.0 && o.cache == e.1)
            && (o.error.Some? ==> o.db.projects == s.db.projects)
  {
    hide UpsertedTrace, Persisted;
  }

  /** One step keeps the cache coherent if and only if it does not strand a project. */
  lemma {:induction false} CoherentStepIff(s: State, a: Arrival)
    requires Coherent(s.db.projects, s.cache)
    ensures Coherent(Arrive(s, a).db.projects, Arrive(s, a).cache) <==> !StrandsProject(s, a)
  {
    hide Inserted, CreatesProject, FailsLater;
    ProjectsStep(s, a);
    StrandsIff(s, a);
  }

  /** What stranding leaves: an entry for a row that does not exist, whose id is the next one given out. */
  lemma {:induction false} StrandedEntry(s: State, a: Arrival)
    requires StrandsProject(s, a)
    ensures Arrive(s, a).db == s.db && Arrive(s, a).cache == s.cache[a.project := |s.db.projects| + 1]
  {
    hide Inserted, FailsLater;
    StrandsIff(s, a);
    FailureKeepsTables(s, a);
    ProjectsStep(s, a);
  }

  /** Rows of the projects table and entries of the cache stay as they are. */
  lemma {:induction false} EntriesStay(before: seq<Arrival>, later: seq<Arrival>)
    ensures Run(before).db.projects <= Run(before + later).db.projects
    ensures Run(before).cache.Keys <= Run(before + later).cache.Keys
    ensures forall name | name in Run(before).cache :: Run(before + later).cache[name] == Run(before).cache[name]
    decreases |later|
  {
    hide Arrive;
    if later == [] {
      assert before + later == before;
    } else {
      var front, last := later[..|later| - 1], later[|later| - 1];
      EntriesStay(before, front);
      assert (before + later)[..|before + later| - 1] == before + front;
      CacheGrows(Run(before + front), last);
      ProjectsGrow(Run(before + front), last);
    }
  }

  lemma {:induction false} ProjectsGrow(s: State, a: Arrival)
    ensures s.db.projects <= Arrive(s, a).db.projects
  {
    hide Inserted;
    ProjectsStep(s, a);
  }

  /** As long as no project is created, the stranded name holds the rowid that is given out next. */
  lemma {:induction false} StrandedIdWaits(before: seq<Arrival>, a: Arrival, later: seq<Arrival>)
    requires StrandsProject(Run(before), a)
    ensures var s := Run(before + [a] + later);
            a.project in s.cache && s.cache[a.project] == |Run(before).db.projects| + 1
  {
    hide StrandsProject, Arrive;
    StrandedEntry(Run(before), a);
    assert (before + [a])[..|before|] == before;
    EntriesStay(before + [a], later);
  }

  /**
   From then on the stranded name and the next project to be created share a rowid, whatever else
   arrives in between.
   */
  lemma {:induction false} StrandedIdIsReused(before: seq<Arrival>, a: Arrival, later: seq<Arrival>, b: Arrival)
    requires StrandsProject(Run(before), a)
    requires var s := Run(before + [a] + later);
             |s.db.projects| == |Run(before).db.projects| && CreatesProject(s, b) && !FailsLater(s, b)
    ensures var o := Arrive(Run(before + [a] + later), b);
            && o.error.None? && a.project != b.project
            && a.project in o.cache && b.project in o.cache && o.cache[a.project] == o.cache[b.project]
            && o.cache[b.project] == |o.db.projects| && o.db.projects[o.cache[b.project] - 1] == b.project
  {
    hide Inserted, StrandsProject, FailsLater, Run;
    var s := Run(before + [a] + later);
    StrandedIdWaits(before, a, later);
    NoFailureNoError(s, b);
    CacheGrows(s, b);
    ProjectsStep(s, b);
  }

  lemma {:induction false} NoFailureNoError(s: State, b: Arrival)
    requires CreatesProject(s, b) && !FailsLater(s, b)
    ensures Arrive(s, b).error.None?
  {
    hide FailsTrace, UpsertedTrace, Persisted, HasSpan, StatusAllowed;
    var (projects, _, id) := EnsuredProject(s.db.projects, s.cache, b.project, b.fault);
    TraceFailsIff(s.db.traces, b.span, id.value, b.fault);
    var (traces, trace) := UpsertedTrace(s.db.traces, b.span, id.value, b.fault);
    PersistFailsIff(traces, s.db.spans, b.span, trace.value, b.fault);
  }

  /** And its own row is never written: later spans of that project find the name cached. */
  lemma {:induction false} StrandedStaysMissing(before: seq<Arrival>, later: seq<Arrival>, name: string)
    requires name in Run(before).cache && name !in Run(before).db.projects
    ensures name in Run(before + later).cache && name !in Run(before + later).db.projects
    decreases |later|
  {
    hide Arrive;
    if later == [] {
      assert before + later == before;
    } else {
      var front := before + later[..|later| - 1];
      StrandedStaysMissing(before, later[..|later| - 1], name);
      assert (before + later)[..|before + later| - 1] == front;
      MissingStep(Run(front), later[|later| - 1], name);
    }
  }

  lemma {:induction false} MissingStep(s: State, a: Arrival, name: string)
    requires name in s.cache && name !in s.db.projects
    ensures name in Arrive(s, a).cache && name !in Arrive(s, a).db.projects
  {
    hide Inserted;
    ProjectsStep(s, a);
  }

  ghost predicate NeverStrands(arrivals: seq<Arrival>) {
    arrivals != [] ==>
      var front, a := arrivals[..|arrivals| - 1], arrivals[|arrivals| - 1];
      NeverStrands(front) && !StrandsProject(Run(front), a)
  }

  lemma {:induction false} MissingIsIncoherent(projects: seq<string>, cache: Cache, name: string)
    requires name in cache && name !in projects
    ensures !Coherent(projects, cache)
  {}

  lemma {:induction false} IncoherentAfterStranding(arrivals: seq<Arrival>) returns (name: string)
    requires !NeverStrands(arrivals)
    ensures name in Run(arrivals).cache && name !in Run(arrivals).db.projects
    decreases |arrivals|
  {
    hide StrandsProject, Arrive;
    var front, a := arrivals[..|arrivals| - 1], arrivals[|arrivals| - 1];
    if !NeverStrands(front) {
      name := IncoherentAfterStranding(front);
      MissingStep(Run(front), a, name);
    } else {
      name := a.project;
      StrandsIff(Run(front), a);
    }
  }

  /** Over whole runs: the cache agrees with the table if and only if no arrival stranded its project. */
  lemma {:induction false} CoherentOverRuns(arrivals: seq<Arrival>)
    ensures Coherent(Run(arrivals).db.projects, Run(arrivals).cache) <==> NeverStrands(arrivals)
    decreases |arrivals|
  {
    hide StrandsProject, Arrive, Coherent;
    if !NeverStrands(arrivals) {
      var name := IncoherentAfterStranding(arrivals);
      MissingIsIncoherent(Run(arrivals).db.projects, Run(arrivals).cache, name);
    } else if arrivals == [] {
      EmptyCacheIsCoherent();
    } else {
      CoherentOverRuns(arrivals[..|arrivals| - 1]);
      CoherentStepIff(Run(arrivals[..|arrivals| - 1]), arrivals[|arrivals| - 1]);
    }
  }

  lemma {:induction false} EmptyCacheIsCoherent()
    ensures Coherent([], map[])
  {}
}
