/** Which project a trace row refers to, while the project cache is coherent and after it is not. */
module References {
  import opened Prelude
  import opened Tables
  import opened Runs
  import opened CacheCoherence

  /** The first committed arrival of a trace. */
  ghost function FirstFor(arrivals: seq<Arrival>, traceId: string): Option<Arrival> {
    if arrivals == [] then None
    else
      var front, a := arrivals[..|arrivals| - 1], arrivals[|arrivals| - 1];
      var first := FirstFor(front, traceId);
      if first.None? && Arrive(Run(front), a).error.None? && a.span.traceId == traceId then Some(a) else first
  }

  lemma {:induction false} FirstIsCommitted(arrivals: seq<Arrival>, traceId: string)
    requires FirstFor(arrivals, traceId).Some?
    ensures FirstFor(arrivals, traceId).value in Committed(arrivals)
    ensures FirstFor(arrivals, traceId).value.span.traceId == traceId
    decreases |arrivals|
  {
    hide Inserted, Run;
    var front := arrivals[..|arrivals| - 1];
    if FirstFor(front, traceId).Some? {
      FirstIsCommitted(front, traceId);
    }
  }

  lemma {:induction false} FirstHasRow(arrivals: seq<Arrival>, traceId: string)
    requires FirstFor(arrivals, traceId).Some?
    ensures FindTrace(Run(arrivals).db.traces, traceId).Some?
  {
    hide Run, Committed, CoversTimes, FirstFor;
    FirstIsCommitted(arrivals, traceId);
    CommittedAreCovered(arrivals, FirstFor(arrivals, traceId).value);
    var t :| 0 <= t < |Run(arrivals).db.traces|
             && CoversTimes(Run(arrivals).db.traces[t], FirstFor(arrivals, traceId).value.span);
    CoversSameTrace(Run(arrivals).db.traces[t], FirstFor(arrivals, traceId).value.span);
  }

  /** An upsert leaves project and session of a row; a new row has the project's id and the span's session. */
  lemma {:induction false} UpsertedOwner(traces: seq<TraceRow>, span: Span, project: nat, fault: Fault, t: nat)
    requires t < |UpsertedTrace(traces, span, project, fault).0|
    ensures var row := UpsertedTrace(traces, span, project, fault).0[t];
            && (t < |traces| ==> row.project == traces[t].project && row.session == traces[t].session
                                 && row.traceId == traces[t].traceId)
            && (t >= |traces| ==> row.project == project && row.session == NullString(span.sessionId)
                                  && row.traceId == span.traceId && FindTrace(traces, span.traceId) == None)
  {
    hide StartOf, EndOf;
  }

  /** On any run, a trace keeps the session of its first committed arrival. */
  lemma {:induction false} SessionIsFirst(arrivals: seq<Arrival>, t: nat)
    requires t < |Run(arrivals).db.traces|
    ensures var row := Run(arrivals).db.traces[t];
            && FirstFor(arrivals, row.traceId).Some?
            && row.session == NullString(FirstFor(arrivals, row.traceId).value.span.sessionId)
    decreases |arrivals|
  {
    hide Inserted, EnsuredProject, UpsertedTrace, Persisted;
    var front, a := arrivals[..|arrivals| - 1], arrivals[|arrivals| - 1];
    var s := Run(front);
    if Arrive(s, a).error.Some? {
      FailureKeepsTables(s, a);
      SessionIsFirst(front, t);
    } else {
      var project, _ := CommittedParts(s, a);
      UpsertedOwner(s.db.traces, a.span, project, a.fault, t);
      if t < |s.db.traces| {
        SessionIsFirst(front, t);
      } else if FirstFor(front, a.span.traceId).Some? {
        FirstHasRow(front, a.span.traceId);
      }
    }
  }

  /** While no project is stranded, a trace refers to the project of its first committed arrival. */
  lemma {:induction false} ProjectIsFirst(arrivals: seq<Arrival>, t: nat)
    requires NeverStrands(arrivals) && t < |Run(arrivals).db.traces|
    ensures var row, projects := Run(arrivals).db.traces[t], Run(arrivals).db.projects;
            && FirstFor(arrivals, row.traceId).Some? && 1 <= row.project <= |projects|
            && projects[row.project - 1] == FirstFor(arrivals, row.traceId).value.project
    decreases |arrivals|
  {
    hide Inserted, EnsuredProject, UpsertedTrace, Persisted, StrandsProject, Coherent;
    var front, a := arrivals[..|arrivals| - 1], arrivals[|arrivals| - 1];
    var s := Run(front);
    if Arrive(s, a).error.Some? {
      FailureKeepsTables(s, a);
      ProjectIsFirst(front, t);
    } else {
      var project, _ := CommittedParts(s, a);
      UpsertedOwner(s.db.traces, a.span, project, a.fault, t);
      ProjectsGrow(s, a);
      if t < |s.db.traces| {
        ProjectIsFirst(front, t);
      } else {
        if FirstFor(front, a.span.traceId).Some? { FirstHasRow(front, a.span.traceId); }
        CoherentOverRuns(front);
        EnsuredIsNamed(s.db.projects, s.cache, a.project, a.fault);
      }
    }
  }

  lemma {:induction false} EnsuredIsNamed(projects: seq<string>, cache: Cache, name: string, fault: Fault)
    requires Coherent(projects, cache) && EnsuredProject(projects, cache, name, fault).2.Ok?
    ensures var (after, _, id) := EnsuredProject(projects, cache, name, fault);
            1 <= id.value <= |after| && after[id.value - 1] == name
  {}

  /** A new trace goes to the cached id of its project, whatever that id names. */
  lemma {:induction false} NewTraceFollowsCache(s: State, a: Arrival)
    requires a.project in s.cache && FindTrace(s.db.traces, a.span.traceId) == None && Arrive(s, a).error.None?
    ensures var o := Arrive(s, a);
            && o.db.projects == s.db.projects && |o.db.traces| == |s.db.traces| + 1
            && o.db.traces[|s.db.traces|].traceId == a.span.traceId
            && o.db.traces[|s.db.traces|].project == s.cache[a.project]
  {
    hide Inserted, UpsertedTrace, Persisted;
    var project, trace := CommittedParts(s, a);
    NewTraceRow(s.db.traces, a.span, project, a.fault);
  }

  lemma {:induction false} NewTraceRow(traces: seq<TraceRow>, span: Span, project: nat, fault: Fault)
    requires FindTrace(traces, span.traceId) == None && UpsertedTrace(traces, span, project, fault).1.Ok?
    ensures UpsertedTrace(traces, span, project, fault).0 == traces + [NewTrace(span, project)]
  {}

  /** After a stranding, and until a project is created, a new trace of that project refers to no row. */
  lemma {:induction false} StrandedTraceDangles(before: seq<Arrival>, a: Arrival, later: seq<Arrival>, b: Arrival)
    requires StrandsProject(Run(before), a) && b.project == a.project
    requires var s := Run(before + [a] + later);
             && |s.db.projects| == |Run(before).db.projects|
             && FindTrace(s.db.traces, b.span.traceId) == None && Arrive(s, b).error.None?
    ensures var o := Arrive(Run(before + [a] + later), b);
            o.db.traces != [] && var row := o.db.traces[|o.db.traces| - 1];
            row.traceId == b.span.traceId && row.project == |o.db.projects| + 1
  {
    hide Run, Arrive, StrandsProject;
    StrandedIdWaits(before, a, later);
    NewTraceFollowsCache(Run(before + [a] + later), b);
  }

  /** Once the rowid has been given out again, a new trace of that project is filed under the other one. */
  lemma {:induction false} StrandedTraceIsMisfiled(
    before: seq<Arrival>, a: Arrival, later: seq<Arrival>, c: Arrival, rest: seq<Arrival>, b: Arrival)
    requires StrandsProject(Run(before), a) && b.project == a.project
    requires var s := Run(before + [a] + later);
             |s.db.projects| == |Run(before).db.projects| && CreatesProject(s, c) && !FailsLater(s, c)
    requires var s := Run(before + [a] + later + [c] + rest);
             FindTrace(s.db.traces, b.span.traceId) == None && Arrive(s, b).error.None?
    ensures var o := Arrive(Run(before + [a] + later + [c] + rest), b);
            o.db.traces != [] && var row := o.db.traces[|o.db.traces| - 1];
            && row.traceId == b.span.traceId && 1 <= row.project <= |o.db.projects|
            && o.db.projects[row.project - 1] == c.project != b.project
  {
    hide Arrive, StrandsProject, CreatesProject, FailsLater;
    var x := before + [a] + later;
    StrandedIdWaits(before, a, later);
    CacheGrows(Run(x), c);
    StrandedIdIsReused(before, a, later, c);
    assert (x + [c])[..|x|] == x;
    EntriesStay(x + [c], rest);
    NewTraceFollowsCache(Run(x + [c] + rest), b);
  }
}
