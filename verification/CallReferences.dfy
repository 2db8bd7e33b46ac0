/** Which project a trace row refers to when batches are among the calls. */
module CallReferences {
  import opened Prelude
  import opened Tables
  import opened Runs
  import opened CacheCoherence
  import opened References
  import opened Calls
  import opened CallCoherence

  /** The first of the stored arrivals that belongs to a trace. */
  function FirstIn(kept: seq<Arrival>, traceId: string): Option<Arrival> {
    if kept == [] then None
    else
      var first := FirstIn(kept[..|kept| - 1], traceId);
      var last := kept[|kept| - 1];
      if first.None? && last.span.traceId == traceId then Some(last) else first
  }

  lemma {:induction false} FirstInMore(kept: seq<Arrival>, a: Arrival, traceId: string)
    ensures FirstIn(kept + [a], traceId) ==
            if FirstIn(kept, traceId).None? && a.span.traceId == traceId then Some(a) else FirstIn(kept, traceId)
  {
    assert (kept + [a])[..|kept|] == kept;
  }

  lemma {:induction false} FirstInIs(kept: seq<Arrival>, traceId: string)
    ensures FirstIn(kept, traceId).Some? ==> FirstIn(kept, traceId).value in kept
    ensures FirstIn(kept, traceId).Some? ==> FirstIn(kept, traceId).value.span.traceId == traceId
    decreases |kept|
  {
    if kept != [] { FirstInIs(kept[..|kept| - 1], traceId); }
  }

  predicate RefersTo(projects: seq<string>, row: TraceRow, first: Option<Arrival>) {
    first.Some? && 1 <= row.project <= |projects| && projects[row.project - 1] == first.value.project
  }

  /** Every trace row refers to the project of its first stored arrival, and every stored arrival has its trace row. */
  predicate Owned(db: Db, kept: seq<Arrival>) {
    && (forall t | 0 <= t < |db.traces| :: RefersTo(db.projects, db.traces[t], FirstIn(kept, db.traces[t].traceId)))
    && (forall a | a in kept :: FindTrace(db.traces, a.span.traceId).Some?)
  }

  lemma {:induction false} OwnedGrows(db: Db, kept: seq<Arrival>, projects: seq<string>)
    requires Owned(db, kept) && db.projects <= projects
    ensures Owned(db.(projects := projects), kept)
  {
    hide FirstIn, FindTrace;
  }

  lemma {:induction false} FoundStays(traces: seq<TraceRow>, span: Span, project: nat, fault: Fault, traceId: string)
    requires UpsertedTrace(traces, span, project, fault).1.Ok?
    ensures var after := UpsertedTrace(traces, span, project, fault).0;
            && (FindTrace(traces, traceId).Some? ==> FindTrace(after, traceId).Some?)
            && FindTrace(after, span.traceId).Some?
  {
    hide StartOf, EndOf;
    var after := UpsertedTrace(traces, span, project, fault).0;
    if FindTrace(traces, traceId).Some? {
      var i := FindTrace(traces, traceId).value - 1;
      assert after[i].traceId == traceId;
    }
    match FindTrace(traces, span.traceId) {
      case Some(id) => assert after[id - 1].traceId == span.traceId;
      case None => assert after[|traces|].traceId == span.traceId;
    }
  }

  /** An insert that gets through keeps the references right, on a coherent cache. */
  lemma {:induction false} OwnedStep(s: State, kept: seq<Arrival>, item: Ingest, fault: Fault)
    requires Owned(s.db, kept) && Coherent(s.db.projects, s.cache) && GetsThrough(s, item, fault)
    ensures Owned(InsertedTx(s.db, s.cache, item.span, item.project, fault).db,
                  kept + [Arrival(item.span, item.project, None)])
  {
    hide EnsuredProject, UpsertedTrace, Persisted, Coherent, FirstIn, FindTrace;
    var (projects, _, id) := EnsuredProject(s.db.projects, s.cache, item.project, fault);
    var (traces, trace) := UpsertedTrace(s.db.traces, item.span, id.value, fault);
    EnsuredIsNamed(s.db.projects, s.cache, item.project, fault);
    EnsuredGrows(s.db.projects, s.cache, item.project, fault);
    var a := Arrival(item.span, item.project, None);
    forall t: nat | t < |traces|
      ensures RefersTo(projects, traces[t], FirstIn(kept + [a], traces[t].traceId))
    {
      UpsertedOwner(s.db.traces, item.span, id.value, fault, t);
      FirstInMore(kept, a, traces[t].traceId);
      FirstInIs(kept, traces[t].traceId);
    }
    forall b | b in kept + [a]
      ensures FindTrace(traces, b.span.traceId).Some?
    {
      FoundStays(s.db.traces, item.span, id.value, fault, b.span.traceId);
    }
  }

  lemma {:induction false} EnsuredGrows(projects: seq<string>, cache: Cache, name: string, fault: Fault)
    ensures projects <= EnsuredProject(projects, cache, name, fault).0
  {}

  lemma {:induction false} OwnedItem(s: State, kept: seq<Arrival>, item: Ingest, fault: ItemFault)
    requires Owned(s.db, kept) && Coherent(s.db.projects, s.cache) && !SpillsRows(s, item, fault)
    ensures var more := if !fault.save && GetsThrough(s, item, fault.insert)
                        then [Arrival(item.span, item.project, None)] else [];
            Owned(Savepointed(s.db, s.cache, item, fault).db, kept + more)
  {
    hide InsertedTx, Owned, Coherent, EnsuresProject, ChangesTraces, FailsLater, SameRows;
    if !fault.save && GetsThrough(s, item, fault.insert) {
      OwnedStep(s, kept, item, fault.insert);
    } else {
      assert kept + [] == kept;
      if !fault.save && fault.rollBack {
        ItemTx(s, item, fault);
        FailedTxRows(s, AsArrival(item, fault));
        FailedTxProjects(s, AsArrival(item, fault));
        OwnedGrows(s.db, kept, InsertedTx(s.db, s.cache, item.span, item.project, fault.insert).db.projects);
      }
    }
  }

  lemma {:induction false} OwnedItems(
    s: State, kept: seq<Arrival>, items: seq<Ingest>, faults: seq<ItemFault>, k: nat)
    requires k <= |items| == |faults| && Owned(s.db, kept) && Coherent(s.db.projects, s.cache)
    requires NoneSpills(s, items, faults, k) && forall j | 0 <= j < k :: !ItemStrands(s, items, faults, j)
    ensures Owned(BatchState(s, items, faults, k).db, kept + KeptItems(s, items, faults, k))
    decreases k
  {
    hide Savepointed, Owned, Coherent, ItemStrands, SpillsRows, InsertedTx;
    if k == 0 {
      assert kept + [] == kept;
    } else {
      OwnedItems(s, kept, items, faults, k - 1);
      BatchCoherentIff(s, items, faults, k - 1);
      var now, all := BatchState(s, items, faults, k - 1), kept + KeptItems(s, items, faults, k - 1);
      OwnedItem(now, all, items[k - 1], faults[k - 1]);
      var a := Arrival(items[k - 1].span, items[k - 1].project, None);
      assert all + [a] == kept + (KeptItems(s, items, faults, k - 1) + [a]);
      assert all + [] == kept + KeptItems(s, items, faults, k - 1);
    }
  }

  lemma {:induction false} OwnedCall(s: State, kept: seq<Arrival>, c: Call)
    requires Owned(s.db, kept) && Coherent(s.db.projects, s.cache) && !CallStrands(s, c) && Restores(s, c)
    ensures Owned(Called(s, c).db, kept + Kept(s, c))
  {
    hide InsertedTx, Owned, Coherent, Batched, KeptItems, NoneSpills, ItemStrands, ItemCreates, StrandsProject;
    assert kept + [] == kept;
    match c {
      case One(a) =>
        if Arrive(s, a).error.None? {
          OwnedStep(s, kept, Ingest(a.span, a.project), a.fault);
        }
      case Many(items, faults, begin, commit) =>
        if !begin && !commit {
          OwnedItems(s, kept, items, faults, |items|);
        }
    }
  }

  /**
   After any calls that neither strand a project nor spill rows, lost batches included, every trace
   refers to the project of the first of its spans that was stored.
   */
  lemma {:induction false} ProjectIsFirstStored(calls: seq<Call>, t: nat)
    requires NoCallStrands(calls) && AllRestore(calls) && t < |CallRun(calls).db.traces|
    ensures var row := CallRun(calls).db.traces[t];
            RefersTo(CallRun(calls).db.projects, row, FirstIn(KeptBy(calls), row.traceId))
  {
    hide CallRun, KeptBy, NoCallStrands, AllRestore, RefersTo, FirstIn;
    CallsOwned(calls);
  }

  lemma {:induction false} CallsOwned(calls: seq<Call>)
    requires NoCallStrands(calls) && AllRestore(calls)
    ensures Owned(CallRun(calls).db, KeptBy(calls))
    decreases |calls|
  {
    hide Called, Kept, CallStrands, Restores, Coherent, Owned;
    if calls == [] {
      NothingOwned();
    } else {
      var front := calls[..|calls| - 1];
      CallsOwned(front);
      CoherentOverCalls(front);
      OwnedCall(CallRun(front), KeptBy(front), calls[|calls| - 1]);
    }
  }

  lemma {:induction false} NothingOwned()
    ensures Owned(EMPTY, [])
  {}
}
