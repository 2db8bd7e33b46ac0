/** The project cache when batches are among the calls. */
module CallCoherence {
  import opened Prelude
  import opened Tables
  import opened Runs
  import opened CacheCoherence
  import opened Batches
  import opened Calls

  function AsArrivals(items: seq<Ingest>, faults: seq<ItemFault>): (a: seq<Arrival>)
    requires |items| == |faults|
    ensures |a| == |items|
  {
    seq(|items|, i requires 0 <= i < |items| => AsArrival(items[i], faults[i]))
  }

  /** The insert fails, its rollback is refused, and it has changed some row by then. */
  predicate Spills(s: State, item: Ingest, fault: ItemFault) {
    || SpillsRows(s, item, fault)
    || (fault.rollBack && !fault.save && CreatesProject(s, AsArrival(item, fault))
        && FailsLater(s, AsArrival(item, fault)))
  }

  /** An item that spills nothing is a single insert, and no other item that fails is. */
  lemma {:induction false} ItemIsArrivalIff(s: State, item: Ingest, fault: ItemFault)
    ensures var o, a := Savepointed(s.db, s.cache, item, fault), Arrive(s, AsArrival(item, fault));
            && o.cache == a.cache
            && (o.db == a.db <==> !Spills(s, item, fault))
            && (!fault.rollBack ==> o.db == a.db)
  {
    hide InsertedTx, FailsLater, CreatesProject, EnsuresProject, ChangesTraces, RefusesPropagation, SameRows;
    if !fault.save {
      var a := AsArrival(item, fault);
      ItemTx(s, item, fault);
      FailedTxRows(s, a);
      FailedTxProjects(s, a);
      CreatesParts(s, a);
      SameRowsItself(s.db);
    }
  }

  lemma {:induction false} SameRowsItself(db: Db)
    ensures SameRows(db, db)
  {}

  lemma {:induction false} CreatesParts(s: State, a: Arrival)
    ensures CreatesProject(s, a) ==> Serializable(a.span) && EnsuresProject(s, a)
  {}

  /** The projects in an open transaction: one more exactly if the insert creates one. */
  lemma {:induction false} FailedTxProjects(s: State, a: Arrival)
    requires a.fault != Some(Begin)
    ensures InsertedTx(s.db, s.cache, a.span, a.project, a.fault).db.projects ==
            if CreatesProject(s, a) then s.db.projects + [a.project] else s.db.projects
  {
    hide UpsertedTrace, Persisted;
  }

  /** A batch whose items spill nothing is, inside its transaction, the single inserts of its items. */
  lemma {:induction false} BatchIsRun(arrivals: seq<Arrival>, items: seq<Ingest>, faults: seq<ItemFault>, k: nat)
    requires k <= |items| == |faults|
    requires forall j | 0 <= j < k :: !Spills(BatchState(Run(arrivals), items, faults, j), items[j], faults[j])
    ensures BatchState(Run(arrivals), items, faults, k) == Run(arrivals + AsArrivals(items, faults)[..k])
    decreases k
  {
    hide Savepointed, Arrive, AsArrival, Spills;
    var all := AsArrivals(items, faults);
    if k == 0 {
      assert arrivals + all[..0] == arrivals;
    } else {
      BatchIsRun(arrivals, items, faults, k - 1);
      ItemIsArrivalIff(Run(arrivals + all[..k - 1]), items[k - 1], faults[k - 1]);
      assert (arrivals + all[..k])[..|arrivals| + k - 1] == arrivals + all[..k - 1];
    }
  }

  // ----- one item -----

  lemma {:induction false} TwoProjects(s: State, item: Ingest, fault: ItemFault)
    ensures var o, a := Savepointed(s.db, s.cache, item, fault), AsArrival(item, fault);
            && o.cache == Arrive(s, a).cache
            && o.db.projects ==
               if !fault.rollBack then Arrive(s, a).db.projects
               else if CreatesProject(s, a) then s.db.projects + [a.project] else s.db.projects
  {
    hide InsertedTx, CreatesProject;
    ItemIsArrivalIff(s, item, fault);
    if fault.rollBack {
      if fault.save {
        NoCreation(s, AsArrival(item, fault));
      } else {
        ItemTx(s, item, fault);
        FailedTxProjects(s, AsArrival(item, fault));
      }
    }
  }

  lemma {:induction false} NoCreation(s: State, a: Arrival)
    requires a.fault == Some(Begin)
    ensures !CreatesProject(s, a)
  {}

  /** From a coherent cache an item makes an incoherent one if and only if it strands its project by rolling back. */
  lemma {:induction false} ItemCoherentIff(s: State, item: Ingest, fault: ItemFault)
    requires Coherent(s.db.projects, s.cache)
    ensures var o := Savepointed(s.db, s.cache, item, fault);
            && (Coherent(o.db.projects, o.cache) <==> fault.rollBack || !StrandsProject(s, AsArrival(item, fault)))
            && (!Coherent(o.db.projects, o.cache) ==> Missing(State(o.db, o.cache)))
  {
    hide Savepointed, Arrive, CreatesProject, StrandsProject, AsArrival;
    var a := AsArrival(item, fault);
    TwoProjects(s, item, fault);
    if fault.rollBack {
      EntryOfInsert(s, a);
    } else {
      CoherentStepIff(s, a);
      StrandsIff(s, a);
    }
  }

  /** The entry an insert adds is right for the table with its project row kept. */
  lemma {:induction false} EntryOfInsert(s: State, a: Arrival)
    requires Coherent(s.db.projects, s.cache)
    ensures Coherent(if CreatesProject(s, a) then s.db.projects + [a.project] else s.db.projects, Arrive(s, a).cache)
  {
    hide UpsertedTrace, Persisted;
  }

  /** A cached name without a row stays one. */
  lemma {:induction false} MissingItem(s: State, item: Ingest, fault: ItemFault, name: string)
    requires name in s.cache && name !in s.db.projects
    ensures var o := Savepointed(s.db, s.cache, item, fault); name in o.cache && name !in o.db.projects
  {
    hide Savepointed, Arrive, AsArrival;
    var a := AsArrival(item, fault);
    TwoProjects(s, item, fault);
    MissingStep(s, a, name);
  }

  // ----- batches -----

  ghost predicate ItemStrands(s: State, items: seq<Ingest>, faults: seq<ItemFault>, k: nat)
    requires k < |items| == |faults|
  {
    !faults[k].rollBack && StrandsProject(BatchState(s, items, faults, k), AsArrival(items[k], faults[k]))
  }

  ghost predicate ItemCreates(s: State, items: seq<Ingest>, faults: seq<ItemFault>, k: nat)
    requires k < |items| == |faults|
  {
    CreatesProject(BatchState(s, items, faults, k), AsArrival(items[k], faults[k]))
  }

  /** The call creates a project and loses it, with the item or with the batch. */
  ghost predicate CallStrands(s: State, c: Call) {
    match c
    case One(a) => StrandsProject(s, a)
    case Many(items, faults, begin, commit) =>
      !begin && if commit then exists k :: 0 <= k < |items| && ItemCreates(s, items, faults, k)
                else exists k :: 0 <= k < |items| && ItemStrands(s, items, faults, k)
  }

  /** Some cached name has no row. */
  ghost predicate Missing(s: State) {
    exists name :: name in s.cache && name !in s.db.projects
  }

  lemma {:induction false} BatchStep(s: State, items: seq<Ingest>, faults: seq<ItemFault>, k: nat)
    requires k < |items| == |faults|
    ensures var b := BatchState(s, items, faults, k);
            var o := Savepointed(b.db, b.cache, items[k], faults[k]);
            BatchState(s, items, faults, k + 1) == State(o.db, o.cache)
  {
    hide Savepointed;
  }

  /** Inside a batch: coherent if and only if no item so far stranded its project. */
  lemma {:induction false} BatchCoherentIff(s: State, items: seq<Ingest>, faults: seq<ItemFault>, k: nat)
    requires k <= |items| == |faults| && Coherent(s.db.projects, s.cache)
    ensures var b := BatchState(s, items, faults, k);
            && (Coherent(b.db.projects, b.cache) <==> forall j | 0 <= j < k :: !ItemStrands(s, items, faults, j))
            && (!Coherent(b.db.projects, b.cache) ==> Missing(b))
    decreases k
  {
    hide Savepointed, AsArrival, BatchState, StrandsProject, Coherent;
    if k == 0 {
      NoItems(s, items, faults);
    } else {
      BatchCoherentIff(s, items, faults, k - 1);
      BatchStep(s, items, faults, k - 1);
      var b, item, fault := BatchState(s, items, faults, k - 1), items[k - 1], faults[k - 1];
      assert ItemStrands(s, items, faults, k - 1) <==> !fault.rollBack && StrandsProject(b, AsArrival(item, fault));
      if Coherent(b.db.projects, b.cache) {
        ItemCoherentIff(b, item, fault);
      } else {
        var name :| name in b.cache && name !in b.db.projects;
        MissingItem(b, item, fault, name);
        var o := Savepointed(b.db, b.cache, item, fault);
        MissingIsIncoherent(o.db.projects, o.cache, name);
      }
    }
  }

  lemma {:induction false} NoItems(s: State, items: seq<Ingest>, faults: seq<ItemFault>)
    requires |items| == |faults|
    ensures BatchState(s, items, faults, 0) == s
  {}

  /** A batch that is lost when it commits: coherent if and only if no item created a project. */
  lemma {:induction false} LostBatchCoherentIff(s: State, items: seq<Ingest>, faults: seq<ItemFault>, k: nat)
    requires k <= |items| == |faults| && Coherent(s.db.projects, s.cache)
    ensures var b := BatchState(s, items, faults, k);
            && s.db.projects <= b.db.projects
            && (Coherent(s.db.projects, b.cache) <==> forall j | 0 <= j < k :: !ItemCreates(s, items, faults, j))
            && (Coherent(s.db.projects, b.cache) ==> b.db.projects == s.db.projects)
            && (!Coherent(s.db.projects, b.cache) ==> Missing(State(s.db, b.cache)))
    decreases k
  {
    hide Savepointed, AsArrival, BatchState, CreatesProject, Coherent;
    if k == 0 {
      NoItems(s, items, faults);
    } else {
      LostBatchCoherentIff(s, items, faults, k - 1);
      BatchStep(s, items, faults, k - 1);
      var b, item, fault := BatchState(s, items, faults, k - 1), items[k - 1], faults[k - 1];
      assert ItemCreates(s, items, faults, k - 1) <==> CreatesProject(b, AsArrival(item, fault));
      LostStep(s, b, item, fault);
    }
  }

  lemma {:induction false} LostStep(s: State, b: State, item: Ingest, fault: ItemFault)
    requires s.db.projects <= b.db.projects
    requires Coherent(s.db.projects, b.cache) ==> b.db.projects == s.db.projects
    requires !Coherent(s.db.projects, b.cache) ==> Missing(State(s.db, b.cache))
    ensures var o := Savepointed(b.db, b.cache, item, fault);
            && s.db.projects <= o.db.projects
            && (Coherent(s.db.projects, o.cache) <==>
                  Coherent(s.db.projects, b.cache) && !CreatesProject(b, AsArrival(item, fault)))
            && (Coherent(s.db.projects, o.cache) ==> o.db.projects == s.db.projects)
            && (!Coherent(s.db.projects, o.cache) ==> Missing(State(s.db, o.cache)))
  {
    hide Savepointed, Arrive, CreatesProject, Coherent, AsArrival;
    var o, a := Savepointed(b.db, b.cache, item, fault), AsArrival(item, fault);
    TwoProjects(b, item, fault);
    ProjectsGrow(b, a);
    CacheGrows(b, a);
    CreationStep(b, a);
    if !Coherent(s.db.projects, b.cache) {
      var name :| name in b.cache && name !in s.db.projects;
      assert name in o.cache;
      MissingIsIncoherent(s.db.projects, o.cache, name);
    } else if CreatesProject(b, a) {
      CreatesNew(b, a);
      assert a.project in o.cache && a.project !in s.db.projects;
      MissingIsIncoherent(s.db.projects, o.cache, a.project);
    } else {
      EntryOfInsert(b, a);
    }
  }

  lemma {:induction false} CreationStep(s: State, a: Arrival)
    ensures !CreatesProject(s, a) ==> Arrive(s, a).db.projects == s.db.projects
    ensures CreatesProject(s, a) ==> a.project in Arrive(s, a).cache
  {
    hide UpsertedTrace, Persisted;
  }

  lemma {:induction false} CreatesNew(s: State, a: Arrival)
    requires CreatesProject(s, a)
    ensures a.project !in s.db.projects
  {}

  lemma {:induction false} MissingItems(s: State, items: seq<Ingest>, faults: seq<ItemFault>, k: nat, name: string)
    requires k <= |items| == |faults| && name in s.cache && name !in s.db.projects
    ensures name in BatchState(s, items, faults, k).cache && name !in BatchState(s, items, faults, k).db.projects
    decreases k
  {
    hide Savepointed, BatchState;
    if k == 0 {
      NoItems(s, items, faults);
    } else {
      MissingItems(s, items, faults, k - 1, name);
      BatchStep(s, items, faults, k - 1);
      MissingItem(BatchState(s, items, faults, k - 1), items[k - 1], faults[k - 1], name);
    }
  }

  // ----- whole runs -----

  lemma {:induction false} MissingStays(s: State, c: Call)
    requires Missing(s)
    ensures Missing(Called(s, c))
  {
    hide Arrive, Batched;
    var name :| name in s.cache && name !in s.db.projects;
    match c {
      case One(a) =>
        MissingStep(s, a, name);
      case Many(items, faults, begin, commit) =>
        MissingItems(s, items, faults, |items|, name);
    }
  }

  /** Whatever the call: from a coherent cache it makes an incoherent one if and only if it strands a project. */
  lemma {:induction false} CoherentCallIff(s: State, c: Call)
    requires Coherent(s.db.projects, s.cache)
    ensures Coherent(Called(s, c).db.projects, Called(s, c).cache) <==> !CallStrands(s, c)
    ensures CallStrands(s, c) ==> Missing(Called(s, c))
  {
    hide Arrive, AsArrival, StrandsProject, CreatesProject, FailsLater, Coherent, Batched;
    match c {
      case One(a) =>
        CoherentStepIff(s, a);
        StrandsIff(s, a);
      case Many(items, faults, begin, commit) =>
        if !begin {
          BatchCoherentIff(s, items, faults, |items|);
          LostBatchCoherentIff(s, items, faults, |items|);
        }
    }
  }

  ghost predicate NoCallStrands(calls: seq<Call>) {
    calls != [] ==>
      NoCallStrands(calls[..|calls| - 1]) && !CallStrands(CallRun(calls[..|calls| - 1]), calls[|calls| - 1])
  }

  /** Over runs of single inserts and batches: coherent if and only if no call stranded a project. */
  lemma {:induction false} CoherentOverCalls(calls: seq<Call>)
    ensures Coherent(CallRun(calls).db.projects, CallRun(calls).cache) <==> NoCallStrands(calls)
    ensures !NoCallStrands(calls) ==> Missing(CallRun(calls))
    decreases |calls|
  {
    hide Called, CallStrands, Coherent, Missing;
    if calls == [] {
      EmptyCacheIsCoherent();
    } else {
      var front, c := calls[..|calls| - 1], calls[|calls| - 1];
      CoherentOverCalls(front);
      var s := CallRun(front);
      if NoCallStrands(front) {
        CoherentCallIff(s, c);
      } else {
        MissingStays(s, c);
        MissingNotCoherent(Called(s, c));
      }
    }
  }

  lemma {:induction false} MissingNotCoherent(s: State)
    requires Missing(s)
    ensures !Coherent(s.db.projects, s.cache)
  {}
}
