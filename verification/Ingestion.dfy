/** The batcher's writer on top of the store: what reaches the tables, however requests interleave. */
module Ingestion {
  import opened Prelude
  import opened Forest
  import opened Tables
  import opened Runs
  import opened Orders
  import opened Store
  import B = Batcher

  function Arrivals(items: seq<Ingest>, faults: seq<Fault>): (a: seq<Arrival>)
    requires |items| == |faults|
    ensures |a| == |items|
  {
    seq(|items|, i requires 0 <= i < |items| => Arrival(items[i].span, items[i].project, faults[i]))
  }

  // ----- the writer goroutine -----

  /** What a pass of the select loop sees: a span from the channel, or the timer. */
  datatype Select = Received(item: Ingest) | Ticked

  function Items(schedule: seq<Select>): seq<Ingest> {
    if schedule == [] then []
    else
      var last := schedule[|schedule| - 1];
      var rest := Items(schedule[..|schedule| - 1]);
      if last.Received? then rest + [last.item] else rest
  }

  /** How many of the spans received have been handed on after these passes: all, or up to the last flush. */
  function Flushed(schedule: seq<Select>): (n: nat)
    ensures n <= |Items(schedule)| < n + B.FLUSH_SIZE
    ensures schedule != [] && schedule[|schedule| - 1].Ticked? ==> n == |Items(schedule)|
  {
    if schedule == [] then 0
    else
      var before, all := Flushed(schedule[..|schedule| - 1]), |Items(schedule)|;
      if schedule[|schedule| - 1].Ticked? || all - before >= B.FLUSH_SIZE then all else before
  }

  lemma {:induction false} ReturnsPrefix(a: seq<Arrival>, k: nat)
    requires Returns(a) && k <= |a|
    ensures Returns(a[..k])
    decreases |a|
  {
    hide Run, WalkEnds;
    if k < |a| {
      ReturnsPrefix(a[..|a| - 1], k);
      assert a[..|a| - 1][..k] == a[..k];
    } else {
      assert a[..k] == a;
    }
  }

  lemma {:induction false} RunStep(a: seq<Arrival>, k: nat)
    requires Returns(a) && k < |a|
    ensures WalkEnds(Run(a[..k]).db, Run(a[..k]).cache, a[k].span, a[k].project, a[k].fault)
    ensures Run(a[..k + 1]) == State(Arrive(Run(a[..k]), a[k]).db, Arrive(Run(a[..k]), a[k]).cache)
    ensures Keyed(Run(a[..k]).db.traces, Run(a[..k]).db.spans)
  {
    hide WalkEnds, Arrive, WellFormedSpans, DistinctTraces;
    ReturnsPrefix(a, k + 1);
    ReturnsPrefix(a, k);
    assert a[..k + 1][..k] == a[..k] && a[..k + 1][k] == a[k];
    RunIsSound(a[..k]);
  }

  class BatchWriter {
    const store: Store
    /** The batch slice: its backing array is reused, only the length is reset. */
    const batch: array<Ingest>
    var n: nat

    constructor (store: Store, filler: Ingest)
      ensures this.store == store && n == 0 && batch.Length == B.FLUSH_SIZE && fresh(batch)
    {
      this.store := store;
      batch := new Ingest[B.FLUSH_SIZE](i => filler);
      n := 0;
    }

    /** flush: each span of the batch goes to InsertSpan; one that fails is skipped. */
    method Flush(ghost all: seq<Arrival>, faults: seq<Fault>, from: nat)
      requires n <= batch.Length && from + n <= |all| == |faults| && Returns(all)
      requires forall k | 0 <= k < n :: all[from + k] == Arrival(batch[k].span, batch[k].project, faults[from + k])
      requires store.saves == [] && State(store.Contents(), store.cache) == Run(all[..from])
      modifies store
      ensures store.saves == [] && State(store.Contents(), store.cache) == Run(all[..from + n])
    {
      hide Returns, Run, WalkEnds, Inserted, Keyed;
      for i := 0 to n
        invariant store.saves == [] && State(store.Contents(), store.cache) == Run(all[..from + i])
      {
        RunStep(all, from + i);
        assert all[from + i] == Arrival(batch[i].span, batch[i].project, faults[from + i]);
        var error := store.InsertSpan(batch[i].span, batch[i].project, faults[from + i]);
        assert all[..from + i + 1] == all[..from + (i + 1)];
      }
    }

    /**
     loop: collects spans, flushes on size and on the timer, and flushes the rest when the channel is
     closed. The tables end as if every received span had gone to InsertSpan one after the other, and
     after each pass, history tells, they hold what has been flushed by then.
     */
    method Loop(schedule: seq<Select>, faults: seq<Fault>) returns (ghost history: seq<State>)
      requires n == 0 && batch.Length == B.FLUSH_SIZE && |Items(schedule)| == |faults|
      requires store.saves == [] && State(store.Contents(), store.cache) == Run([])
      requires Returns(Arrivals(Items(schedule), faults))
      modifies this, batch, store
      ensures State(store.Contents(), store.cache) == Run(Arrivals(Items(schedule), faults))
      ensures |history| == |schedule| && Tells(schedule, faults, history)
    {
      hide Returns, Run, Items, Flushed, Tells;
      ghost var all := Arrivals(Items(schedule), faults);
      history := [];
      NoItems(schedule);
      TellsNothing(schedule, faults);
      var flushed: nat := 0;
      assert all[..0] == [];
      for i := 0 to |schedule|
        invariant n < B.FLUSH_SIZE && flushed + n == |Items(schedule[..i])|
        invariant flushed == Flushed(schedule[..i]) && |history| == i
        invariant Tells(schedule, faults, history)
        invariant Items(schedule[..i]) <= Items(schedule)
        invariant forall k | 0 <= k < n :: batch[k] == Items(schedule)[flushed + k]
        invariant store.saves == [] && State(store.Contents(), store.cache) == Run(all[..flushed])
      {
        ItemsStep(schedule, i);
        FlushedStep(schedule, i);
        match schedule[i] {
          case Received(item) =>
            batch[n] := item;
            n := n + 1;
            if n >= B.FLUSH_SIZE {
              Flush(all, faults, flushed);
              flushed := flushed + n;
              n := 0;
            }
          case Ticked =>
            if n > 0 {
              Flush(all, faults, flushed);
              flushed := flushed + n;
              n := 0;
            }
        }
        TellsMore(schedule, faults, history, State(store.Contents(), store.cache));
        history := history + [State(store.Contents(), store.cache)];
      }
      assert schedule[..|schedule|] == schedule;
      if n > 0 {
        Flush(all, faults, flushed);
      }
      assert all[..|all|] == all;
    }
  }

  /** A state of the store after pass i: it holds what the passes up to then have flushed. */
  ghost predicate FlushedBy(schedule: seq<Select>, faults: seq<Fault>, i: nat, s: State)
    requires i < |schedule| && |Items(schedule)| == |faults|
  {
    var n := Flushed(schedule[..i + 1]);
    n <= |faults| && s == Run(Arrivals(Items(schedule), faults)[..n])
  }

  /** The states of the store after the first passes. */
  ghost predicate Tells(schedule: seq<Select>, faults: seq<Fault>, history: seq<State>)
    requires |Items(schedule)| == |faults|
  {
    |history| <= |schedule| && forall i | 0 <= i < |history| :: FlushedBy(schedule, faults, i, history[i])
  }

  lemma {:induction false} TellsNothing(schedule: seq<Select>, faults: seq<Fault>)
    requires |Items(schedule)| == |faults|
    ensures Tells(schedule, faults, [])
  {}

  lemma {:induction false} TellsMore(schedule: seq<Select>, faults: seq<Fault>, history: seq<State>, s: State)
    requires |Items(schedule)| == |faults| && Tells(schedule, faults, history) && |history| < |schedule|
    requires FlushedBy(schedule, faults, |history|, s)
    ensures Tells(schedule, faults, history + [s])
  {
    hide Items, FlushedBy;
  }

  lemma {:induction false} FlushedStep(schedule: seq<Select>, i: nat)
    requires i < |schedule|
    ensures Flushed(schedule[..i + 1]) ==
            if schedule[i].Ticked? || |Items(schedule[..i + 1])| - Flushed(schedule[..i]) >= B.FLUSH_SIZE
              then |Items(schedule[..i + 1])| else Flushed(schedule[..i])
  {
    assert schedule[..i + 1][..i] == schedule[..i];
  }

  lemma {:induction false} NoItems(schedule: seq<Select>)
    ensures Items(schedule[..0]) == [] && Flushed(schedule[..0]) == 0
  {}

  lemma {:induction false} ItemsStep(schedule: seq<Select>, i: nat)
    requires i < |schedule|
    ensures Items(schedule[..i + 1]) ==
            if schedule[i].Received? then Items(schedule[..i]) + [schedule[i].item] else Items(schedule[..i])
    ensures Items(schedule[..i + 1]) <= Items(schedule)
    decreases |schedule| - i
  {
    assert schedule[..i + 1][..i] == schedule[..i];
    if i + 1 < |schedule| {
      ItemsStep(schedule, i + 1);
    } else {
      assert schedule[..i + 1] == schedule;
    }
  }

  // ----- the whole pipeline -----

  ghost function AllSpans(requests: seq<seq<Ingest>>): set<Span> {
    set r, i | 0 <= r < |requests| && 0 <= i < |requests[r]| :: requests[r][i].span
  }

  function Handed(xs: seq<B.Sent>): seq<Ingest> {
    seq(|xs|, i requires 0 <= i < |xs| => xs[i].item)
  }

  /** Every request has sent all its spans and Close has returned. */
  ghost predicate Finished(requests: seq<seq<Ingest>>, steps: seq<B.Step>) {
    && B.Behave(requests, steps).Some?
    && B.Behave(requests, steps).value.writer.Exited?
    && forall r | 0 <= r < |requests| :: B.Behave(requests, steps).value.next[r] == |requests[r]|
  }

  lemma {:induction false} OfMembers(xs: seq<B.Sent>, r: nat, item: Ingest)
    ensures item in B.Of(xs, r) <==> B.Sent(r, item) in xs
    decreases |xs|
  {
    if xs != [] {
      OfMembers(xs[..|xs| - 1], r, item);
      assert xs == xs[..|xs| - 1] + [xs[|xs| - 1]];
    }
  }

  lemma {:induction false} AllAreHanded(requests: seq<seq<Ingest>>, steps: seq<B.Step>)
    requires Finished(requests, steps)
    ensures var h := Handed(B.Behave(requests, steps).value.handed);
            (set i | 0 <= i < |h| :: h[i].span) == AllSpans(requests)
  {
    hide B.Behave, B.Of;
    var s := B.Behave(requests, steps).value;
    var h := Handed(s.handed);
    B.ConservedAlways(requests, steps);
    forall r | 0 <= r < |requests|
      ensures s.handed == s.sent && B.Of(s.handed, r) == requests[r]
    {
      B.ClosedLosesNothing(requests, steps, r);
      assert requests[r][..|requests[r]|] == requests[r];
    }
    forall x | x in AllSpans(requests)
      ensures x in (set i | 0 <= i < |h| :: h[i].span)
    {
      var r, i :| 0 <= r < |requests| && 0 <= i < |requests[r]| && requests[r][i].span == x;
      OfMembers(s.handed, r, requests[r][i]);
      var k :| 0 <= k < |s.handed| && s.handed[k] == B.Sent(r, requests[r][i]);
      assert h[k].span == x;
    }
    forall k | 0 <= k < |h|
      ensures h[k].span in AllSpans(requests)
    {
      assert s.handed + [] + [] == s.handed;
      var r := s.handed[k].request;
      assert s.sent[k].request < |requests|;
      OfMembers(s.handed, r, h[k]);
      var i :| 0 <= i < |requests[r]| && requests[r][i] == h[k];
    }
  }

  function NoFaults(n: nat): seq<Fault> {
    seq(n, i => None)
  }

  /** What the writer's select loop saw in a behaviour. */
  function ScheduleOf(requests: seq<seq<Ingest>>, steps: seq<B.Step>): seq<Select> {
    if steps == [] then []
    else
      var front, step := steps[..|steps| - 1], steps[|steps| - 1];
      var before := B.Behave(requests, front);
      var rest := ScheduleOf(requests, front);
      if step.Receive? && before.Some? && before.value.ch != [] then rest + [Received(before.value.ch[0].item)]
      else if step.Tick? then rest + [Ticked]
      else rest
  }

  lemma {:induction false} ItemsOfMore(schedule: seq<Select>, sel: Select)
    ensures Items(schedule + [sel]) == if sel.Received? then Items(schedule) + [sel.item] else Items(schedule)
  {
    assert (schedule + [sel])[..|schedule|] == schedule;
  }

  lemma {:induction false} HandedOfMore(xs: seq<B.Sent>, x: B.Sent)
    ensures Handed(xs + [x]) == Handed(xs) + [x.item]
  {}

  /** What the loop received is what has been handed on, and then the rest of the batch. */
  lemma {:induction false} ScheduleItems(requests: seq<seq<Ingest>>, steps: seq<B.Step>)
    requires B.Behave(requests, steps).Some?
    ensures var s := B.Behave(requests, steps).value;
            Items(ScheduleOf(requests, steps)) == Handed(s.handed + B.Pending(s))
    decreases |steps|
  {
    hide Items, Handed, B.Next, B.Enabled, B.Pending;
    if steps == [] {
      NothingScheduled(requests);
    } else {
      var front, step := steps[..|steps| - 1], steps[|steps| - 1];
      ScheduleItems(requests, front);
      var s := B.Behave(requests, front).value;
      B.ConservedAlways(requests, front);
      PendingStep(requests, s, step);
      if step.Receive? {
        HandedOfMore(s.handed + B.Pending(s), s.ch[0]);
        ItemsOfMore(ScheduleOf(requests, front), Received(s.ch[0].item));
      } else if step.Tick? {
        ItemsOfMore(ScheduleOf(requests, front), Ticked);
      }
    }
  }

  lemma {:induction false} NothingScheduled(requests: seq<seq<Ingest>>)
    ensures Items([]) == Handed(B.Init(requests).handed + B.Pending(B.Init(requests)))
  {}

  lemma {:induction false} PendingShape(requests: seq<seq<Ingest>>, s: B.State)
    requires B.Conserved(requests, s)
    ensures |s.next| == |requests|
    ensures s.writer.Flushing? ==> s.writer.done < |s.batch|
    ensures s.writer.Exited? ==> s.batch == []
  {
    hide B.Of;
  }

  lemma {:induction false} PendingStep(requests: seq<seq<Ingest>>, s: B.State, step: B.Step)
    requires B.Conserved(requests, s) && B.Enabled(requests, s, step)
    ensures var t := B.Next(requests, s, step);
            && (step.Receive? ==> s.ch != [])
            && t.handed + B.Pending(t) ==
               if step.Receive? then s.handed + B.Pending(s) + [s.ch[0]] else s.handed + B.Pending(s)
  {
    hide B.Of;
    hide B.Conserved;
    PendingShape(requests, s);
    var t := B.Next(requests, s, step);
    if step.Hand? {
      assert B.Pending(s) == [s.batch[s.writer.done]] + B.Pending(t);
    } else if step.Receive? {
      assert B.Pending(t) == s.batch + [s.ch[0]];
    } else {
      assert s.batch[0..] == s.batch;
    }
  }

  /** Once Close has returned, the loop's schedule consisted of exactly the spans handed on, in order. */
  lemma {:induction false} LoopSawWhatWasHanded(requests: seq<seq<Ingest>>, steps: seq<B.Step>)
    requires B.Behave(requests, steps).Some? && B.Behave(requests, steps).value.writer.Exited?
    ensures Items(ScheduleOf(requests, steps)) == Handed(B.Behave(requests, steps).value.handed)
  {
    hide B.Behave, Items, Handed, B.Of;
    ScheduleItems(requests, steps);
    B.ConservedAlways(requests, steps);
    var s := B.Behave(requests, steps).value;
    assert s.handed + B.Pending(s) == s.handed;
  }

  /** The loop flushes when the state machine does: between flushes the same number has been handed on. */
  lemma {:induction false} HandedIsFlushed(requests: seq<seq<Ingest>>, steps: seq<B.Step>)
    requires B.Behave(requests, steps).Some?
    ensures var s, schedule := B.Behave(requests, steps).value, ScheduleOf(requests, steps);
            && (s.writer.Selecting? ==> |s.handed| == Flushed(schedule))
            && (s.writer.Flushing? && !s.writer.exiting ==> |Items(schedule)| == Flushed(schedule))
    decreases |steps|
  {
    hide Items, Flushed, B.Next, B.Enabled, B.Pending;
    if steps == [] {
      NoItems([]);
      assert ScheduleOf(requests, [])[..0] == [];
    } else {
      var front, step := steps[..|steps| - 1], steps[|steps| - 1];
      HandedIsFlushed(requests, front);
      ScheduleItems(requests, front);
      ScheduleItems(requests, steps);
      B.ConservedAlways(requests, front);
      FlushStep(requests, B.Behave(requests, front).value, step);
      if step.Receive? {
        FlushedMore(ScheduleOf(requests, front), Received(B.Behave(requests, front).value.ch[0].item));
      } else if step.Tick? {
        FlushedMore(ScheduleOf(requests, front), Ticked);
      }
    }
  }

  lemma {:induction false} FlushedMore(schedule: seq<Select>, sel: Select)
    ensures var all := |Items(schedule + [sel])|;
            Flushed(schedule + [sel]) ==
            if sel.Ticked? || all - Flushed(schedule) >= B.FLUSH_SIZE then all else Flushed(schedule)
  {
    assert (schedule + [sel])[..|schedule|] == schedule;
  }

  /** What starts and ends a flush: a tick or the span that fills the batch, and the last hand. */
  lemma {:induction false} FlushStep(requests: seq<seq<Ingest>>, s: B.State, step: B.Step)
    requires B.Conserved(requests, s) && B.Enabled(requests, s, step)
    ensures s.writer.Selecting? ==> B.Pending(s) == s.batch
    ensures var t := B.Next(requests, s, step);
            match step
            case Tick =>
              && s.writer.Selecting? && !t.writer.Exited? && (t.writer.Flushing? ==> !t.writer.exiting)
              && (t.writer.Selecting? ==> s.batch == [] && t == s)
            case Receive =>
              && s.writer.Selecting? && t.handed == s.handed && |B.Pending(t)| == |s.batch| + 1
              && !t.writer.Exited? && (t.writer.Flushing? ==> !t.writer.exiting)
              && (t.writer.Flushing? <==> |s.batch| + 1 >= B.FLUSH_SIZE)
            case Hand =>
              && s.writer.Flushing? && (t.writer.Selecting? ==> !s.writer.exiting && B.Pending(t) == [])
              && (t.writer.Flushing? ==> t.writer.exiting == s.writer.exiting)
            case Drain => t.writer.Exited? || (t.writer.Flushing? && t.writer.exiting)
            case _ => t.writer == s.writer && t.handed == s.handed
  {
    hide B.Of;
  }

  lemma {:induction false} SomeBehaviourFinishes(requests: seq<seq<Ingest>>) returns (steps: seq<B.Step>)
    ensures Finished(requests, steps)
  {
    hide B.Behave;
    InitBehaves(requests);
    steps := B.CanFinish(requests, []);
    assert [] + steps == steps;
  }

  lemma {:induction false} InitBehaves(requests: seq<seq<Ingest>>)
    ensures B.Behave(requests, []) == Some(B.Init(requests))
  {}

  /**
   End to end: however the requests interleave, wherever batches are cut, and whatever inserts fail,
   once every request is sent and Close has returned the loop's run returned, the span rows are the
   closed form over the spans committed, and the trace rows have their ranges.
   */
  lemma {:induction false} PipelineInClosedForm(requests: seq<seq<Ingest>>, steps: seq<B.Step>, faults: seq<Fault>)
    requires Finished(requests, steps) && |faults| == |Items(ScheduleOf(requests, steps))|
    requires var storable := StorableOf(AllSpans(requests)); Consistent(storable) && Acyclic(ContentForest(storable))
    ensures var a := Arrivals(Items(ScheduleOf(requests, steps)), faults);
            var committed := SpansOf(Committed(a));
            && Returns(a) && Offered(a) == AllSpans(requests)
            && committed <= StorableOf(AllSpans(requests)) && AllSerializable(committed)
            && StoredSpans(Run(a).db) == FinalSpans(committed)
            && (forall t | 0 <= t < |Run(a).db.traces| :: RangeOf(Run(a).db.traces[t], committed))
  {
    hide Consistent, ContentForest, Acyclic, AllSpans, B.Behave, Run, Returns, Items, ScheduleOf, Committed,
      FinalSpans, AllSerializable, StorableOf, RangeOf;
    var h := Handed(B.Behave(requests, steps).value.handed);
    AllAreHanded(requests, steps);
    LoopSawWhatWasHanded(requests, steps);
    var a := Arrivals(h, faults);
    assert Offered(a) == AllSpans(requests) by {
      assert forall i | 0 <= i < |h| :: a[i].span == h[i].span;
    }
    ReturnsIfAcyclic(a, StorableOf(Offered(a)));
    CommittedWereOffered(a);
    ConsistentPart(SpansOf(Committed(a)), StorableOf(Offered(a)));
    RowsInClosedForm(a);
    forall t: nat | t < |Run(a).db.traces|
      ensures RangeOf(Run(a).db.traces[t], SpansOf(Committed(a)))
    {
      RangesOverRuns(a, t);
    }
  }

  /**
   Without failures of the database the committed spans are those of the requests that can be stored:
   two behaviours over the same spans end with the same rows and the same trace ranges.
   */
  lemma {:induction false} PipelineIsDeterministic(
    requests: seq<seq<Ingest>>, steps: seq<B.Step>, others: seq<seq<Ingest>>, moves: seq<B.Step>)
    requires Finished(requests, steps) && Finished(others, moves) && AllSpans(requests) == AllSpans(others)
    requires var storable := StorableOf(AllSpans(requests)); Consistent(storable) && Acyclic(ContentForest(storable))
    ensures AllSerializable(StorableOf(AllSpans(requests)))
    ensures var items, more := Items(ScheduleOf(requests, steps)), Items(ScheduleOf(others, moves));
            var db, other := Run(Arrivals(items, NoFaults(|items|))).db, Run(Arrivals(more, NoFaults(|more|))).db;
            && StoredSpans(db) == StoredSpans(other) == FinalSpans(StorableOf(AllSpans(requests)))
            && Ranges(db) == Ranges(other)
  {
    hide Consistent, ContentForest, Acyclic, AllSpans, B.Behave, Run, Returns, Items, ScheduleOf, Committed,
      FinalSpans, StorableOf, AllSerializable, RangeOf;
    var items, more := Items(ScheduleOf(requests, steps)), Items(ScheduleOf(others, moves));
    PipelineInClosedForm(requests, steps, NoFaults(|items|));
    PipelineInClosedForm(others, moves, NoFaults(|more|));
    ArrivalOrderDoesNotMatter(Arrivals(items, NoFaults(|items|)), Arrivals(more, NoFaults(|more|)));
  }
}
