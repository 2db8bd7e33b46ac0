/**
 The batcher: request handlers send spans into a bounded channel, one writer collects them into
 batches and hands each span of a batch to the store. All interleavings are covered: a behaviour is
 any sequence of enabled steps.
 */
module Batcher {
  import opened Prelude
  import opened Tables

  const CAPACITY := 1000
  const FLUSH_SIZE := 128

  /** A span on its way, remembering which request it came with. */
  datatype Sent = Sent(request: nat, item: Ingest)

  /** Where the writer goroutine is: in its select, inside flush with `done` spans handed over, or gone. */
  datatype Writer = Selecting | Flushing(done: nat, exiting: bool) | Exited

  datatype State = State(
    next: seq<nat>,        // per request, how many of its spans AddAll has sent
    ch: seq<Sent>,         // the buffered channel
    batch: seq<Sent>,      // the writer's current batch
    writer: Writer,
    closed: bool,          // close(ch) has happened
    sent: seq<Sent>,       // every completed send, in order
    handed: seq<Sent>)     // every call of InsertSpan, in order

  datatype Step = Send(request: nat) | Receive | Tick | Hand | Close | Drain

  function Init(requests: seq<seq<Ingest>>): State {
    State(seq(|requests|, i => 0), [], [], Selecting, false, [], [])
  }

  /** A send blocks while the channel is full, and no send happens once the channel is closed. */
  predicate Enabled(requests: seq<seq<Ingest>>, s: State, step: Step)
    requires |s.next| == |requests|
  {
    match step
    case Send(r) => r < |requests| && s.next[r] < |requests[r]| && !s.closed && |s.ch| < CAPACITY
    case Receive => s.writer.Selecting? && s.ch != []
    case Tick => s.writer.Selecting?
    case Hand => s.writer.Flushing? && s.writer.done < |s.batch|
    case Close => true
    case Drain => s.writer.Selecting? && s.closed && s.ch == []
  }

  function Next(requests: seq<seq<Ingest>>, s: State, step: Step): (t: State)
    requires |s.next| == |requests| && Enabled(requests, s, step)
    ensures |t.next| == |requests|
  {
    match step
    case Send(r) =>
      var x := Sent(r, requests[r][s.next[r]]);
      s.(next := s.next[r := s.next[r] + 1], ch := s.ch + [x], sent := s.sent + [x])
    case Receive =>
      var batch := s.batch + [s.ch[0]];
      s.(ch := s.ch[1..], batch := batch, writer := if |batch| >= FLUSH_SIZE then Flushing(0, false) else Selecting)
    case Tick =>
      if |s.batch| > 0 then s.(writer := Flushing(0, false)) else s
    case Hand =>
      var i := s.writer.done;
      var t := s.(handed := s.handed + [s.batch[i]]);
      if i + 1 < |s.batch| then t.(writer := Flushing(i + 1, s.writer.exiting))
      else t.(batch := [], writer := if s.writer.exiting then Exited else Selecting)
    case Close => s.(closed := true)
    case Drain =>
      if |s.batch| == 0 then s.(writer := Exited) else s.(writer := Flushing(0, true))
  }

  /** The state after a behaviour, if each of its steps was enabled when taken. */
  function Behave(requests: seq<seq<Ingest>>, steps: seq<Step>): (s: Option<State>)
    ensures s.Some? ==> |s.value.next| == |requests|
  {
    if steps == [] then Some(Init(requests))
    else match Behave(requests, steps[..|steps| - 1])
      case None => None
      case Some(s) =>
        if Enabled(requests, s, steps[|steps| - 1]) then Some(Next(requests, s, steps[|steps| - 1])) else None
  }

  /** The spans of one request, in the order they stand in a sequence. */
  function Of(xs: seq<Sent>, r: nat): seq<Ingest> {
    if xs == [] then []
    else
      var rest := Of(xs[..|xs| - 1], r);
      if xs[|xs| - 1].request == r then rest + [xs[|xs| - 1].item] else rest
  }

  /** The part of the batch not yet handed to the store. */
  function Pending(s: State): seq<Sent> {
    if s.writer.Flushing? && s.writer.done <= |s.batch| then s.batch[s.writer.done..] else s.batch
  }

  ghost predicate Conserved(requests: seq<seq<Ingest>>, s: State) {
    && |s.next| == |requests|
    && s.handed + Pending(s) + s.ch == s.sent
    && |s.ch| <= CAPACITY
    && (s.writer.Selecting? ==> |s.batch| < FLUSH_SIZE)
    && (s.writer.Flushing? ==> s.writer.done < |s.batch| <= FLUSH_SIZE)
    && (s.writer.Flushing? && s.writer.exiting ==> s.closed && s.ch == [])
    && (s.writer.Exited? ==> s.closed && s.ch == [] && s.batch == [])
    && (forall i | 0 <= i < |s.sent| :: s.sent[i].request < |requests|)
    && (forall r | 0 <= r < |requests| :: s.next[r] <= |requests[r]| && Of(s.sent, r) == requests[r][..s.next[r]])
  }

  lemma {:induction false} SendConserves(requests: seq<seq<Ingest>>, s: State, r: nat)
    requires Conserved(requests, s) && Enabled(requests, s, Send(r))
    ensures Conserved(requests, Next(requests, s, Send(r)))
  {
    var t := Next(requests, s, Send(r));
    var x := t.sent[|s.sent|];
    assert t.sent[..|s.sent|] == s.sent;
    assert t.handed + Pending(t) + t.ch == s.handed + Pending(s) + s.ch + [x];
    forall q | 0 <= q < |requests|
      ensures t.next[q] <= |requests[q]| && Of(t.sent, q) == requests[q][..t.next[q]]
    {
      assert Of(s.sent, q) == requests[q][..s.next[q]];
      if q == r { assert requests[r][..s.next[r] + 1] == requests[r][..s.next[r]] + [x.item]; }
    }
  }

  lemma {:induction false} ReceiveConserves(requests: seq<seq<Ingest>>, s: State)
    requires Conserved(requests, s) && Enabled(requests, s, Receive)
    ensures Conserved(requests, Next(requests, s, Receive))
  {
    hide Of;
    var t := Next(requests, s, Receive);
    assert s.ch == [s.ch[0]] + s.ch[1..];
    assert Pending(t) == s.batch + [s.ch[0]];
    assert s.handed + (s.batch + [s.ch[0]]) + s.ch[1..] == s.handed + s.batch + ([s.ch[0]] + s.ch[1..]);
  }

  lemma {:induction false} HandConserves(requests: seq<seq<Ingest>>, s: State)
    requires Conserved(requests, s) && Enabled(requests, s, Hand)
    ensures Conserved(requests, Next(requests, s, Hand))
  {
    hide Of;
    var t := Next(requests, s, Hand);
    var x := s.batch[s.writer.done];
    assert Pending(s) == [x] + Pending(t);
    assert s.handed + ([x] + Pending(t)) == (s.handed + [x]) + Pending(t);
  }

  lemma {:induction false} OtherConserves(requests: seq<seq<Ingest>>, s: State, step: Step)
    requires Conserved(requests, s) && Enabled(requests, s, step) && (step.Tick? || step.Close? || step.Drain?)
    ensures Conserved(requests, Next(requests, s, step))
  {
    hide Of;
    assert s.batch[0..] == s.batch;
  }

  /**
   Conservation over all interleavings: at every moment what has been handed to the store, then the
   unhanded part of the batch, then the channel, is what was sent, in the order it was sent.
   */
  lemma {:induction false} ConservedAlways(requests: seq<seq<Ingest>>, steps: seq<Step>)
    requires Behave(requests, steps).Some?
    ensures Conserved(requests, Behave(requests, steps).value)
    decreases |steps|
  {
    hide Conserved, Next, Enabled;
    if steps == [] {
      InitConserved(requests);
    } else {
      var front, step := steps[..|steps| - 1], steps[|steps| - 1];
      ConservedAlways(requests, front);
      var s := Behave(requests, front).value;
      match step {
        case Send(r) => SendConserves(requests, s, r);
        case Receive => ReceiveConserves(requests, s);
        case Hand => HandConserves(requests, s);
        case _ => OtherConserves(requests, s, step);
      }
    }
  }

  lemma {:induction false} InitConserved(requests: seq<seq<Ingest>>)
    ensures Conserved(requests, Init(requests))
  {}

  /** Once Close has returned, each completed send was handed over exactly once, each request in its order. */
  lemma {:induction false} ClosedLosesNothing(requests: seq<seq<Ingest>>, steps: seq<Step>, r: nat)
    requires Behave(requests, steps).Some? && Behave(requests, steps).value.writer.Exited? && r < |requests|
    ensures var s := Behave(requests, steps).value;
            && s.handed == s.sent
            && s.next[r] <= |requests[r]| && Of(s.handed, r) == requests[r][..s.next[r]]
  {
    hide Behave, Of;
    ConservedAlways(requests, steps);
    var s := Behave(requests, steps).value;
    assert s.handed + [] + [] == s.handed;
  }

  // ----- Close returns -----

  predicate WriterStep(s: State, step: Step) {
    step.Receive? || step.Hand? || step.Drain? || (step.Tick? && |s.batch| > 0)
  }

  /** An upper bound on the writer steps left once nothing more is sent. */
  function Work(s: State): nat {
    3 * |s.ch| + 2 * |Pending(s)| + (if s.writer.Selecting? then 1 else 0)
  }

  /** After close the writer is never stuck, and each of its steps is progress: Close returns. */
  lemma {:induction false} CloseMakesProgress(requests: seq<seq<Ingest>>, s: State)
    requires Conserved(requests, s) && s.closed
    ensures s.writer.Exited? || exists step :: Enabled(requests, s, step) && WriterStep(s, step)
    ensures forall step | Enabled(requests, s, step) && WriterStep(s, step) :: Work(Next(requests, s, step)) < Work(s)
    ensures forall step | Enabled(requests, s, step) && !WriterStep(s, step) :: Next(requests, s, step) == s
  {
    hide Of;
    if s.writer.Flushing? {
      assert Enabled(requests, s, Hand) && WriterStep(s, Hand);
    } else if s.writer.Selecting? {
      if s.ch != [] {
        assert Enabled(requests, s, Receive) && WriterStep(s, Receive);
      } else {
        assert Enabled(requests, s, Drain) && WriterStep(s, Drain);
      }
    }
  }

  /** How many of the further steps are the writer's. */
  function Moves(requests: seq<seq<Ingest>>, steps: seq<Step>, more: seq<Step>): nat {
    if more == [] then 0
    else
      var front, step := more[..|more| - 1], more[|more| - 1];
      var before := Behave(requests, steps + front);
      Moves(requests, steps, front) + (if before.Some? && WriterStep(before.value, step) then 1 else 0)
  }

  lemma {:induction false} BehaveStep(requests: seq<seq<Ingest>>, steps: seq<Step>, more: seq<Step>)
    requires more != []
    ensures Behave(requests, steps + more) ==
            match Behave(requests, steps + more[..|more| - 1])
            case None => None
            case Some(s) =>
              if Enabled(requests, s, more[|more| - 1]) then Some(Next(requests, s, more[|more| - 1])) else None
  {
    assert (steps + more)[..|steps + more| - 1] == steps + more[..|more| - 1];
  }

  /** After close every continuation uses up the remaining work, one unit or more for each writer step. */
  lemma {:induction false} WorkRunsOut(requests: seq<seq<Ingest>>, steps: seq<Step>, more: seq<Step>)
    requires Behave(requests, steps).Some? && Behave(requests, steps).value.closed
    requires Behave(requests, steps + more).Some?
    ensures Behave(requests, steps + more).value.closed
    ensures Moves(requests, steps, more) + Work(Behave(requests, steps + more).value) <=
            Work(Behave(requests, steps).value)
    decreases |more|
  {
    hide Work, WriterStep, Next, Enabled;
    if more == [] {
      assert steps + more == steps;
    } else {
      var front := more[..|more| - 1];
      BehaveStep(requests, steps, more);
      WorkRunsOut(requests, steps, front);
      var s := Behave(requests, steps + front).value;
      ConservedAlways(requests, steps + front);
      CloseMakesProgress(requests, s);
      StaysClosed(requests, s, more[|more| - 1]);
    }
  }

  lemma {:induction false} StaysClosed(requests: seq<seq<Ingest>>, s: State, step: Step)
    requires |s.next| == |requests| && s.closed && Enabled(requests, s, step)
    ensures Next(requests, s, step).closed
  {}

  /** Close returns: after as many writer steps as there was work, whatever comes between, the writer is gone. */
  lemma {:induction false} CloseReturns(requests: seq<seq<Ingest>>, steps: seq<Step>, more: seq<Step>)
    requires Behave(requests, steps).Some? && Behave(requests, steps).value.closed
    requires Behave(requests, steps + more).Some?
    ensures Moves(requests, steps, more) <= Work(Behave(requests, steps).value)
    ensures Moves(requests, steps, more) == Work(Behave(requests, steps).value) ==>
              Behave(requests, steps + more).value.writer.Exited?
  {
    hide Behave, Moves, Of;
    WorkRunsOut(requests, steps, more);
    ConservedAlways(requests, steps + more);
  }

  /** And it can always get there, by writer steps alone. */
  lemma {:induction false} CloseCanReturn(requests: seq<seq<Ingest>>, steps: seq<Step>) returns (more: seq<Step>)
    requires Behave(requests, steps).Some? && Behave(requests, steps).value.closed
    ensures Behave(requests, steps + more).Some? && Behave(requests, steps + more).value.writer.Exited?
    ensures |more| <= Work(Behave(requests, steps).value)
    decreases Work(Behave(requests, steps).value)
  {
    hide Work, WriterStep, Next, Enabled, Behave;
    var s := Behave(requests, steps).value;
    ConservedAlways(requests, steps);
    CloseMakesProgress(requests, s);
    if s.writer.Exited? {
      more := [];
      assert steps + more == steps;
    } else {
      var step :| Enabled(requests, s, step) && WriterStep(s, step);
      BehaveOne(requests, steps, step);
      StaysClosed(requests, s, step);
      var rest := CloseCanReturn(requests, steps + [step]);
      more := [step] + rest;
      assert steps + [step] + rest == steps + more;
    }
  }

  lemma {:induction false} BehaveOne(requests: seq<seq<Ingest>>, steps: seq<Step>, step: Step)
    requires Behave(requests, steps).Some? && Enabled(requests, Behave(requests, steps).value, step)
    ensures Behave(requests, steps + [step]) == Some(Next(requests, Behave(requests, steps).value, step))
  {
    assert (steps + [step])[..|steps|] == steps;
  }

  /** A full channel blocks senders only while the writer can move. */
  lemma {:induction false} NeverDeadlocked(requests: seq<seq<Ingest>>, s: State)
    requires Conserved(requests, s) && !s.writer.Exited? && |s.ch| == CAPACITY
    ensures exists step :: Enabled(requests, s, step) && WriterStep(s, step)
  {
    hide Of;
    if s.writer.Flushing? {
      assert Enabled(requests, s, Hand) && WriterStep(s, Hand);
    } else {
      assert Enabled(requests, s, Receive) && WriterStep(s, Receive);
    }
  }

  // ----- sending -----

  function Sends(r: nat, n: nat): seq<Step> {
    seq(n, _ => Send(r))
  }

  /** The spans of a request from one place to another, as they are sent. */
  function Stretch(requests: seq<seq<Ingest>>, r: nat, from: nat, to: nat): seq<Sent>
    requires r < |requests| && from <= to <= |requests[r]|
  {
    seq(to - from, i requires 0 <= i < to - from => Sent(r, requests[r][from + i]))
  }

  lemma {:induction false} StretchStep(requests: seq<seq<Ingest>>, r: nat, from: nat, to: nat)
    requires r < |requests| && from < to <= |requests[r]|
    ensures Stretch(requests, r, from, to) == [Sent(r, requests[r][from])] + Stretch(requests, r, from + 1, to)
  {}

  /** Until the channel is closed or full, sends go through one after another, whatever the writer is at. */
  lemma {:induction false} SendsGoThrough(requests: seq<seq<Ingest>>, steps: seq<Step>, r: nat, n: nat)
    requires var b := Behave(requests, steps); b.Some? && !b.value.closed && |b.value.ch| + n <= 1000
    requires r < |requests| && Behave(requests, steps).value.next[r] + n <= |requests[r]|
    ensures var s := Behave(requests, steps).value;
            var to := s.next[r] + n;
            var xs := Stretch(requests, r, s.next[r], to);
            Behave(requests, steps + Sends(r, n)) ==
            Some(s.(next := s.next[r := to], ch := s.ch + xs, sent := s.sent + xs))
    decreases n
  {
    hide Behave, Stretch;
    var s := Behave(requests, steps).value;
    var from := s.next[r];
    if n == 0 {
      assert steps + Sends(r, n) == steps;
      assert s.next[r := from] == s.next;
      NoStretch(requests, r, from);
      assert s.ch + [] == s.ch && s.sent + [] == s.sent;
    } else {
      BehaveOne(requests, steps, Send(r));
      SendsGoThrough(requests, steps + [Send(r)], r, n - 1);
      assert steps + [Send(r)] + Sends(r, n - 1) == steps + Sends(r, n);
      StretchStep(requests, r, from, from + n);
      Regroup(s.ch, Sent(r, requests[r][from]), Stretch(requests, r, from + 1, from + n));
      Regroup(s.sent, Sent(r, requests[r][from]), Stretch(requests, r, from + 1, from + n));
      assert s.next[r := from + 1][r := from + n] == s.next[r := from + n];
    }
  }

  lemma {:induction false} NoStretch(requests: seq<seq<Ingest>>, r: nat, from: nat)
    requires r < |requests| && from <= |requests[r]|
    ensures Stretch(requests, r, from, from) == []
  {}

  /** A sender with spans left is held up by a full channel and by nothing else, until Close. */
  lemma {:induction false} SendsUnlessFull(requests: seq<seq<Ingest>>, steps: seq<Step>, r: nat)
    requires Behave(requests, steps).Some? && !Behave(requests, steps).value.closed && r < |requests|
    requires Behave(requests, steps).value.next[r] < |requests[r]|
    ensures Behave(requests, steps + [Send(r)]).Some? <==> |Behave(requests, steps).value.ch| < 1000
  {
    assert (steps + [Send(r)])[..|steps|] == steps;
  }

  // ----- flushing -----

  function Hands(n: nat): seq<Step> {
    seq(n, _ => Hand)
  }

  /** A flush, once started, goes through the batch in order and ends with none of it left. */
  lemma {:induction false} HandsEmptyBatch(requests: seq<seq<Ingest>>, steps: seq<Step>, n: nat)
    requires var r := Behave(requests, steps);
             r.Some? && r.value.writer.Flushing? && r.value.writer.done + n == |r.value.batch| && n > 0
    ensures var s := Behave(requests, steps).value;
            Behave(requests, steps + Hands(n)) ==
            Some(s.(handed := s.handed + s.batch[s.writer.done..], batch := [],
                    writer := if s.writer.exiting then Exited else Selecting))
    decreases n
  {
    hide Behave;
    var s := Behave(requests, steps).value;
    BehaveOne(requests, steps, Hand);
    assert s.batch[s.writer.done..] == [s.batch[s.writer.done]] + s.batch[s.writer.done + 1..];
    if n == 1 {
      assert [Hand] == Hands(1);
      assert s.batch[s.writer.done..] == [s.batch[s.writer.done]];
    } else {
      HandsEmptyBatch(requests, steps + [Hand], n - 1);
      assert steps + [Hand] + Hands(n - 1) == steps + Hands(n);
      Regroup(s.handed, s.batch[s.writer.done], s.batch[s.writer.done + 1..]);
    }
  }

  lemma {:induction false} Regroup<T>(a: seq<T>, x: T, b: seq<T>)
    ensures a + [x] + b == a + ([x] + b)
  {}

  /** At any moment, closed or not, a tick hands on the whole batch in order and the writer goes on. */
  lemma {:induction false} TickFlushes(requests: seq<seq<Ingest>>, steps: seq<Step>)
    requires var r := Behave(requests, steps); r.Some? && r.value.writer.Selecting? && r.value.batch != []
    ensures var s := Behave(requests, steps).value;
            Behave(requests, steps + [Tick] + Hands(|s.batch|)) ==
            Some(s.(handed := s.handed + s.batch, batch := []))
  {
    hide Behave;
    var s := Behave(requests, steps).value;
    BehaveOne(requests, steps, Tick);
    HandsEmptyBatch(requests, steps + [Tick], |s.batch|);
    assert s.batch[0..] == s.batch;
  }

  /** A span received joins the batch; the one that fills it is handed on with all the others. */
  lemma {:induction false} ReceiveFlushesIfFull(requests: seq<seq<Ingest>>, steps: seq<Step>)
    requires var r := Behave(requests, steps); r.Some? && r.value.writer.Selecting? && r.value.ch != []
    ensures var s := Behave(requests, steps).value;
            var batch := s.batch + [s.ch[0]];
            if |batch| < 128 then Behave(requests, steps + [Receive]) == Some(s.(ch := s.ch[1..], batch := batch))
            else Behave(requests, steps + [Receive] + Hands(|batch|)) ==
                 Some(s.(ch := s.ch[1..], handed := s.handed + batch, batch := []))
  {
    hide Behave;
    var s := Behave(requests, steps).value;
    var batch := s.batch + [s.ch[0]];
    BehaveOne(requests, steps, Receive);
    if |batch| >= FLUSH_SIZE {
      HandsEmptyBatch(requests, steps + [Receive], |batch|);
      assert batch[0..] == batch;
    }
  }

  // ----- finishing -----

  /** How many spans of the requests are still to be sent. */
  function Unsent(requests: seq<seq<Ingest>>, next: seq<nat>): nat
    requires |next| == |requests|
  {
    if requests == [] then 0
    else
      var r := |requests| - 1;
      Unsent(requests[..r], next[..r]) + (if next[r] < |requests[r]| then |requests[r]| - next[r] else 0)
  }

  lemma {:induction false} UnsentStep(requests: seq<seq<Ingest>>, next: seq<nat>, r: nat)
    requires r < |next| == |requests| && next[r] < |requests[r]|
    ensures Unsent(requests, next[r := next[r] + 1]) == Unsent(requests, next) - 1
    decreases |requests|
  {
    var last := |requests| - 1;
    if r < last {
      UnsentStep(requests[..last], next[..last], r);
      assert next[r := next[r] + 1][..last] == next[..last][r := next[r] + 1];
    } else {
      assert next[r := next[r] + 1][..last] == next[..last];
    }
  }

  ghost predicate AllSent(requests: seq<seq<Ingest>>, s: State) {
    |s.next| == |requests| && forall r | 0 <= r < |requests| :: s.next[r] == |requests[r]|
  }

  /** The writer's next step while it has anything to do: closing only adds that it can leave. */
  lemma {:induction false} WriterWorks(requests: seq<seq<Ingest>>, s: State) returns (step: Step)
    requires Conserved(requests, s) && !s.closed && (s.writer.Flushing? || s.ch != [] || s.batch != [])
    ensures Enabled(requests, s, step)
    ensures var t := Next(requests, s, step); Work(t) < Work(s) && t.next == s.next && t.closed == s.closed
  {
    hide Of;
    step := if s.writer.Flushing? then Hand else if s.ch != [] then Receive else Tick;
  }

  /** What has been started can be finished: every open behaviour has a continuation that sends and hands on all. */
  lemma {:induction false} CanFinish(requests: seq<seq<Ingest>>, steps: seq<Step>) returns (more: seq<Step>)
    requires Behave(requests, steps).Some? && !Behave(requests, steps).value.closed
    ensures Behave(requests, steps + more).Some?
    ensures var s := Behave(requests, steps + more).value; s.writer.Exited? && AllSent(requests, s)
    decreases Unsent(requests, Behave(requests, steps).value.next), Work(Behave(requests, steps).value)
  {
    hide Work, Next, Enabled, Behave, AllSent, Conserved, Unsent;
    var s := Behave(requests, steps).value;
    ConservedAlways(requests, steps);
    OpenState(requests, s);
    if s.writer.Flushing? || s.ch != [] || s.batch != [] {
      var step := WriterWorks(requests, s);
      BehaveOne(requests, steps, step);
      var rest := CanFinish(requests, steps + [step]);
      more := [step] + rest;
      assert steps + [step] + rest == steps + more;
    } else if r: nat :| r < |requests| && s.next[r] < |requests[r]| {
      SendIsEnabled(requests, s, r);
      BehaveOne(requests, steps, Send(r));
      UnsentStep(requests, s.next, r);
      var rest := CanFinish(requests, steps + [Send(r)]);
      more := [Send(r)] + rest;
      assert steps + [Send(r)] + rest == steps + more;
    } else {
      more := [Close] + [Drain];
      CloseAndDrain(requests, s);
      BehaveOne(requests, steps, Close);
      BehaveOne(requests, steps + [Close], Drain);
      assert steps + [Close] + [Drain] == steps + more;
    }
  }

  lemma {:induction false} OpenState(requests: seq<seq<Ingest>>, s: State)
    requires Conserved(requests, s)
    ensures |s.next| == |requests| && forall r | 0 <= r < |requests| :: s.next[r] <= |requests[r]|
    ensures !s.closed ==> !s.writer.Exited?
  {
    hide Of;
  }

  lemma {:induction false} SendIsEnabled(requests: seq<seq<Ingest>>, s: State, r: nat)
    requires |s.next| == |requests| && !s.closed && s.ch == [] && r < |requests| && s.next[r] < |requests[r]|
    ensures Enabled(requests, s, Send(r))
    ensures var t := Next(requests, s, Send(r)); t.next == s.next[r := s.next[r] + 1] && !t.closed
  {}

  lemma {:induction false} CloseAndDrain(requests: seq<seq<Ingest>>, s: State)
    requires |s.next| == |requests| && s.writer.Selecting? && s.ch == [] && s.batch == []
    requires forall r | 0 <= r < |requests| :: s.next[r] == |requests[r]|
    ensures Enabled(requests, s, Close) && Enabled(requests, Next(requests, s, Close), Drain)
    ensures var t := Next(requests, Next(requests, s, Close), Drain); t.writer.Exited? && AllSent(requests, t)
  {}
}
