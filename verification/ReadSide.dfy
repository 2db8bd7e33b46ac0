/** The read side's per-trace aggregates, against the cumulative columns the write side maintains. */
module ReadSide {
  import opened Forest
  import C = Calls
  import opened Tables
  import opened Steps

  /** Prompt and completion tokens summed over LLM rows of one trace, as the grouped query sums them. */
  function TokenSum(spans: seq<SpanRow>, trace: nat): (int, int) {
    if spans == [] then (0, 0)
    else
      var last := spans[|spans| - 1];
      var rest := TokenSum(spans[..|spans| - 1], trace);
      if last.kind == "LLM" && last.trace == trace
      then (last.prompt.GetOr(0) + rest.0, last.completion.GetOr(0) + rest.1)
      else rest
  }

  /** EXISTS(... status_code = 'ERROR') */
  predicate HasError(spans: seq<SpanRow>, trace: nat) {
    exists i | 0 <= i < |spans| :: spans[i].trace == trace && spans[i].status == "ERROR"
  }

  /** A row whose parent column names no row of its own trace. */
  predicate IsRootRow(spans: seq<SpanRow>, row: SpanRow) {
    row.parent.None? || FindSpan(spans, row.trace, row.parent.value).None?
  }

  /** The cumulative columns summed over the root rows among the first n rows. */
  function RootSum(spans: seq<SpanRow>, trace: nat, n: nat): Counts
    requires n <= |spans|
  {
    if n == 0 then ZERO
    else
      var row := spans[n - 1];
      var rest := RootSum(spans, trace, n - 1);
      if row.trace == trace && IsRootRow(spans, row) then row.cum.Plus(rest) else rest
  }

  // ----- the page's traces, filled in place -----

  /** The aggregate columns of one listed trace. */
  datatype TraceView = TraceView(id: nat, tokenPrompt: int, tokenCompletion: int, tokenTotal: int)

  predicate HasLlm(spans: seq<SpanRow>, trace: nat) {
    exists i | 0 <= i < |spans| :: spans[i].kind == "LLM" && spans[i].trace == trace
  }

  lemma {:induction false} GroupStep(spans: seq<SpanRow>, i: nat, t: nat)
    requires i < |spans|
    ensures HasLlm(spans[..i + 1], t) <==> HasLlm(spans[..i], t) || (spans[i].kind == "LLM" && spans[i].trace == t)
    ensures TokenSum(spans[..i + 1], t) ==
            if spans[i].kind == "LLM" && spans[i].trace == t
            then (spans[i].prompt.GetOr(0) + TokenSum(spans[..i], t).0,
              spans[i].completion.GetOr(0) + TokenSum(spans[..i], t).1)
            else TokenSum(spans[..i], t)
  {
    var prefix := spans[..i + 1];
    assert prefix[..i] == spans[..i] && prefix[i] == spans[i];
    if HasLlm(spans[..i], t) {
      var k :| 0 <= k < i && spans[..i][k].kind == "LLM" && spans[..i][k].trace == t;
      assert prefix[k] == spans[..i][k];
    }
  }

  /** GROUP BY trace_rowid over the LLM rows: a trace without LLM rows has no group. */
  method GroupTokens(spans: seq<SpanRow>, ids: set<nat>) returns (byTrace: map<nat, (int, int)>)
    ensures forall t :: t in byTrace <==> t in ids && HasLlm(spans, t)
    ensures forall t | t in byTrace :: byTrace[t] == TokenSum(spans, t)
  {
    hide HasLlm, TokenSum;
    byTrace := map[];
    NoRows();
    for i := 0 to |spans|
      invariant forall t :: t in byTrace <==> t in ids && HasLlm(spans[..i], t)
      invariant forall t | t in ids :: TokenSum(spans[..i], t) == if t in byTrace then byTrace[t] else (0, 0)
    {
      var row := spans[i];
      forall t: nat
        ensures HasLlm(spans[..i + 1], t) <==> HasLlm(spans[..i], t) || (row.kind == "LLM" && row.trace == t)
        ensures TokenSum(spans[..i + 1], t) ==
                if row.kind == "LLM" && row.trace == t
                then (row.prompt.GetOr(0) + TokenSum(spans[..i], t).0,
                  row.completion.GetOr(0) + TokenSum(spans[..i], t).1)
                else TokenSum(spans[..i], t)
      {
        GroupStep(spans, i, t);
      }
      if row.kind == "LLM" && row.trace in ids {
        var sofar := if row.trace in byTrace then byTrace[row.trace] else (0, 0);
        byTrace := byTrace[row.trace := (row.prompt.GetOr(0) + sofar.0, row.completion.GetOr(0) + sofar.1)];
      }
    }
    assert spans[..|spans|] == spans;
  }

  lemma {:induction false} NoRows()
    ensures forall t: nat :: !HasLlm([], t) && TokenSum([], t) == (0, 0)
  {}

  lemma {:induction false} NoLlmNoTokens(spans: seq<SpanRow>, trace: nat)
    requires !HasLlm(spans, trace)
    ensures TokenSum(spans, trace) == (0, 0)
    decreases |spans|
  {
    if spans != [] {
      GroupStep(spans, |spans| - 1, trace);
      assert spans[..|spans| - 1 + 1] == spans;
      NoLlmNoTokens(spans[..|spans| - 1], trace);
    }
  }

  /** The view of a trace with the token sums of its rows, and their total. */
  predicate Filled(v: TraceView, id: nat, spans: seq<SpanRow>) {
    && v.id == id
    && v.tokenPrompt == TokenSum(spans, id).0 && v.tokenCompletion == TokenSum(spans, id).1
    && v.tokenTotal == v.tokenPrompt + v.tokenCompletion
  }

  method FillTokenCounts(traces: array<TraceView>, spans: seq<SpanRow>)
    requires forall i | 0 <= i < traces.Length ::
             traces[i].tokenPrompt == traces[i].tokenCompletion == traces[i].tokenTotal == 0
    modifies traces
    ensures forall i | 0 <= i < traces.Length ::
            Filled(traces[i], old(traces[i].id), spans)
  {
    hide HasLlm, TokenSum;
    var byTrace := GroupTokens(spans, set i | 0 <= i < traces.Length :: traces[i].id);
    for i := 0 to traces.Length
      invariant forall k | 0 <= k < i :: Filled(traces[k], old(traces[k].id), spans)
      invariant forall k | i <= k < traces.Length :: traces[k] == old(traces[k])
    {
      var t := traces[i];
      if t.id in byTrace {
        var (prompt, completion) := byTrace[t.id];
        traces[i] := TraceView(t.id, prompt, completion, prompt + completion);
      } else {
        NoLlmNoTokens(spans, t.id);
      }
    }
  }

  // ----- agreement with the cumulative columns -----

  /** Self counts over all rows of one trace. */
  function SelfSum(spans: seq<SpanRow>, trace: nat): Counts {
    if spans == [] then ZERO
    else
      var last := spans[|spans| - 1];
      var rest := SelfSum(spans[..|spans| - 1], trace);
      if last.trace == trace then SelfOf(last).Plus(rest) else rest
  }

  lemma {:induction false} TokensAreSelfSums(traces: seq<TraceRow>, spans: seq<SpanRow>, trace: nat)
    requires WellFormedSpans(traces, spans)
    ensures TokenSum(spans, trace) == (SelfSum(spans, trace).prompt, SelfSum(spans, trace).completion)
    ensures SelfSum(spans, trace).errors >= 0
    ensures HasError(spans, trace) <==> SelfSum(spans, trace).errors > 0
  {
    hide TokenSum, SelfSum, HasError, WellFormedSpans;
    TokenColumnsAreSelfSums(traces, spans, trace);
    ErrorsAreSelfSums(spans, trace);
  }

  lemma {:induction false} TokenColumnsAreSelfSums(traces: seq<TraceRow>, spans: seq<SpanRow>, trace: nat)
    requires WellFormedSpans(traces, spans)
    ensures TokenSum(spans, trace) == (SelfSum(spans, trace).prompt, SelfSum(spans, trace).completion)
    decreases |spans|
  {
    hide StatusAllowed;
    if spans != [] {
      TokenColumnsAreSelfSums(traces, spans[..|spans| - 1], trace);
    }
  }

  lemma {:induction false} ErrorsAreSelfSums(spans: seq<SpanRow>, trace: nat)
    ensures SelfSum(spans, trace).errors >= 0
    ensures HasError(spans, trace) <==> SelfSum(spans, trace).errors > 0
    decreases |spans|
  {
    if spans != [] {
      var front, last := spans[..|spans| - 1], spans[|spans| - 1];
      ErrorsAreSelfSums(front, trace);
      if HasError(front, trace) {
        var i :| 0 <= i < |front| && front[i].trace == trace && front[i].status == "ERROR";
        assert spans[i].trace == trace && spans[i].status == "ERROR";
      }
      if HasError(spans, trace) && !(last.trace == trace && last.status == "ERROR") {
        var i :| 0 <= i < |spans| && spans[i].trace == trace && spans[i].status == "ERROR";
        assert front[i].trace == trace;
      }
    }
  }

  ghost function IdsInTrace(spans: seq<SpanRow>, trace: nat): set<string> {
    set i | 0 <= i < |spans| && spans[i].trace == trace :: spans[i].spanId
  }

  lemma {:induction false} SelfSumOverIds(
    traces: seq<TraceRow>, spans: seq<SpanRow>, trace: nat, m: map<string, Counts>)
    requires DistinctSpans(spans)
    requires forall i | 0 <= i < |spans| :: spans[i].spanId in m && m[spans[i].spanId] == SelfOf(spans[i])
    ensures IdsInTrace(spans, trace) <= m.Keys
    ensures SelfSum(spans, trace) == SumOf(m, IdsInTrace(spans, trace))
    decreases |spans|
  {
    if spans != [] {
      var front, last := spans[..|spans| - 1], spans[|spans| - 1];
      SelfSumOverIds(traces, front, trace, m);
      var ids := IdsInTrace(front, trace);
      if last.trace == trace {
        assert IdsInTrace(spans, trace) == ids + {last.spanId};
        SumTakeOut(m, ids + {last.spanId}, last.spanId);
        assert ids + {last.spanId} - {last.spanId} == ids;
      } else {
        assert IdsInTrace(spans, trace) == ids;
      }
    }
  }

  ghost function RootIds(spans: seq<SpanRow>, trace: nat, n: nat): set<string>
    requires n <= |spans|
  {
    set i | 0 <= i < n && spans[i].trace == trace && IsRootRow(spans, spans[i]) :: spans[i].spanId
  }

  lemma {:induction false} RootSumOverIds(spans: seq<SpanRow>, trace: nat, n: nat, m: map<string, Counts>)
    requires DistinctSpans(spans) && n <= |spans|
    requires forall i | 0 <= i < |spans| :: spans[i].spanId in m && m[spans[i].spanId] == spans[i].cum
    ensures RootIds(spans, trace, n) <= m.Keys
    ensures RootSum(spans, trace, n) == SumOf(m, RootIds(spans, trace, n))
    decreases n
  {
    hide IsRootRow, RootIds;
    RootIdsStep(spans, trace, n);
    if n > 0 {
      var last := spans[n - 1];
      RootSumOverIds(spans, trace, n - 1, m);
      var ids := RootIds(spans, trace, n - 1);
      if last.trace == trace && IsRootRow(spans, last) {
        SumTakeOut(m, ids + {last.spanId}, last.spanId);
        assert ids + {last.spanId} - {last.spanId} == ids;
      }
    }
  }

  lemma {:induction false} RootIdsStep(spans: seq<SpanRow>, trace: nat, n: nat)
    requires DistinctSpans(spans) && n <= |spans|
    ensures n == 0 ==> RootIds(spans, trace, n) == {}
    ensures n > 0 && !(spans[n - 1].trace == trace && IsRootRow(spans, spans[n - 1])) ==>
              RootIds(spans, trace, n) == RootIds(spans, trace, n - 1)
    ensures n > 0 && spans[n - 1].trace == trace && IsRootRow(spans, spans[n - 1]) ==>
              && spans[n - 1].spanId !in RootIds(spans, trace, n - 1)
              && RootIds(spans, trace, n) == RootIds(spans, trace, n - 1) + {spans[n - 1].spanId}
  {
    hide IsRootRow;
  }

  lemma {:induction false} RowMembership(traces: seq<TraceRow>, spans: seq<SpanRow>, trace: nat, i: nat)
    requires Keyed(traces, spans) && 1 <= trace <= |traces| && i < |spans|
    ensures var f, id := ForestOf(traces, spans), spans[i].spanId;
            && id in f && f[id].self == SelfOf(spans[i])
            && (f[id].trace == traces[trace - 1].traceId <==> spans[i].trace == trace)
            && (id in Roots(f) <==> IsRootRow(spans, spans[i]))
  {
    hide ForestOf, SelfOf, StatusAllowed;
    ForestAt(traces, spans, i);
    ParentRow(traces, spans, i);
  }

  lemma {:induction false} IdsAreForestIds(traces: seq<TraceRow>, spans: seq<SpanRow>, trace: nat)
    requires Keyed(traces, spans) && 1 <= trace <= |traces|
    ensures var f, name := ForestOf(traces, spans), traces[trace - 1].traceId;
            && IdsInTrace(spans, trace) == (set id | id in f && f[id].trace == name)
            && RootIds(spans, trace, |spans|) == (set id | id in Roots(f) && f[id].trace == name)
  {
    hide ForestOf, Keyed, IsRootRow, Roots;
    var f, name := ForestOf(traces, spans), traces[trace - 1].traceId;
    forall i | 0 <= i < |spans|
      ensures var id := spans[i].spanId;
              && id in f && (f[id].trace == name <==> spans[i].trace == trace)
              && (id in Roots(f) <==> IsRootRow(spans, spans[i]))
    {
      RowMembership(traces, spans, trace, i);
    }
    RootsInForest(f);
    forall id | id in f
      ensures id in IdsInTrace(spans, trace) <==> f[id].trace == name
      ensures id in RootIds(spans, trace, |spans|) <==> id in Roots(f) && f[id].trace == name
    {
      KeyedDistinct(traces, spans);
      var i := RowOfId(traces, spans, id);
    }
  }

  lemma {:induction false} RootsInForest(f: Forest)
    ensures Roots(f) <= f.Keys
  {}

  lemma {:induction false} KeyedDistinct(traces: seq<TraceRow>, spans: seq<SpanRow>)
    requires Keyed(traces, spans)
    ensures DistinctSpans(spans)
  {}

  /**
   Write side and read side agree on every trace of sound tables: summing the roots' cumulative
   columns gives the listing's token sums, and is positive in errors exactly when the listing's
   error test holds.
   */
  lemma {:induction false} AggregatesAgree(db: Db, trace: nat)
    requires Sound(db) && 1 <= trace <= |db.traces|
    ensures var roots := RootSum(db.spans, trace, |db.spans|);
            && TokenSum(db.spans, trace) == (roots.prompt, roots.completion)
            && (HasError(db.spans, trace) <==> roots.errors > 0)
  {
    hide ForestOf, SelfOf, Acyclic, SubtreeSum, HasError, TokenSum, RootSum, SelfSum, RootIds, IdsInTrace, Roots,
      StatusAllowed;
    var f := ForestOf(db.traces, db.spans);
    var name := db.traces[trace - 1].traceId;
    TokensAreSelfSums(db.traces, db.spans, trace);
    IdsAreForestIds(db.traces, db.spans, trace);
    RootSumsCoverTrace(f, name);
    RootsInForest(f);
    forall i | 0 <= i < |db.spans|
      ensures db.spans[i].spanId in f && f[db.spans[i].spanId].self == SelfOf(db.spans[i])
    {
      RowMembership(db.traces, db.spans, trace, i);
    }
    SelfSumOverIds(db.traces, db.spans, trace, Selfs(f));
    RootSumOverIds(db.spans, trace, |db.spans|, SubtreeSums(f));
  }

  /** The filled columns of a listed trace are its roots' cumulative token columns summed, and their total. */
  lemma {:induction false} FilledAgrees(db: Db, v: TraceView, id: nat)
    requires Sound(db) && 1 <= id <= |db.traces| && Filled(v, id, db.spans)
    ensures var roots := RootSum(db.spans, id, |db.spans|);
            && v.id == id && v.tokenPrompt == roots.prompt && v.tokenCompletion == roots.completion
            && v.tokenTotal == roots.prompt + roots.completion
  {
    hide Sound, RootSum, TokenSum, HasError;
    AggregatesAgree(db, id);
  }

  /** After any run of inserts and batches that keeps the sums, the listing and the roots' columns agree. */
  lemma {:induction false} AggregatesAgreeOverRuns(calls: seq<C.Call>, trace: nat)
    requires C.CallsReturn(calls) && C.NoCallBreaks(calls) && 1 <= trace <= |C.CallRun(calls).db.traces|
    ensures var spans := C.CallRun(calls).db.spans;
            var roots := RootSum(spans, trace, |spans|);
            && TokenSum(spans, trace) == (roots.prompt, roots.completion)
            && (HasError(spans, trace) <==> roots.errors > 0)
  {
    hide C.CallsReturn, C.NoCallBreaks, C.CallRun, Sound, RootSum, TokenSum, HasError;
    C.CallRunIsSound(calls);
    AggregatesAgree(C.CallRun(calls).db, trace);
  }
}
