# Verified model of tracewell

A Dafny 4.11 model of the four stateful cores of tracewell, a collector and query server for LLM
traces, with proofs about all inputs, all runs and all interleavings. `dafny verify dfyconfig.toml`
verifies everything.

**Cumulative counters** (`Forest`, `Tables`, `Steps`, `Store`, `Runs`, `Orders`, `Batches`, `Calls`,
`CacheCoherence`, `CallCoherence`, `References`, `CallReferences`, `Reports`, `ReadSide`,
`StoreWitnesses`). `Store.Store` is a class over the three tables, the project cache and the stack
of savepoints. Its methods follow the statements of the Go code and are proved equal to the step
functions of `Tables`, faults included: every statement may fail. About these functions the other
modules prove that each row's cumulative columns are the sums over its subtree, that the final rows
are a closed form of the set of stored spans and so do not depend on arrival order or on grouping
into batches, that batches refine single inserts and exactly when a refused rollback makes them
break the sums, when the project cache goes stale and what traces then refer to, and that listings
computed from self columns agree with the cumulative columns. A *run* in `Runs` and `Orders` is any
sequence of calls of `InsertSpan`; a run in `Calls` and `CallCoherence` mixes `InsertSpan` and
`InsertSpans`.

**Attribute trie** (`Keys`, `Trie`, `Tracks`, `TrieNode`, `Materialize`, `Unflatten`, `Emission`,
`Losses`, `UniformKeys`, `Arrays`, `RoundTrip`, `TopLevel`, `Words`, `WordWalk`, `Witnesses`,
`Semconv`, `ReadKeys`, `Pipeline`). `TrieNode.TrieNode` is the heap trie, changed in place; it and
the materialization loops of `Unflatten` are proved to compute the value-level functions of `Trie`
and `Materialize`. About these: exactly which values are emitted and where, exactly when a later key
takes an earlier value away, losslessness and order independence for uniform keys, the
flatten/unflatten round trip, and what GenAI synthesis followed by extraction reads, for any
attributes.

**Batcher** (`Batcher`, `Ingestion`). A step relation over arbitrary interleavings of senders,
timer, close and the single writer, and the writer loop over its reused batch array on top of the
store.

**Pagination** (`Ordering`, `Paging`, `TracePages`, `IdPages`). Whole walks of pages under the
keyset discipline of traces and under the overlapping discipline of spans and projects.

**Timestamps** ties the first and the last together: when comparing the trimmed-fraction texts that
are stored is comparing instants.

## Where code and comments disagree

The model follows the code.

- `internal/store/span_insert.go:140` calls a duplicate span a no-op. Its trace row and project have
  been upserted by then; `Runs.DuplicateIsNoOpIff` says exactly when nothing changes, and
  `StoreWitnesses.DuplicateChangesRows` is a case where both change.
- `internal/store/span_insert.go:224` fills the project cache inside a transaction that may roll back;
  the entry then names a row another project receives (`CacheCoherence.StrandedIdIsReused`), and
  traces of the first are filed under the second (`References.StrandedTraceIsMisfiled`).
- `internal/store/span_batch.go:56-60` means to keep the batch alive after rolling one span back, but
  ignores whether that rollback succeeded. If it did not, a row can commit whose ancestors never got
  its counts (`Batches.ItemSoundIff`, `StoreWitnesses.RefusedRollbackBreaksSums`).
- `internal/attrs/unflatten.go:68-70` wants one track per node. Index and branch tracks can both be
  populated, and even hold the same number (`Witnesses.TracksCollide`); such a node without a value
  emits only its branches (lines 235-239). Indices of the root are never emitted (lines 209-215).
- `internal/attrs/unflatten.go:182` says that the last write wins on repeats. It need not: when the
  two writes went to different tracks, a later demotion brings the first back
  (`Witnesses.StaleValueReturns`). It does on keys without numerals (`Words.OverwrittenWordIsLost`)
  and as long as no key splits a number over both tracks (`Losses.OverwrittenIsLost`);
  `Losses.StaleEmittedIff` says exactly when it does not.
- `internal/semconv/genai.go:94-96` lets explicit convention attributes win over synthesized ones.
  So does a longer key: `llm.token_count.prompt.0.x` makes the prompt count a list, which hides the
  gen_ai count and cannot be read (`Pipeline.ListHidesCount`).
- `internal/api/queries.go:100-101` describes the listing's bounds as bounds on time. They compare
  texts, so a start that shares a second with a bound can fall on the wrong side
  (`TracePages.LowerBoundErrs`).
- `internal/api/queries.go:121-122` says cursor values contain no colon. Timestamps do; decoding is
  right anyway because it splits at the last one (`TracePages.DecodeOfEncode`).
- `internal/api/span_queries.go:43` calls the cursor the first row of the next page. It is the last
  row kept, so pages overlap, and a limit of one never gets past the first row
  (`IdPages.WalkEndsIff`).
- `internal/api/queries.go:160` says the stored texts sort chronologically. They do unless two share
  a second and one fraction begins the other (`Timestamps.TextOrderIsTimeOrderIff`); a trace's
  stored start then need not be its earliest one (`Orders.StartIsEarliestIff`,
  `StoreWitnesses.StartIsNotEarliest`).
- `internal/collector/batcher.go:102-104` speaks of one transaction and savepoints. `flush` calls
  `InsertSpan` span by span (line 112), one transaction each.
- A synthesized token total stays when an explicit count replaces one of its summands, so the total
  reported need not be the sum of the counts reported (`Semconv.TotalIsTheSumIff`,
  `Semconv.TotalIsNotTheSum`).

## Hypotheses

The ancestor query uses `UNION ALL`, so an insert returns only if the parent chain of the new span
ends. `Returns` says that of every insert of a run, `CallsReturn` of every insert of a mixed run.
`Forest.AcyclicIffNewChainEnds` shows that this is what keeps the links acyclic, and
`Orders.ReturnsIfAcyclic` that it holds whenever the offered spans have acyclic links. Order
independence supposes that equal span ids carry equal spans. Of spans that the store refuses in any
order, unserializable ones and those of a status the schema rejects, neither is supposed.

What any pairs leave in the output is stated by place, that is by path and track (`Tracks`,
`Emission`, `Losses.HeldByWriter`, `Losses.EmittedIff`). `NeverSplits`, in the statements by key
alone, is exact: `Losses.DisjointThroughoutIff` proves that the tracks stay disjoint if and only if
nothing splits.

## Model

| member | source | states |
|---|---|---|
| Forest.EndsIffNoCycleAbove | internal/store/span_insert.go:228-251 | The ancestor walk from a span comes to an end if and only if no span it reaches lies on a cycle of parent links. |
| Forest.AcyclicIffNewChainEnds | internal/store/span_insert.go:228-251 | Inserting a span into an acyclic forest keeps it acyclic if and only if the walk from the new span ends. |
| Forest.InsertedSums | internal/store/span_insert.go:102-152 | With a new span, its subtree sum is its own counts plus its children's sums, each span it reaches gains exactly that sum, and no other span's sum changes. |
| Forest.RootSumsCoverTrace | internal/store/span_insert.go:102-152 | In an acyclic forest the subtree sums of a trace's roots add up to the self counts of all its spans. |
| Steps.CumIsSubtreeSum | internal/store/span_insert.go:102-118 | Self counts plus the absorbed totals of direct children already stored are the new span's whole subtree sum. |
| Steps.PersistKeepsIndexed | internal/store/span_insert.go:120-152 | Storing a span and raising its ancestors re-establishes, for every row, that the cumulative columns are the subtree sum; the parent forest gains just the new span. |
| Steps.InsertKeepsSound | internal/store/span_insert.go:58-154 | One insert, whichever statement fails, keeps keys distinct and all subtree sums right; the forest changes only for a new span that committed. |
| Store.Store.EnsureProject | internal/store/span_insert.go:201-226 | Result, projects table and cache after the call, for hit, row found, row created, and a failing SELECT or INSERT. |
| Store.Store.UpsertTrace | internal/store/span_insert.go:158-197 | Result and traces table after the call: range widened on either side by text comparison, or a new row, or a failing statement. |
| Store.Store.SumChildren | internal/store/span_insert.go:102-113 | The three sums over the trace's rows whose parent is the span. |
| Store.Store.Ancestors | internal/store/span_insert.go:235-243 | If the chain ends, the recursive query stops, yields the k-th ancestor at place k up to the last one persisted, and no row twice. |
| Store.WalkIsComplete | internal/store/span_insert.go:235-243 | A walk that has ended has met exactly the persisted spans its start reaches through parent links. |
| Store.WalkIsSimple | internal/store/span_insert.go:235-243 | Two places of an ending walk hold different rows. |
| Store.Store.PropagateToAncestors | internal/store/span_insert.go:231-251 | Adds the totals once to exactly the rows found above and leaves all other rows and columns alone. |
| Store.Store.InsertSpanTx | internal/store/span_insert.go:87-154 | The tables, the cache and the error after the call are those of the step function, for success, duplicate and every failing statement. |
| Store.Store.InsertSpan | internal/store/span_insert.go:58-69 | The same for the whole transaction: on any error, begin and commit included, the tables are back to what they were while the cache is not. |
| Store.Store.InsertSpanSavepoint | internal/store/span_batch.go:53-68 | Tables, cache and error after one savepoint, also when savepoint, rollback or release fail; outer savepoints are untouched. |
| Store.Store.FillNil | internal/store/span_batch.go:39-45 | A commit error goes to exactly the entries that have none yet. |
| Store.Store.InsertSpans | internal/store/span_batch.go:23-47 | Tables, cache and error vector of a batch are the fold of the savepoint steps, undone as a whole when begin or commit fails. |
| Runs.SubtreeSumsOverRuns | internal/store/span_insert.go:71-154 | On every run of InsertSpan from empty tables, in any order, with duplicates, several traces and failures, each row's cumulative columns equal the sum of self counts over itself and all persisted spans below it. |
| Runs.RunIsSound | internal/store/span_insert.go:71-154 | After every run of InsertSpan span ids, trace ids and project names are distinct, span rows refer to existing trace rows, parent links are acyclic and all sums are right. |
| Runs.CommittedAreCovered | internal/store/span_insert.go:156-197 | Every committed span still has its row, its project in the cache, and a trace row whose text range covers its times, however the run goes on. |
| Runs.RetryIsNoOp | internal/store/span_insert.go:139-143 | Offering a committed span again with the same content and project changes no row of any table, and not the cache. |
| Runs.DuplicateIsNoOpIff | internal/store/span_insert.go:139-143 | A duplicate span id changes no table if and only if its project is known and some trace row of its trace id already covers its times. |
| Orders.NewSpanIsStored | internal/store/span_insert.go:120-138 | A new span that commits has exactly one row, the last. Its name, kind, texts of start and end, attributes, events, status, message and token columns are the span's, its parent is NULL just if the span has none, its trace is the span's; of the other rows only cumulative columns change. |
| Orders.RowComesFrom | internal/store/span_insert.go:120-138 | After every run each row has, column by column, what a committed span has, and belongs to that span's trace. |
| StoreWitnesses.DuplicateChangesRows | internal/store/span_insert.go:139-143 | A repeated span id with an earlier time and another project changes the trace row and the projects table, and no span row. |
| Orders.RowsInClosedForm | internal/store/span_insert.go:87-154 | The rows at the end of any run are the closed form of the set of committed spans: own columns from the span, cumulative ones from the forest of the set. |
| Orders.FinalSpan | internal/store/span_insert.go:120-138 | A row of the closed form has, column by column, what its span has, with the span's subtree sum in the cumulative columns. |
| Orders.RangesOverRuns | internal/store/span_insert.go:158-197 | A trace's start and end are the text minimum and maximum over all committed spans of its trace id, and are attained. |
| Orders.RangeIsUnique | internal/store/span_insert.go:158-197 | A set of spans leaves only one start text and one end text for a trace id. |
| Orders.StartIsEarliestIff | internal/store/span_insert.go:168-175 | Some committed span of the trace starts before the stored start if and only if one starts in its second with a fraction that begins its fraction. |
| Orders.EndIsLatestIff | internal/store/span_insert.go:176-182 | Some committed span of the trace ends after the stored end if and only if one ends in its second with a fraction that its fraction begins. |
| StoreWitnesses.StartIsNotEarliest | internal/store/span_insert.go:168-175 | A span on the whole second and one half a second later: the stored start is the later one. |
| Orders.OrderIndependence | internal/store/span_insert.go:87-197 | Two runs that committed the same spans end with the same span rows and the same trace ranges. |
| Orders.ReturnsIfAcyclic | internal/store/span_insert.go:231-251 | If the spans ever offered that can be stored have acyclic links and one content per id, every insert of the run returns, whatever fails. |
| Orders.ArrivalOrderDoesNotMatter | internal/store/span_insert.go:87-197 | Two sequences without refused statements offering the same spans, in any order and with any repetitions, end with the same span rows and ranges: the closed form over those spans that can be stored, whose links are acyclic. The others leave nothing. |
| CacheCoherence.CoherentStepIff | internal/store/span_insert.go:201-226 | A coherent cache stays coherent in a step if and only if the step does not strand a project: the project is new, the insert gets as far as creating it, and it then comes to a refused statement or has a bad status. |
| CacheCoherence.StrandsIff | internal/store/span_insert.go:87-154 | That condition on state, span and refused statement is exactly when the call leaves a new name cached and not in the table. |
| CacheCoherence.FaultlessStrandsIff | internal/store/span_insert.go:120-138 | Without a refused statement an insert strands its project if and only if the project is new, the span can be serialized and its status violates the schema. |
| CacheCoherence.StrandedEntry | internal/store/span_insert.go:224 | Such a step leaves the tables as they were and the cache with the rowid that the vanished row had. |
| CacheCoherence.StrandedIdWaits | internal/store/span_insert.go:201-226 | The stranded entry keeps that rowid through all later arrivals. |
| CacheCoherence.StrandedIdIsReused | internal/store/span_insert.go:201-226 | The next new project, whatever arrives in between without creating one, receives the stranded rowid: both names map to it, and the table has the new name there. |
| CacheCoherence.StrandedStaysMissing | internal/store/span_insert.go:201-205 | A cached name without a row stays without one, whatever arrives later. |
| CacheCoherence.CoherentOverRuns | internal/store/span_insert.go:30-41 | After a run of InsertSpan the cache agrees with the projects table if and only if no arrival stranded its project. |
| CallCoherence.BatchIsRun | internal/store/span_batch.go:31-36 | As long as no item spills, the state inside a batch, cache included, is that of single inserts of its items, whatever statements fail. |
| CallCoherence.ItemIsArrivalIff | internal/store/span_batch.go:53-68 | One item leaves the cache of a single insert always, and its tables if and only if it does not spill: fail, be refused its rollback, and have created a project or changed a trace or span row by then. |
| CallCoherence.CoherentCallIff | internal/store/span_batch.go:23-47 | A call of either kind keeps the cache coherent if and only if it does not strand a project: for a batch, no item strands its project by a rollback that goes through, or, if the commit fails, no item creates one. |
| CallCoherence.CoherentOverCalls | internal/store/span_batch.go:23-47 | After any mixed run, refused rollbacks included, the cache agrees with the table if and only if no call stranded a project. |
| References.SessionIsFirst | internal/store/span_insert.go:158-197 | On every run of InsertSpan a trace row has the session of the first committed arrival of its trace. |
| References.ProjectIsFirst | internal/store/span_insert.go:158-197 | On every run of InsertSpan that strands no project, a trace row refers to an existing project row, that of the first committed arrival of its trace. |
| CallReferences.ProjectIsFirstStored | internal/store/span_batch.go:23-47 | After a mixed run that strands no project and spills no rows, lost batches included, a trace row refers to the existing project row of the first of its spans that was stored. |
| References.StrandedTraceDangles | internal/store/span_insert.go:93-100 | After a stranding, and until a project is created, a new trace of that project refers to the rowid past the end of the table. |
| References.StrandedTraceIsMisfiled | internal/store/span_insert.go:93-100 | Once another project has that rowid, a new trace of the stranded one refers to the other's row. |
| StoreWitnesses.RetryDangles | internal/store/span_insert.go:224 | From empty tables, a refused commit strands its project, and the retry of the same span commits a trace that refers to no project row. |
| StoreWitnesses.BadStatusStrands | internal/store/span_insert.go:120-138 | So does a first span with a status the schema rejects, without any refused statement. |
| StoreWitnesses.TraceIsMisfiled | internal/store/span_insert.go:201-226 | Three arrivals that leave a trace sent for one project under another. |
| Batches.SavepointRefinesInsert | internal/store/span_batch.go:50-68 | A savepoint whose own statements succeed has the tables, cache and error of a single InsertSpan. |
| Batches.BatchRefinesOneByOne | internal/store/span_batch.go:15-47 | If begin, savepoints, releases and commit succeed, a batch has the tables, cache and errors of InsertSpan on the items in order. |
| Batches.FailedItemLeavesTables | internal/store/span_batch.go:56-64 | An item that reports an error leaves the tables as they were before it, unless its rollback or its release failed. |
| Batches.LostBatchReportsAll | internal/store/span_batch.go:25-46 | A failed begin or commit leaves all tables unchanged and every entry an error, earlier errors kept. |
| Reports.InsertReports | internal/store/span_insert.go:58-154 | InsertSpan reports the first thing it comes to that fails, in the order begin, serialization, project, trace, child sums, row or status, propagation, commit, and no error exactly if none does. |
| Reports.ItemReports | internal/store/span_batch.go:53-68 | A batch item reports nothing if and only if its SAVEPOINT, its insert and the RELEASE after it all went through, and otherwise what failed. |
| Reports.BatchReports | internal/store/span_batch.go:23-47 | Entry k of the error vector is item k's report in the state the items before it left; a failed begin replaces all entries, a failed commit fills the empty ones. |
| Batches.ItemSoundIff | internal/store/span_batch.go:53-68 | One batch item keeps all subtree sums right if and only if it is not this one: new row in, propagation refused, rollback refused too, and counts to pass to a persisted parent or no end to the chain. |
| Batches.BatchedSoundIff | internal/store/span_batch.go:31-36 | Inside a batch the tables stay sound up to the first such item, and are not sound right after it. |
| Batches.BatchKeepsSound | internal/store/span_batch.go:23-47 | A batch on sound tables leaves sound tables if it is lost as a whole or has no such item, whatever else fails, releases included. |
| Batches.RollBacksSuffice | internal/store/span_batch.go:56-62 | If every rollback succeeds there is no such item. |
| StoreWitnesses.RefusedRollbackBreaksSums | internal/store/span_batch.go:56-62 | A batch of one ERROR child under a stored root, with the UPDATE and the rollback refused, turns sound tables into unsound ones. |
| Calls.CallRunIsSound | internal/store/span_batch.go:15-47 | After every run that mixes InsertSpan and InsertSpans, none of whose batches has such an item, the tables are sound. |
| Calls.SubtreeSumsOverCalls | internal/store/span_batch.go:15-47 | So each row's cumulative columns equal the sum of self counts over itself and all persisted spans below it. |
| Calls.ItemKeepsRowsIff | internal/store/span_batch.go:53-68 | An item that does not get through leaves span and trace rows alone if and only if it does not spill them: it fails, is refused its rollback, and its upsert changed a trace or its new row awaits propagation. |
| Calls.FollowsItems | internal/store/span_batch.go:31-36 | Inside a batch the rows are those of such a faultless run up to the first item that spills rows, and not right after it. |
| Calls.CallsFollowInserts | internal/store/span_batch.go:15-47 | Whatever statements fail, as long as no item spills rows, a mixed run leaves the span rows and trace rows, up to project, of a faultless run of InsertSpan over the spans that were stored. |
| Calls.CallRowsInClosedForm | internal/store/span_batch.go:15-47 | In such a mixed run the span rows are the closed form of the set of stored spans. |
| Calls.GroupingDoesNotMatter | internal/store/span_batch.go:15-47 | Two such mixed runs that stored the same spans, in any order and grouping, end with the same span rows and trace ranges. |
| ReadSide.GroupTokens | internal/api/queries.go:265-284 | The grouped query has an entry for exactly the requested traces with LLM rows, holding their token sums. |
| ReadSide.FillTokenCounts | internal/api/queries.go:259-296 | Every listed trace keeps its id and ends with the prompt sum, the completion sum and the sum of both over its LLM rows, zeros without LLM rows. |
| ReadSide.TokensAreSelfSums | internal/api/queries.go:256-271 | Token sums over LLM rows are the self counts summed over all rows, and an ERROR row exists exactly if the self error counts sum to more than zero. |
| ReadSide.AggregatesAgree | internal/api/queries.go:182-188 | In sound tables the listing's token sums equal the roots' cumulative token columns summed, and the error test holds if and only if their cumulative error counts sum to more than zero. |
| ReadSide.FilledAgrees | internal/api/queries.go:288-294 | In sound tables the three columns filled in are the roots' cumulative prompt counts summed, their completion counts summed, and the total of both. |
| ReadSide.AggregatesAgreeOverRuns | internal/api/queries.go:259-296 | The same for every trace after every mixed run that keeps the sums. |
| Timestamps.TextOrderIsTimeOrderIff | internal/store/span_insert.go:169-182 | For distinct instants of years 0 to 9999, text order is time order if and only if they do not share a second with one trimmed fraction a proper prefix of the other. |
| Timestamps.PrefixReverses | internal/store/span_insert.go:299-301 | In that case the earlier instant has the greater text. |
| Timestamps.WholeSecondSortsLast | internal/store/span_insert.go:299-301 | A whole second is earlier than, and its text greater than, every other instant of that second. |
| Timestamps.SameWidthSortsByTime | internal/api/queries.go:135-137 | Texts with fractions of one width, the case of section 5.1 of RFC 3339, sort by time. |
| Timestamps.FormatTimeInjective | internal/store/span_insert.go:299-301 | Different instants have different texts. |
| Timestamps.SecondReadsBack | internal/store/span_insert.go:299-301 | Year, month, day, hour, minute and second stand zero-padded at their places, between the separators of RFC 3339. |
| Timestamps.FractionReadsBack | internal/store/span_insert.go:299-301 | After the second comes nothing for a whole second, otherwise a point and the nanoseconds without trailing zeros, and then Z. |
| Paging.ScanPage | internal/api/queries_helpers.go:27-46 | Given the first error of a row or of the result set it returns that; otherwise at most limit rows and a flag that is set exactly if there were more. |
| Paging.ScannedIs | internal/api/queries_helpers.go:30-39 | Scanning ends in the error of the first row that fails, or in that of the result set if no row does, or in the values of all rows. |
| Paging.PagesInClosedForm | internal/api/queries_helpers.go:27-46 | Taking limit rows a page, n rows need one page if n is zero and n/limit rounded up otherwise. |
| Ordering.SortFilter | internal/api/queries.go:203-206 | Under a strict order that decides all rows, sorting what a filter keeps is filtering what was sorted. |
| TracePages.DecodeOfEncode | internal/api/queries.go:117-133 | Decoding an encoded cursor gives back sort value and rowid, for every sort value, colons included, and every 64-bit rowid. |
| TracePages.DecodesIff | internal/api/queries.go:123-133 | A cursor decodes to a sort value and a rowid if and only if it is that value, a colon, and a 64-bit numeral of that rowid without colons. |
| TracePages.BadCursorIff | internal/api/queries.go:189-193 | A request is answered by the cursor error if and only if its cursor is not empty and does not decode. |
| TracePages.ListTraces | internal/api/queries.go:154-254 | One request's answer, page, next cursor or bad-cursor error, as a function of table, filter, limit and cursor. |
| TracePages.SelectedIsSorted | internal/api/queries.go:171-206 | The listed rows are strictly ordered by start text and id in the asked direction and are exactly those the filter keeps. |
| TracePages.ListedOrder | internal/api/queries.go:200-206 | Of two listed rows the first has the smaller start text, or the greater if descending; on equal texts the rowids decide in the same direction. |
| TracePages.PastIsRest | internal/api/queries.go:189-196 | The tuple comparison with a row's cursor selects exactly the rows after it. |
| TracePages.BoundIsByTimeIff | internal/api/queries.go:173-187 | Comparing a start with a bound as texts is comparing the instants if and only if they do not share a second with one fraction a proper prefix of the other. |
| TracePages.FilterIsByTime | internal/api/queries.go:173-187 | The listing's text bounds keep the traces that bounds on the instants would, wherever no start shares a second with a bound in such a way that one fraction begins the other. |
| TracePages.LowerBoundErrs | internal/api/queries.go:174-177 | Where a start does so with the lower bound, the filter decides against the instants. |
| TracePages.ListedOutOfTimeIff | internal/api/queries.go:160 | Two rows of the listing, in either direction, are out of time order if and only if they share a second and one fraction begins the other. |
| TracePages.PageAt | internal/api/queries.go:154-254 | A request with the cursor left after k rows returns the page that starts at row k. |
| TracePages.WholeWalk | internal/api/queries.go:146-153 | Following cursors from the empty one gives exactly the filtered rows in order, each once, in max(1, n/limit rounded up) requests, for either direction and any limit from one. |
| TracePages.WalkExists | internal/api/queries.go:245-253 | From any place the walk can be followed to its end. |
| IdPages.ListSpans | internal/api/span_queries.go:51-112 | One request's page and next cursor, the id of its last kept row, as a function of table, filter, limit and cursor. |
| IdPages.ListProjects | internal/api/queries.go:38-64 | The same page discipline for projects, with the handler's cursor. |
| IdPages.SelectedIsSorted | internal/api/span_queries.go:89-101 | The listing holds exactly the rows of the table that the filter keeps, by strictly falling id. |
| IdPages.UpToIsRest | internal/api/span_queries.go:84-87 | Ids up to a row's id select that row and all after it, not only those after it. |
| IdPages.WalkOverlaps | internal/api/span_queries.go:84-111 | For a limit of two or more, neighbouring pages of a walk share exactly one row, all rows are visited in order, and the number of pages is fixed. |
| IdPages.WalkShowsTable | internal/api/span_queries.go:84-111 | For a limit of two or more, the rows on all pages of a walk from the start are exactly the rows of the table that the filter keeps. |
| IdPages.LimitOneStalls | internal/api/handlers.go:85-88 | With limit one and more rows to come, a cursor returns its own row and itself. |
| IdPages.WalkEndsIff | internal/api/span_queries.go:107-111 | A walk that ends exists if and only if the limit is two or more or there is at most one row. |
| IdPages.OverlapPagesInClosedForm | internal/api/span_queries.go:84-111 | The number of pages of such a walk: one for a single row, otherwise (n-1)/(limit-1) rounded up. |
| Batcher.ConservedAlways | internal/collector/batcher.go:59-122 | Over all interleavings, spans handed on, current batch and channel contents are together what was sent, in order; the batch stays below 128 between passes, the channel within 1000, each request in order. |
| Batcher.SendsGoThrough | internal/collector/batcher.go:54-63 | From any behaviour that has not closed, as many sends of a request as it has spans left and the channel has room for go through in a row, and append these spans to the channel in order. |
| Batcher.SendsUnlessFull | internal/collector/batcher.go:54-63 | Before Close, a sender with spans left is held up if and only if the channel holds 1000. |
| Batcher.TickFlushes | internal/collector/batcher.go:93-97 | At any moment, closed or not, a tick on a started batch can be followed through: it hands on exactly the batch, in order, and the writer selects again with an empty batch. |
| Batcher.ReceiveFlushesIfFull | internal/collector/batcher.go:88-92 | A span received is appended to the batch; if it is the 128th all 128 are handed on in order and the batch is empty. |
| Batcher.CanFinish | internal/collector/batcher.go:54-100 | Every behaviour that has not closed can be continued until all spans of all requests are sent and the writer has exited. |
| Batcher.ClosedLosesNothing | internal/collector/batcher.go:65-70 | Once the writer has exited, what was sent has been handed to InsertSpan exactly once, each request's spans in their order. |
| Batcher.CloseMakesProgress | internal/collector/batcher.go:65-100 | After close the writer has exited or can move, each of its moves lowers the remaining work and nothing raises it. |
| Batcher.CloseReturns | internal/collector/batcher.go:65-100 | After close no continuation has more writer steps than there was work, and one that has as many ends with the writer gone. |
| Batcher.CloseCanReturn | internal/collector/batcher.go:65-100 | From every closed state the writer's steps alone lead there. |
| Batcher.NeverDeadlocked | internal/collector/batcher.go:54-63 | When a full channel blocks senders the writer can move. |
| Ingestion.BatchWriter.Flush | internal/collector/batcher.go:105-122 | Hands the batch to InsertSpan one by one: the store advances by exactly these spans, failing ones skipped. |
| Ingestion.BatchWriter.Loop | internal/collector/batcher.go:74-100 | However ticks and spans alternate, the store ends as if each received span had been inserted in turn, and after each pass holds exactly what has been flushed by then: all that was received if the pass was a tick, and never 128 less. |
| Ingestion.AllAreHanded | internal/collector/batcher.go:54-70 | When every request has been sent and Close has returned, the spans handed on are exactly those of all requests. |
| Ingestion.LoopSawWhatWasHanded | internal/collector/batcher.go:74-100 | Once the writer has exited, what its loop received is what was handed on, in order. |
| Ingestion.HandedIsFlushed | internal/collector/batcher.go:74-100 | Whenever the writer selects, what the state machine has handed on is as much as the loop has flushed on the same events. |
| Ingestion.SomeBehaviourFinishes | internal/collector/batcher.go:54-70 | For any requests there is a behaviour that sends everything and ends with Close returned. |
| Ingestion.PipelineInClosedForm | internal/collector/batcher.go:54-122 | When every request has been sent and Close has returned, whatever inserts failed, the inserts of what the loop received all returned and left the closed form over the spans committed, which are among the storable ones of the requests, and trace rows with their ranges. Supposes acyclic links and one content per id among the storable spans. |
| Ingestion.PipelineIsDeterministic | internal/collector/batcher.go:54-122 | If moreover no statement is refused, two behaviours over the same spans, however they interleave and cut batches, end with the same span rows, the closed form over the storable spans, and the same trace ranges. |
| Keys.ParseDigit | internal/attrs/unflatten.go:113-125 | Accepts exactly canonical numerals, with their value. |
| Keys.ParsePlainInt | internal/attrs/unflatten.go:138-150 | Accepts exactly digit strings, leading zeros included, with their value. |
| Keys.SegmentsOf | internal/attrs/unflatten.go:192-201 | The segments of a key: split at dots, trimmed, empty ones dropped, numerals normalized. |
| Keys.JoinOfSplit | internal/attrs/unflatten.go:192-194 | The parts of a key, none of which has a dot (SplitIsFree), joined by dots are the key. |
| Keys.SegmentsOfParts | internal/attrs/unflatten.go:194-200 | Part by part and in order: one that trims to nothing is dropped, any other gives its trimmed and normalized form. |
| Keys.TrimMeaning | internal/attrs/unflatten.go:203-205 | Trimming cuts off spaces on both sides, all of them, and nothing else. |
| Keys.CanonicalSegValue | internal/attrs/unflatten.go:130-135 | Normalizing a digit string gives the canonical numeral of the same value; other segments stay. |
| Keys.PathIsGood | internal/attrs/unflatten.go:191-201 | Every key's path is canonical: no empty, untrimmed, dotted or zero-padded segment. |
| Keys.PathOfJoin | internal/attrs/unflatten.go:191-205 | A canonical path's dotted spelling denotes that path, so distinct paths are spelled apart. |
| Trie.AddKeepsShape | internal/attrs/unflatten.go:42-106 | Every add keeps index children unvalued, every child valued or with children, and every branch key canonical. |
| Trie.GrownIsShaped | internal/attrs/unflatten.go:153-167 | So does every sequence of pairs. |
| Trie.AddKeepsDisjointIff | internal/attrs/unflatten.go:59-106 | An add keeps index and branch numbers disjoint if and only if it does not go on by a number that is an index beside some branch. |
| Trie.AddLookup | internal/attrs/unflatten.go:152-167 | The effect of one add on all paths: the added path holds the new value, paths whose index subtree it displaces hold nothing, all others what they held. |
| TrieNode.TrieNode.Step | internal/attrs/unflatten.go:59-106 | The in-place step returns the child, and leaves the node graph standing for the trie, that the value-level step says. |
| TrieNode.TrieNode.SetValue | internal/attrs/unflatten.go:42-52 | The in-place demotion moves the index children over the branches under their numerals and sets the value. |
| TrieNode.TrieNode.AddFrom | internal/attrs/unflatten.go:152-167 | Adding a path to the node graph, in place, is adding it to the trie it stands for; the graph stays a tree. |
| Unflatten.InsertionSort | internal/attrs/unflatten.go:275-279 | The in-place sort leaves an ascending permutation. |
| Unflatten.SortedIndices | internal/attrs/unflatten.go:270-281 | The keys of the index map in ascending order. |
| Unflatten.MaterializeInto | internal/attrs/unflatten.go:219-240 | Adds to the map exactly the entries a node writes under a key, in whatever order maps are walked. |
| Unflatten.MaterializeValue | internal/attrs/unflatten.go:242-268 | The array of the indices if there are only indices, otherwise the map of the branches. |
| Unflatten.UnflattenPairs | internal/attrs/unflatten.go:183-189 | Pairs to output end to end on the heap trie: the result is one function of the pair sequence, so map iteration inside it does not matter. |
| Tracks.AddAt | internal/attrs/unflatten.go:42-106 | The exact effect of one add on every place of any trie, tracks told apart: the key's place holds the new value, and every other place holds what one given place held before, or nothing. |
| Tracks.BeforeNames | internal/attrs/unflatten.go:42-52 | Values move between tracks in an add, never to a place spelled otherwise. |
| Emission.RootSpotFinds | internal/attrs/unflatten.go:209-268 | A place that has a spot in the output is emitted at that spot with the value it holds. |
| Emission.RootSpotIff | internal/attrs/unflatten.go:209-240 | A place that holds a value has a spot if and only if it starts by a branch of the root and below it neither takes an index beside branches of an unvalued node, nor ends in the entry of a branch that an index of a valued node overwrites. |
| Emission.LeafOfRoot | internal/attrs/unflatten.go:209-268 | Conversely, when all values are scalars, every scalar of the output is the value of a place at that place's spot. |
| Losses.HeldByWriter | internal/attrs/unflatten.go:153-187 | For any pairs, a place of the trie holds the value of the pair traced back through all adds, whose key spells that place, and nothing if there is none. |
| Losses.SpotOfHeld | internal/attrs/unflatten.go:209-268 | A held value of any kind has a spot just if its place surfaces, and the output has it there. |
| Losses.EmittedIff | internal/attrs/unflatten.go:183-240 | For any pairs of scalars, a value that no other pair carries is in the output if and only if some place still holds it that starts by a root branch and is not gone below it. |
| Losses.OutputComesFromPairs | internal/attrs/unflatten.go:183-268 | For any pairs of scalars, no scalar of the output is invented: each is the value of the pair traced back from the place whose spot it is at, whose key spells that place. |
| Losses.OverwrittenIsLost | internal/attrs/unflatten.go:182 | As long as no pair splits a number over both tracks the last write wins: a scalar of its own that a later pair of the same path overwrites is not in the output. |
| Losses.StaleEmittedIff | internal/attrs/unflatten.go:182 | Of any pairs, such an overwritten value is in the output if and only if some place of its path that surfaces still holds it, which takes a split. |
| Losses.DisjointThroughoutIff | internal/attrs/unflatten.go:59-106 | The tracks of the trie are disjoint after every prefix of the pairs if and only if no pair splits a number over both. |
| Losses.LastValueKept | internal/attrs/unflatten.go:153-167 | The trie holds each path's last value unless a later pair took its index subtree away, and then nothing. |
| Losses.LastValueAt | internal/attrs/unflatten.go:209-268 | A path's last value of any kind is at its address, which it has under just the conditions of LastValueEmittedIff. |
| Losses.TakingAwayIsEndingInANumeral | internal/attrs/unflatten.go:95-99 | Without splits a pair takes a path away only by ending in a numeral on that path's way. |
| Losses.LastValueEmittedIff | internal/attrs/unflatten.go:183-240 | In terms of keys: a path's last value, if no other pair carries it, is in the output if and only if no later pair took it away, it starts by a root branch, and no unvalued node on its way has it as an index beside branches. |
| Words.GrownFits | internal/attrs/unflatten.go:42-106 | For any pairs and any path without numerals, the node there exists, is valued, and has one track or the other, exactly as the last writes alone call for. |
| Words.OverwrittenWordIsLost | internal/attrs/unflatten.go:182 | On a path without numerals an overwritten scalar of its own is never in the output, whatever other keys do. |
| UniformKeys.AddToBuild | internal/attrs/unflatten.go:54-106 | Adding to the trie built from a uniform content gives the trie built from the updated content. |
| UniformKeys.GrownIsBuilt | internal/attrs/unflatten.go:183-187 | On uniform keys the trie is the one built from the last value of each path. |
| UniformKeys.PermutationIndependent | internal/collector/decode.go:74-78 | With distinct uniform keys every order of the pairs grows the same trie. |
| Arrays.EveryPathIsFound | internal/attrs/unflatten.go:242-281 | For uniform keys of which none is a prefix of another and none starts with an array position, every value is found by its segments, each array position replaced by its rank among its siblings. |
| Arrays.SameOutputInAnyOrder | internal/collector/decode.go:74-78 | With distinct uniform keys every order of the pairs gives the same output. |
| Arrays.UniformNeverSplits | internal/attrs/unflatten.go:68-70 | If all keys agree, node by node, on array or map, no pair splits a number over both tracks. |
| Witnesses.OrderMatters | internal/attrs/unflatten.go:235-239 | docs.1.content before docs.0 is kept in the trie but the output is just docs with 0; in the other order the output has both. |
| Witnesses.TracksCollide | internal/attrs/unflatten.go:42-52 | docs.1.content, docs.x, docs.1.other make 1 an index and a branch, and only the branch is in the output; a value for docs then brings the index into the output and loses docs.1.other, although no key ended in a numeral. |
| Witnesses.StaleValueReturns | internal/attrs/unflatten.go:169-182 | With docs.1.content written a second time in place of docs.1.other, the output has the second content until a value for docs brings the first one back. |
| RoundTrip.Walk | internal/semconv/genai.go:116-129 | The recursive closure writes, in any map order, every leaf below its map and nothing else, over what was there. |
| RoundTrip.FlattenTopLevel | internal/semconv/genai.go:114-133 | The result has an entry for exactly the dotted keys of leaves, each with the value of such a leaf. |
| RoundTrip.FlattenOfUnflatten | internal/semconv/genai.go:111-133 | If numerals only end keys and no value is a map, flattening the unflattened pairs is exactly the last value of every canonical path under its dotted spelling, also where one key begins another. |
| TopLevel.TopLevelIsExposed | internal/attrs/unflatten.go:217-229 | If numerals only end keys and no value is a map, what in the output is not a nested map is exactly the written paths all of whose prefixes were written, under their dotted spelling. |
| WordWalk.WordFound | internal/semconv/genai.go:111-133 | For any pairs, what flattening their output may write under the spelling of a path without numerals is exactly: its last value unless that is a map, the array that keys going on from there by positions alone make, or what a map written higher up holds there. |
| WordWalk.WordTops | internal/attrs/unflatten.go:209-240 | For any pairs, the output itself has a key spelled like a path without numerals if and only if all its proper prefixes were written and some key is or extends the path; it then holds the last value, or else a map or an array. |
| Semconv.SynthesizeFromGenAI | internal/semconv/genai.go:46-92 | The synthesized map has exactly the keys some gen_ai attribute stands for, with those values; the early exit changes nothing. |
| Semconv.SynthesisIsUnique | internal/semconv/genai.go:46-92 | The flat attributes determine the synthesized map. |
| Semconv.Merge | internal/semconv/genai.go:97-109 | Extraction from the nested map if nothing was synthesized, otherwise from a flattening of it laid over the synthesis. |
| Semconv.ExtractReads | internal/semconv/extract.go:89-155 | Which key each extracted field is read under. There is no usage if and only if no count is readable and both cache counts are zero or missing; otherwise each count is the one read or zero, and a missing total is the sum of prompt and completion, or the one of them there is. |
| Semconv.AsIntIff | internal/semconv/extract.go:165-183 | n is read under a key if and only if the value there is the integer n, a float that n is with its fraction cut off towards zero, or a text that is, between spaces, a 64-bit numeral of n. |
| Semconv.KindIsSynthesized | internal/semconv/genai.go:58-63 | A span kind is synthesized if and only if the operation's text, in lower case, is one of those that stand for it. |
| Semconv.SpanKindIff | internal/semconv/genai.go:29-37 | Which operations stand for which span kind; all others stand for none. |
| Pipeline.ExtractPairs | internal/collector/decode.go:72-79 | From any attribute pairs to extraction. With a synthesis it is overlaid, under each key that is read, with what flattening may find there; without one only values below values are read. Where no map written above a read key reaches its spelling, the former is one explicit map: last values, and a list wherever keys make an array. |
| Pipeline.FlattenReads | internal/semconv/genai.go:94-133 | Flattening the output of any pairs has a read key if and only if its last value is no map, its keys make an array, or a map above reaches it, and holds one of these. |
| Pipeline.MapOrderDoesNotMatter | internal/collector/decode.go:74-79 | With distinct paths, the order of the pairs does not reach the extraction, even where it changes the output, if no map written above a read key reaches its spelling or nothing was synthesized. |
| Semconv.ExplicitKeysDecide | internal/semconv/genai.go:94-108 | Every count is read from the explicit map where it has the key, coercible or not, and from gen_ai attributes only where it has not, and the usage is made of these counts as in ExtractReads; the model likewise; session, user and parameters come from the explicit map alone. |
| Semconv.TotalIsTheSumIff | internal/semconv/extract.go:115-143 | With both gen_ai counts and no explicit total the total is their sum. It equals the sum of the counts reported if neither is explicit; with one explicit count, if and only if it equals the gen_ai count it replaces; with both, if and only if they make up the same sum. |
| Semconv.TotalIsNotTheSum | internal/semconv/genai.go:73-84 | An explicit prompt of 10 over gen_ai counts 5 and 7 reports 10, 7 and a total of 12. |
| Pipeline.UnsynthesizedReadsIff | internal/semconv/genai.go:98-101 | Without a synthesis, for any pairs, a key without numerals reads as its last value if and only if that reads as nothing or all the key's proper prefixes were written too. |
| Pipeline.ListHidesCount | internal/semconv/genai.go:104-127 | With gen_ai counts 5 and 7 and the one attribute llm.token_count.prompt.0.x, the usage has no prompt count, a completion of 7 and a total of 12. |

## Left out

- HTTP, routing, server life cycle, request decoding and compression: input and output only.
- The SQLite engine: tables are sequences whose row number is place plus one, a SELECT is a function of them, and each statement may fail by choice. Foreign keys are off, as the store leaves them.
- JSON and time parsing: serialization is a text or a failure, and listings carry the instant that the stored text denotes.
- `latency_ms` sorting: julian-day arithmetic in floating point.
- Machine integers: counts, sums and numerals are unbounded. Only rowids in cursors and parsed integers are held to 64 bits.
- Floats are real numbers, so NaN and infinities are not converted.
- `LoadJSONStrings`, value decoding, span kinds, status codes, MIME types and input and output values: simple case distinctions.
- `created_at` and `updated_at` of projects, timer periods and log lines.
- Sends after Close: the channel panics; the batcher model has no such step.
- Restarts: the cache lives as long as the tables.
- The mutex of the project cache: the store is changed by one writer at a time.
- Lower-casing of operation names is a parameter.
- TrieNode.TrieNode.AddFrom: the cursor loop of `add` is written as a recursion along the path, so that each node answers for its own subtree.
- Losses.LastValueEmittedIff: supposes that no key splits a number over both tracks; without that a key's values may be at two places, and `Losses.EmittedIff` speaks of any.
- Losses.EmittedIff: the pair's value is a scalar of its own, so that seeing it in the output means seeing this pair's; materialization never looks into values, and `Losses.SpotOfHeld` has no such condition.
- Losses.OutputComesFromPairs: supposes that all values are scalars, since an array given as a value looks like an array built from indices.
- TracePages.ListTraces: the page carries the listed rows; errors of reading a row are in `Paging.ScanPage` and the token totals filled in afterwards in `ReadSide.FillTokenCounts`.
- IdPages.ListSpans: the filter is any predicate on rows; which columns it compares is not modelled.
- Orders.OrderIndependence: says nothing of a trace's project and session, which belong to the first arrival, nor of rowids.
- Batches.BatchRefinesOneByOne: supposes that savepoint, rollback and release succeed. A failed release reports an error for a span that stays stored; `CallCoherence.BatchIsRun` covers that case for tables and cache.
- Calls.CallsFollowInserts: supposes that no item spills rows; after one that does, rows of a reported failure stay, and `Calls.FollowsItems` says that they then differ.
- References.ProjectIsFirst: speaks of runs of InsertSpan; `CallReferences.ProjectIsFirstStored` of mixed ones.
- Pipeline.MapOrderDoesNotMatter: where a map written above a read key reaches its spelling too, flattening leaves the choice between the two values to Go's map order.
- TopLevel.TopLevelIsExposed: supposes that numerals only end keys and that no value is a map; `WordWalk.WordTops` has no hypothesis but speaks only of paths without numerals.
