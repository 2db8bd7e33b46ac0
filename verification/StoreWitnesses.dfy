/** Short runs from empty tables on which the store's easy promises fail. */
module StoreWitnesses {
  import opened Prelude
  import opened Text
  import opened Timestamps
  import opened Forest
  import opened Tables
  import opened Runs
  import opened Orders
  import opened CacheCoherence
  import opened Batches

  const NOON := Second(2024, 1, 1, 12, 0, 0)

  /** A span without attributes or tokens, lasting no time. */
  function SpanAt(id: string, parent: string, status: string, nano: nat): Span
    requires nano < NANOS
  {
    Span("name", "trace", id, parent, Moment(NOON, nano), Moment(NOON, nano), Json("{}"), Json("[]"),
         "CHAIN", status, "", None, "")
  }

  lemma {:induction false} RunOne(a: Arrival)
    ensures Run([a]) == State(Arrive(State(EMPTY, map[]), a).db, Arrive(State(EMPTY, map[]), a).cache)
  {
    hide Arrive;
    assert [a][..0] == [];
  }

  lemma {:induction false} RunTwo(a: Arrival, b: Arrival)
    ensures Run([a, b]) == State(Arrive(Run([a]), b).db, Arrive(Run([a]), b).cache)
  {
    hide Arrive;
    assert [a, b][..1] == [a];
  }

  lemma {:induction false} RunThree(a: Arrival, b: Arrival, c: Arrival)
    ensures Run([a, b, c]) == State(Arrive(Run([a, b]), c).db, Arrive(Run([a, b]), c).cache)
  {
    hide Arrive;
    assert [a, b, c][..2] == [a, b];
  }

  // ----- a stranded project -----

  const FIRST := SpanAt("a", "", "OK", 0)

  /** A span of a trace of its own. */
  function Elsewhere(id: string): Span {
    SpanAt(id, "", "OK", 0).(traceId := id)
  }

  /** A first insert into empty tables that commits. */
  lemma {:induction false} FirstRow(cache: Cache, span: Span, project: string)
    requires Serializable(span) && StatusAllowed(span.status) && span.parentId == ""
    requires project !in cache || cache[project] == 1
    ensures var o := Arrive(State(EMPTY, cache), Arrival(span, project, None));
            && o.error.None? && o.db.traces == [NewTrace(span, 1)] && o.db.spans == [RowOf(span, 1, SelfTotals(span))]
            && o.db.projects == (if project in cache then [] else [project])
            && o.cache == cache[project := 1]
  {
    hide FormatTime, NewTrace, RowOf, SelfTotals;
    NewRow(span);
  }

  lemma {:induction false} NewRow(span: Span)
    requires Serializable(span) && StatusAllowed(span.status) && span.parentId == ""
    ensures Persisted([NewTrace(span, 1)], [], span, 1, None) == ([RowOf(span, 1, SelfTotals(span))], None)
  {
    hide NewTrace, RowOf, SelfTotals;
    assert CumOf([], span, 1) == SelfTotals(span).Plus(ZERO) == SelfTotals(span);
    assert WithRow([], span, 1) == [RowOf(span, 1, SelfTotals(span))];
  }

  /**
   A refused COMMIT on empty tables strands the project, and the retry of the same span goes through:
   its trace refers to a project row that does not exist.
   */
  lemma {:induction false} RetryDangles()
    ensures StrandsProject(Run([]), Arrival(FIRST, "p", Some(Commit)))
    ensures var s := Run([Arrival(FIRST, "p", Some(Commit))]);
            s.db == EMPTY && s.cache == map["p" := 1]
    ensures var s := Run([Arrival(FIRST, "p", Some(Commit)), Arrival(FIRST, "p", None)]);
            && s.db.projects == [] && |s.db.spans| == 1
            && s.db.traces == [NewTrace(FIRST, 1)]
  {
    hide FormatTime;
    assert Run([]) == State(EMPTY, map[]);
    hide Run;
    var lost, retry := Arrival(FIRST, "p", Some(Commit)), Arrival(FIRST, "p", None);
    RunOne(lost);
    RunTwo(lost, retry);
    FirstRow(map["p" := 1], FIRST, "p");
  }

  /** A bad status does the same without any refused statement of the database. */
  lemma {:induction false} BadStatusStrands()
    ensures StrandsProject(Run([]), Arrival(FIRST.(status := "Ok"), "p", None))
    ensures var s := Run([Arrival(FIRST.(status := "Ok"), "p", None)]);
            s.db == EMPTY && s.cache == map["p" := 1]
  {
    hide FormatTime;
    assert Run([]) == State(EMPTY, map[]);
    hide Run;
    RunOne(Arrival(FIRST.(status := "Ok"), "p", None));
    BadStatus();
  }

  lemma {:induction false} BadStatus()
    ensures !StatusAllowed("Ok")
  {
    assert "Ok"[1] != "OK"[1];
    assert |"Ok"| == 2 && |"ERROR"| == 5 && |"UNSET"| == 5;
  }

  /** The next project gets the stranded rowid, and a trace sent to the first is filed under the second. */
  lemma {:induction false} TraceIsMisfiled()
    ensures var lost, other, late :=
              Arrival(FIRST, "p", Some(Commit)), Arrival(Elsewhere("b"), "q", None), Arrival(Elsewhere("c"), "p", None);
            var s := Run([lost, other, late]);
            && s.db.projects == ["q"] && s.cache == map["p" := 1, "q" := 1]
            && s.db.traces == [NewTrace(Elsewhere("b"), 1), NewTrace(Elsewhere("c"), 1)]
  {
    hide Run, FormatTime;
    var lost, other, late :=
      Arrival(FIRST, "p", Some(Commit)), Arrival(Elsewhere("b"), "q", None), Arrival(Elsewhere("c"), "p", None);
    assert "p" != "q" by { assert "p"[0] != "q"[0]; }
    RunOne(lost);
    RunTwo(lost, other);
    RunThree(lost, other, late);
    FirstRow(map["p" := 1], Elsewhere("b"), "q");
    SecondRow();
  }

  lemma {:induction false} SecondRow()
    ensures forall db: Db | db.traces == [NewTrace(Elsewhere("b"), 1)] && |db.spans| == 1 &&
            db.spans[0].spanId == "b" ::
              var o := Arrive(State(db, map["p" := 1, "q" := 1]), Arrival(Elsewhere("c"), "p", None));
              && o.db.projects == db.projects && o.cache == map["p" := 1, "q" := 1]
              && o.db.traces == db.traces + [NewTrace(Elsewhere("c"), 1)]
  {
    hide FormatTime, CumOf;
    assert "b" != "c" by { assert "b"[0] != "c"[0]; }
  }

  // ----- a duplicate that is no no-op -----

  /** The same span id at another time and for another project: both the trace row and the projects change. */
  lemma {:induction false} DuplicateChangesRows()
    ensures var late, early := Arrival(SpanAt("a", "", "OK", 2), "p", None),
            Arrival(SpanAt("a", "", "OK", 1), "q", None);
            var before, after := Run([late]), Run([late, early]);
            && after.db.spans == before.db.spans
            && after.db.projects == ["p", "q"] && before.db.projects == ["p"]
            && before.db.traces == [NewTrace(late.span, 1)]
            && after.db.traces == [NewTrace(late.span, 1).(start := FormatTime(early.span.start))]
            && after.db.traces != before.db.traces
  {
    hide Run, FormatTime, Inserted, Less, SelfTotals;
    var late, early := Arrival(SpanAt("a", "", "OK", 2), "p", None), Arrival(SpanAt("a", "", "OK", 1), "q", None);
    assert "p" != "q" by { assert "p"[0] != "q"[0]; }
    RunOne(late);
    RunTwo(late, early);
    FirstRow(map[], late.span, "p");
    NanosSort();
    Duplicate(Run([late]), early);
  }

  lemma {:induction false} NanosSort()
    ensures Less(FormatTime(Moment(NOON, 1)), FormatTime(Moment(NOON, 2)))
    ensures FormatTime(Moment(NOON, 1)) != FormatTime(Moment(NOON, 2))
  {
    hide FormatTime, Trim;
    var a: Instant, b: Instant := Moment(NOON, 1), Moment(NOON, 2);
    LastDigit(1);
    LastDigit(2);
    SameWidthSortsByTime(a, b);
    LessIsStrictOrder(FormatTime(a), FormatTime(b), "");
  }

  lemma {:induction false} LastDigit(nano: nat)
    requires 0 < nano < 10
    ensures |Digits(Moment(NOON, nano))| == 9
  {
    hide Trim;
    var text := Pad(nano, 9);
    assert text[8] == DigitChar(nano);
    TrimMeaning(text);
  }

  lemma {:induction false} Duplicate(s: State, early: Arrival)
    requires early == Arrival(SpanAt("a", "", "OK", 1), "q", None)
    requires s.db.projects == ["p"] && s.cache == map["p" := 1] && "q" !in s.cache
    requires s.db.traces == [NewTrace(SpanAt("a", "", "OK", 2), 1)] && |s.db.spans| == 1 && s.db.spans[0].spanId == "a"
    requires Less(FormatTime(Moment(NOON, 1)), FormatTime(Moment(NOON, 2)))
    ensures var o := Arrive(s, early);
            && o.db.spans == s.db.spans && o.db.projects == ["p", "q"]
            && o.db.traces == [s.db.traces[0].(start := FormatTime(Moment(NOON, 1)))]
  {
    hide FormatTime, Less;
    LessIsStrictOrder(FormatTime(Moment(NOON, 1)), FormatTime(Moment(NOON, 2)), "");
    assert "p" != "q" by { assert "p"[0] != "q"[0]; }
    assert s.db.spans[0].spanId == "a" && HasSpan(s.db.spans, "a");
  }

  // ----- a range that is not a range of time -----

  /** A whole second and half a second after it: the stored start is the later one. */
  lemma {:induction false} StartIsNotEarliest()
    ensures var whole, half := SpanAt("a", "", "OK", 0), SpanAt("b", "", "OK", 500_000_000);
            var s := Run([Arrival(whole, "p", None), Arrival(half, "p", None)]);
            && Earlier(whole.start, half.start)
            && |s.db.traces| == 1 && s.db.traces[0].start == FormatTime(half.start)
  {
    hide Run, FormatTime;
    var whole, half := SpanAt("a", "", "OK", 0), SpanAt("b", "", "OK", 500_000_000);
    RunOne(Arrival(whole, "p", None));
    RunTwo(Arrival(whole, "p", None), Arrival(half, "p", None));
    FirstRow(map[], whole, "p");
    WholeSecondSortsLast(NOON, 500_000_000);
    Widening(Run([Arrival(whole, "p", None)]), half);
  }

  lemma {:induction false} Widening(s: State, half: Span)
    requires half == SpanAt("b", "", "OK", 500_000_000)
    requires s.cache == map["p" := 1] && s.db.traces == [NewTrace(SpanAt("a", "", "OK", 0), 1)]
    requires |s.db.spans| == 1 && s.db.spans[0].spanId == "a"
    requires Less(FormatTime(half.start), FormatTime(Moment(NOON, 0)))
    ensures var o := Arrive(s, Arrival(half, "p", None));
            |o.db.traces| == 1 && o.db.traces[0].start == FormatTime(half.start)
  {
    hide FormatTime, Less, CumOf;
    assert "a" != "b" by { assert "a"[0] != "b"[0]; }
  }

  // ----- a refused rollback -----

  const ROOT := SpanAt("root", "", "OK", 0)
  const CHILD := SpanAt("child", "root", "ERROR", 0)

  /**
   A batch of one ERROR child under a stored root: the UPDATE of the ancestors is refused, and so is
   ROLLBACK TO. The child's row commits, its error is missing from the root's count.
   */
  lemma {:induction false} RefusedRollbackBreaksSums()
    ensures var s := Run([Arrival(ROOT, "p", None)]);
            var faults := [ItemFault(false, Some(Propagate), true, false)];
            && Sound(s.db)
            && !Sound(BatchInserted(s.db, s.cache, [Ingest(CHILD, "p")], faults, false, false).db)
  {
    hide Run, FormatTime, Sound, BreaksSums, Savepointed, Inserted;
    var s := Run([Arrival(ROOT, "p", None)]);
    var item, fault := Ingest(CHILD, "p"), ItemFault(false, Some(Propagate), true, false);
    RunOne(Arrival(ROOT, "p", None));
    FirstRow(map[], ROOT, "p");
    RootIsSound();
    ChildBreaks(s.db, s.cache);
    ItemSoundIff(s.db, s.cache, item, fault);
    OneItem(s.db, s.cache, item, fault);
  }

  lemma {:induction false} OneItem(db: Db, cache: Cache, item: Ingest, fault: ItemFault)
    ensures BatchInserted(db, cache, [item], [fault], false, false).db == Savepointed(db, cache, item, fault).db
  {
    hide Savepointed;
    assert Batched(db, cache, [item], [fault], 0) == BatchOutcome(db, cache, []);
  }

  lemma {:induction false} RootIsSound()
    ensures Returns([Arrival(ROOT, "p", None)]) && Sound(Run([Arrival(ROOT, "p", None)]).db)
  {
    hide Sound, Run, Consistent, ContentForest, FormatTime;
    var arrivals := [Arrival(ROOT, "p", None)];
    assert Offered(arrivals) == {ROOT} by {
      assert arrivals[0].span in Offered(arrivals);
    }
    LoneRoot();
    ReturnsIfAcyclic(arrivals, {ROOT});
    RunIsSound(arrivals);
  }

  lemma {:induction false} LoneRoot()
    ensures Consistent({ROOT}) && Acyclic(ContentForest({ROOT}))
  {
    hide FormatTime;
    var f := ContentForest({ROOT});
    forall id | id in f
      ensures !OnCycle(f, id)
    {
      assert ById({ROOT}, id) == ROOT && f[id].parent == None;
      forall k: nat | k > 0
        ensures Climb(f, id, k) == None
      {}
    }
  }

  /** The child has its own error to pass up, a parent to pass it to, and its chain ends there. */
  lemma {:induction false} ChildBreaks(db: Db, cache: Cache)
    requires Sound(db) && db.spans == [RowOf(ROOT, 1, ZERO)] && db.traces == [NewTrace(ROOT, 1)]
    ensures var item, fault := Ingest(CHILD, "p"), ItemFault(false, Some(Propagate), true, false);
            BreaksSums(db, item, fault) && WalkEnds(db, cache, item.span, item.project, fault.insert)
  {
    hide FormatTime, InsertedTx, UnraisedIsRight, ForestOf, SpanNode;
    var item, fault := Ingest(CHILD, "p"), ItemFault(false, Some(Propagate), true, false);
    assert "root" != "child" by { assert |"root"| == 4 && |"child"| == 5; }
    assert RefusesPropagation(db, CHILD, Some(Propagate));
    RefusalIsError(db, cache, CHILD, "p", Some(Propagate));
    RootForest(db);
    ChildNeedsRaise();
  }

  lemma {:induction false} RootForest(db: Db)
    requires db.spans == [RowOf(ROOT, 1, ZERO)] && db.traces == [NewTrace(ROOT, 1)]
    ensures ForestOf(db.traces, db.spans) == map["root" := SpanNode(ROOT)]
  {
    hide FormatTime;
    assert db.spans[..0] == [];
    SelfOfRow(ROOT, 1, ZERO);
  }

  lemma {:induction false} ChildNeedsRaise()
    ensures var g := map["root" := SpanNode(ROOT)]["child" := SpanNode(CHILD)];
            !UnraisedIsRight(g, "child")
  {
    hide ChainEnds, SubtreeSum, SpanNode, ParentOf;
    var f := map["root" := SpanNode(ROOT)];
    var g := f["child" := SpanNode(CHILD)];
    TwoLinks();
    ChildSubtree(f, g);
  }

  lemma {:induction false} TwoLinks()
    ensures "root" != "child" && SpanNode(CHILD).self == Counts(1, 0, 0)
    ensures var g := map["root" := SpanNode(ROOT)]["child" := SpanNode(CHILD)];
            ParentOf(g, "child") == Some("root") && ParentOf(g, "root") == None
  {
    assert "root" != "child" by { assert |"root"| == 4 && |"child"| == 5; }
  }

  lemma {:induction false} ChildSubtree(f: Forest, g: Forest)
    requires f.Keys == {"root"} && Extends(f, g, "child") && g["child"].self == Counts(1, 0, 0)
    requires ParentOf(g, "child") == Some("root") && ParentOf(g, "root") == None
    ensures SubtreeSum(g, "child") != ZERO
  {
    hide SubtreeSum, Acyclic, SumOf, SubtreeSums, ParentOf;
    TwoLinksAcyclic(g);
    InsertedSums(f, g, "child");
    assert ChildrenOf(g, "child") == {};
    EmptySum(SubtreeSums(f));
  }

  lemma {:induction false} EmptySum(m: map<string, Counts>)
    ensures SumOf(m, {}) == ZERO
  {}

  lemma {:induction false} TwoLinksAcyclic(g: Forest)
    requires g.Keys == {"root", "child"} && ParentOf(g, "child") == Some("root") && ParentOf(g, "root") == None
    ensures Acyclic(g)
  {
    assert "root" != "child" by { assert |"root"| == 4 && |"child"| == 5; }
    forall id | id in g
      ensures !OnCycle(g, id)
    {
      forall k: nat | k > 0
        ensures Climb(g, id, k) != Some(id)
      {
        assert Climb(g, "root", k) == None;
        if id == "child" && k > 1 { assert Climb(g, "root", k - 1) == None; }
      }
    }
  }
}
