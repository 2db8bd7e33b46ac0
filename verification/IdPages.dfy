/**
 Listing spans and projects: newest first, with the last row kept as the inclusive cursor of the
 next page. Consecutive pages therefore share a row, and with a limit of one they share all of it.
 */
module IdPages {
  import opened Prelude
  import opened Ordering
  import opened Paging

  /** A listed row: its rowid and its other columns. */
  datatype Row<T> = Row(id: int, data: T)

  datatype Page<T> = Page(rows: seq<Row<T>>, next: int)

  datatype Never = Never

  function Newest<T>(): (Row<T>, Row<T>) -> bool {
    (a: Row<T>, b: Row<T>) => a.id > b.id
  }

  function Everything<T>(): Row<T> -> bool {
    (r: Row<T>) => true
  }

  /** WHERE (? = 0 OR id <= ?) */
  function FromCursor<T>(cursor: int): Row<T> -> bool {
    (r: Row<T>) => cursor == 0 || r.id <= cursor
  }

  function UpTo<T>(keep: Row<T> -> bool, cursor: int): Row<T> -> bool {
    (r: Row<T>) => keep(r) && r.id <= cursor
  }

  /** Everything the listing is to show, newest first. */
  function Selected<T>(table: seq<Row<T>>, keep: Row<T> -> bool): seq<Row<T>> {
    Sort(Newest(), Filter(keep, table))
  }

  function PageOf<T>(rows: seq<Row<T>>, limit: nat): Page<T>
    requires limit >= 1
  {
    if |rows| <= limit then Page(rows, 0) else Page(rows[..limit], rows[limit - 1].id)
  }

  /** One request; cursor 0 starts from the newest row. */
  function IdPage<T>(table: seq<Row<T>>, keep: Row<T> -> bool, limit: nat, cursor: int): Page<T>
    requires limit >= 1
  {
    PageOf(Selected(table, if cursor == 0 then keep else UpTo(keep, cursor)), limit)
  }

  /** ListSpans: the where clause grows by the cursor test, and the cursor is the last row kept. */
  method ListSpans<T>(table: seq<Row<T>>, keep: Row<T> -> bool, limit: nat, cursor: int) returns (page: Page<T>)
    requires limit >= 1
    ensures page == IdPage(table, keep, limit, cursor)
  {
    hide Sort, Filter;
    var cond := keep;
    if cursor != 0 {
      cond := UpTo(keep, cursor);
    }
    var all := Selected(table, cond);
    var rows := Take(limit + 1, all);
    ScannedOk<Row<T>, Never>(rows);
    var scanned := ScanPage<Row<T>, Never>(seq(|rows|, i requires 0 <= i < |rows| => Ok(rows[i])), None, limit);
    var (spans, next) := scanned.value;
    assert next == 0 <==> |all| <= limit;
    assert spans == Take(limit, all);
    if next == 0 {
      return Page(spans, 0);
    }
    return Page(spans, spans[|spans| - 1].id);
  }

  /** ListProjects with its handler: the query tests the cursor itself, the handler names the last row. */
  method ListProjects<T>(table: seq<Row<T>>, limit: nat, cursor: int) returns (page: Page<T>)
    requires limit >= 1
    ensures page == IdPage(table, Everything(), limit, cursor)
  {
    hide Sort, Filter;
    var shown := FromCursor<T>(cursor);
    FilterAgrees(shown, if cursor == 0 then Everything() else UpTo(Everything(), cursor), table);
    var all := Selected(table, shown);
    var rows := Take(limit + 1, all);
    ScannedOk<Row<T>, Never>(rows);
    var scanned := ScanPage<Row<T>, Never>(seq(|rows|, i requires 0 <= i < |rows| => Ok(rows[i])), None, limit);
    var (projects, next) := scanned.value;
    assert next == 0 <==> |all| <= limit;
    assert projects == Take(limit, all);
    var nextCursor := 0;
    if next != 0 {
      nextCursor := projects[|projects| - 1].id;
    }
    return Page(projects, nextCursor);
  }

  lemma {:induction false} FilterAgrees<T>(p: Row<T> -> bool, q: Row<T> -> bool, s: seq<Row<T>>)
    requires forall i | 0 <= i < |s| :: p(s[i]) == q(s[i])
    ensures Filter(p, s) == Filter(q, s)
    decreases |s|
  {
    if s != [] {
      FilterAgrees(p, q, s[1..]);
    }
  }

  // ----- walks -----

  predicate ValidTable<T>(table: seq<Row<T>>) {
    && (forall i | 0 <= i < |table| :: table[i].id >= 1)
    && (forall i, j | 0 <= i < j < |table| :: table[i].id != table[j].id)
  }

  predicate IsWalk<T(==)>(table: seq<Row<T>>, keep: Row<T> -> bool, limit: nat, cursor: int, pages: seq<Page<T>>)
    requires limit >= 1
    decreases |pages|
  {
    && pages != []
    && IdPage(table, keep, limit, cursor) == pages[0]
    && (if pages[0].next == 0 then |pages| == 1
        else IsWalk(table, keep, limit, pages[0].next, pages[1..]))
  }

  lemma {:induction false} NewestFirst<T>(rows: seq<Row<T>>)
    requires Sorted(Newest(), rows)
    ensures forall i, j | 0 <= i < j < |rows| :: rows[i].id > rows[j].id
  {
    forall i, j | 0 <= i < j < |rows|
      ensures rows[i].id > rows[j].id
    {
      assert Newest<T>()(rows[i], rows[j]);
    }
  }

  lemma {:induction false} SelectedIsSorted<T(!new)>(table: seq<Row<T>>, keep: Row<T> -> bool)
    requires ValidTable(table)
    ensures Strict<Row<T>>(Newest()) && Decides(Newest(), table) && Sorted(Newest(), Selected(table, keep))
    ensures forall i, j | 0 <= i < j < |Selected(table, keep)| ::
              Selected(table, keep)[i].id > Selected(table, keep)[j].id
    ensures forall r :: r in Selected(table, keep) <==> r in table && keep(r)
    ensures forall r :: r in Selected(table, keep) ==> r.id >= 1
  {
    hide Sort, Filter;
    SortFilter(Newest(), keep, table);
    SortSorts(Newest(), table);
    var all := Sort(Newest(), table);
    FilterSorted(Newest(), keep, all);
    FilterKeeps(keep, all);
    forall r
      ensures r in all <==> r in table
    {
      assert r in multiset(all) <==> r in all;
      assert r in multiset(table) <==> r in table;
    }
    NewestFirst(Selected(table, keep));
  }

  lemma {:induction false} UpToIsRest<T(!new)>(table: seq<Row<T>>, keep: Row<T> -> bool, k: nat)
    requires ValidTable(table) && k < |Selected(table, keep)|
    ensures Selected(table, UpTo(keep, Selected(table, keep)[k].id)) == Selected(table, keep)[k..]
  {
    hide Sort, Filter, Strict, Decides, Sorted;
    var all := Selected(table, keep);
    var c := all[k].id;
    var within := (r: Row<T>) => r.id <= c;
    SelectedIsSorted(table, keep);
    FilterTwice(keep, within, UpTo(keep, c), table);
    FilterDecides(Newest(), keep, table);
    SortFilter(Newest(), within, Filter(keep, table));
    forall i | 0 <= i < |all|
      ensures within(all[i]) <==> k <= i
    {
      SortedIndex(Newest(), all, i, k);
      assert Newest<T>()(all[i], all[k]) <==> all[i].id > c;
    }
    FilterSuffix(within, all, k);
  }

  /** The cursor that points at the k-th row; the start of the listing needs none. */
  predicate PointsAt<T>(all: seq<Row<T>>, k: nat, cursor: int) {
    (cursor == 0 && k == 0) || (k < |all| && cursor == all[k].id)
  }

  lemma {:induction false} PageAt<T(!new)>(table: seq<Row<T>>, keep: Row<T> -> bool, limit: nat, k: nat, cursor: int)
    requires ValidTable(table) && limit >= 1 && PointsAt(Selected(table, keep), k, cursor)
    ensures k <= |Selected(table, keep)|
    ensures IdPage(table, keep, limit, cursor) == PageOf(Selected(table, keep)[k..], limit)
    ensures forall r :: r in Selected(table, keep) ==> r.id >= 1
  {
    hide Sort, Filter;
    var all := Selected(table, keep);
    SelectedIsSorted(table, keep);
    if cursor == 0 && k == 0 {
      assert all[0..] == all;
    } else {
      assert all[k].id >= 1;
      UpToIsRest(table, keep, k);
    }
  }

  function Tail<T>(rows: seq<T>): seq<T> {
    if rows == [] then [] else rows[1..]
  }

  /** The pages' rows, each page without its first. */
  function Joined<T>(pages: seq<Page<T>>): seq<Row<T>> {
    if pages == [] then [] else Tail(pages[0].rows) + Joined(pages[1..])
  }

  /** No page is empty, and each ends with the row the next one begins with. */
  predicate OverlapByOne<T(==)>(pages: seq<Page<T>>) {
    pages != [] ==>
      && pages[0].rows != []
      && OverlapByOne(pages[1..])
      && (|pages| > 1 ==> pages[0].rows[|pages[0].rows| - 1] == pages[1].rows[0])
  }

  lemma {:induction false} JoinStep<T>(all: seq<Row<T>>, k: nat, next: nat)
    requires k < next < |all|
    ensures Tail(all[k..next + 1]) + Tail(all[next..]) == Tail(all[k..])
  {
    assert all[k..next + 1][1..] == all[k + 1..next + 1];
    assert all[next..][1..] == all[next + 1..];
    assert all[k..][1..] == all[k + 1..];
  }

  /**
   With a limit of two or more, a walk from row k visits every row from there on, shares exactly one
   row between consecutive pages, and ends after as many requests as steps of limit - 1 need.
   */
  lemma {:induction false} WalkOverlaps<T(!new)>(
    table: seq<Row<T>>, keep: Row<T> -> bool, limit: nat, k: nat, cursor: int, pages: seq<Page<T>>)
    requires ValidTable(table) && limit >= 2 && PointsAt(Selected(table, keep), k, cursor) &&
             k < |Selected(table, keep)|
    requires IsWalk(table, keep, limit, cursor, pages)
    ensures OverlapByOne(pages) && pages[0].rows[0] == Selected(table, keep)[k]
    ensures Joined(pages) == Tail(Selected(table, keep)[k..])
    ensures |pages| == Pages(|Selected(table, keep)| - k, limit, limit - 1)
    decreases |pages|
  {
    hide Selected, IdPage, Tail;
    var all := Selected(table, keep);
    PageAt(table, keep, limit, k, cursor);
    assert pages[0] == PageOf(all[k..], limit);
    var rest := pages[1..];
    if |all| - k > limit {
      var next := k + limit - 1;
      assert all[next] in all;
      assert pages[0].rows == all[k..next + 1] && pages[0].next == all[next].id;
      WalkOverlaps(table, keep, limit, next, all[next].id, rest);
      JoinStep(all, k, next);
    } else {
      assert rest == [];
      assert Tail(pages[0].rows) + [] == Tail(pages[0].rows);
    }
  }

  ghost function Shown<T>(pages: seq<Page<T>>): set<Row<T>> {
    set i, r | 0 <= i < |pages| && r in pages[i].rows :: r
  }

  lemma {:induction false} JoinedIsShown<T>(pages: seq<Page<T>>)
    requires OverlapByOne(pages) && pages != []
    ensures Shown(pages) == {pages[0].rows[0]} + (set r | r in Joined(pages))
    decreases |pages|
  {
    var first, rest := pages[0], pages[1..];
    ShownStep(pages);
    assert first.rows == [first.rows[0]] + Tail(first.rows);
    if rest != [] {
      JoinedIsShown(rest);
      assert pages[1].rows[0] in first.rows;
    }
  }

  lemma {:induction false} ShownStep<T>(pages: seq<Page<T>>)
    requires pages != []
    ensures Shown(pages) == (set r | r in pages[0].rows) + Shown(pages[1..])
  {
    forall r | r in Shown(pages[1..])
      ensures r in Shown(pages)
    {
      var i :| 0 <= i < |pages[1..]| && r in pages[1..][i].rows;
      assert r in pages[i + 1].rows;
    }
    forall r | r in Shown(pages)
      ensures r in pages[0].rows || r in Shown(pages[1..])
    {
      var i :| 0 <= i < |pages| && r in pages[i].rows;
      if i > 0 { assert r in pages[1..][i - 1].rows; }
    }
  }

  /** A walk from the start shows exactly the rows of the table that the filter keeps. */
  lemma {:induction false} WalkShowsTable<T(!new)>(
    table: seq<Row<T>>, keep: Row<T> -> bool, limit: nat, pages: seq<Page<T>>)
    requires ValidTable(table) && limit >= 2 && IsWalk(table, keep, limit, 0, pages)
    ensures Shown(pages) == set r | r in table && keep(r)
  {
    hide Selected, IdPage, Tail, Shown;
    var all := Selected(table, keep);
    SelectedIsSorted(table, keep);
    ShownStep(pages);
    if all == [] {
      PageAt(table, keep, limit, 0, 0);
      NothingShown<T>();
      assert pages[1..] == [] && pages[0].rows == all[0..];
    } else {
      WalkOverlaps(table, keep, limit, 0, 0, pages);
      JoinedIsShown(pages);
      assert all[0..] == all;
      HeadAndTail(all);
    }
  }

  lemma {:induction false} NothingShown<T>()
    ensures Shown<T>([]) == {}
  {}

  lemma {:induction false} HeadAndTail<T>(s: seq<T>)
    requires s != []
    ensures (set r | r in s) == {s[0]} + (set r | r in Tail(s))
  {
    assert s == [s[0]] + Tail(s);
  }

  lemma {:induction false} WalkExists<T(!new)>(
    table: seq<Row<T>>, keep: Row<T> -> bool, limit: nat, k: nat, cursor: int) returns (pages: seq<Page<T>>)
    requires ValidTable(table) && limit >= 1 && PointsAt(Selected(table, keep), k, cursor)
    requires limit >= 2 || |Selected(table, keep)| - k <= 1
    ensures IsWalk(table, keep, limit, cursor, pages)
    decreases |Selected(table, keep)| - k
  {
    hide Selected, IdPage;
    var all := Selected(table, keep);
    PageAt(table, keep, limit, k, cursor);
    var page := PageOf(all[k..], limit);
    if |all| - k > limit {
      var next := k + limit - 1;
      assert all[next] in all;
      var rest := WalkExists(table, keep, limit, next, all[next].id);
      pages := [page] + rest;
      assert pages[1..] == rest;
    } else {
      pages := [page];
    }
  }

  /** With a limit of one and a row to come, the page hands back the cursor that asked for it. */
  lemma {:induction false} LimitOneStalls<T(!new)>(table: seq<Row<T>>, keep: Row<T> -> bool, k: nat)
    requires ValidTable(table) && k + 1 < |Selected(table, keep)|
    ensures IdPage(table, keep, 1, Selected(table, keep)[k].id) ==
            Page([Selected(table, keep)[k]], Selected(table, keep)[k].id)
  {
    hide Selected, IdPage;
    var all := Selected(table, keep);
    PageAt(table, keep, 1, k, all[k].id);
    assert all[k..][..1] == [all[k]];
  }

  lemma {:induction false} NoWalkFromStall<T(!new)>(
    table: seq<Row<T>>, keep: Row<T> -> bool, k: nat, pages: seq<Page<T>>)
    requires ValidTable(table) && k + 1 < |Selected(table, keep)|
    ensures !IsWalk(table, keep, 1, Selected(table, keep)[k].id, pages)
    decreases |pages|
  {
    hide Selected, IdPage;
    LimitOneStalls(table, keep, k);
    SelectedIsSorted(table, keep);
    assert Selected(table, keep)[k] in Selected(table, keep);
    if pages != [] {
      NoWalkFromStall(table, keep, k, pages[1..]);
    }
  }

  /** Following cursors from the start ends exactly if the limit is not one or there is nothing to follow. */
  lemma {:induction false} WalkEndsIff<T(!new)>(table: seq<Row<T>>, keep: Row<T> -> bool, limit: nat)
    requires ValidTable(table) && limit >= 1
    ensures (exists pages :: IsWalk(table, keep, limit, 0, pages)) <==> limit >= 2 || |Selected(table, keep)| <= 1
  {
    hide Selected, IdPage;
    if limit >= 2 || |Selected(table, keep)| <= 1 {
      var pages := WalkExists(table, keep, limit, 0, 0);
    } else {
      forall pages: seq<Page<T>>
        ensures !IsWalk(table, keep, limit, 0, pages)
      {
        PageAt(table, keep, 1, 0, 0);
        assert Selected(table, keep)[0] in Selected(table, keep);
        if pages != [] {
          NoWalkFromStall(table, keep, 0, pages[1..]);
        }
      }
    }
  }

  /** The number of requests in closed form. */
  lemma {:induction false} OverlapPagesInClosedForm(n: nat, limit: nat)
    requires limit >= 2 && n >= 1
    ensures Pages(n, limit, limit - 1) == if n == 1 then 1 else (n - 1 + limit - 2) / (limit - 1)
    decreases n
  {
    if n > limit {
      OverlapPagesInClosedForm(n - (limit - 1), limit);
      DivStep(n - 2, limit - 1);
    } else if n > 1 {
      DivOne(n - 2, limit - 1);
    }
  }
}
