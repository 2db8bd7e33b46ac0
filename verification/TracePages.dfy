/** Listing a project's traces: keyset pagination on (start time text, rowid). */
module TracePages {
  import opened Prelude
  import opened Text
  import opened Timestamps
  import opened Ordering
  import opened Paging

  /** What the listing query sees of a trace row; its start column holds FormatTime(start). */
  datatype Listing = Listing(id: int, project: int, start: Instant, hasError: bool)

  datatype TraceFilter = TraceFilter(
    startTime: Option<Instant>, endTime: Option<Instant>, hasError: Option<bool>, asc: bool)

  datatype ApiError = BadCursor

  datatype Page = Page(rows: seq<Listing>, next: string)

  // ----- cursors -----

  function EncodeCursor(sortValue: string, id: int): string {
    sortValue + ":" + FormatInt(id)
  }

  function DecodeCursor(s: string): Result<(string, int), ApiError> {
    var i := LastIndex(s, ':');
    if i < 0 then Err(BadCursor)
    else match ParseInt(s[i + 1..])
      case None => Err(BadCursor)
      case Some(id) => Ok((s[..i], id))
  }

  lemma {:induction false} LastIndexIs(s: string, c: char, i: nat)
    requires i < |s| && s[i] == c && forall j | i < j < |s| :: s[j] != c
    ensures LastIndex(s, c) == i
  {}

  /** Cursors round-trip for every sort value, colons and all. */
  lemma {:induction false} DecodeOfEncode(sortValue: string, id: int)
    requires -INT64_MAX - 1 <= id <= INT64_MAX
    ensures DecodeCursor(EncodeCursor(sortValue, id)) == Ok((sortValue, id))
    ensures EncodeCursor(sortValue, id) != ""
  {
    hide Itoa, ParseInt;
    var s := EncodeCursor(sortValue, id);
    assert s[|sortValue|] == ':';
    assert s[|sortValue| + 1..] == FormatInt(id) && s[..|sortValue|] == sortValue;
    forall j | |sortValue| < j < |s|
      ensures s[j] != ':'
    {
      assert s[j] == FormatInt(id)[j - |sortValue| - 1];
    }
    LastIndexIs(s, ':', |sortValue|);
    ParseOfFormat(id);
  }

  /** A cursor that can be read: what follows its last colon is a 64-bit integer. */
  ghost predicate Readable(cursor: string, value: string, id: int) {
    exists digits :: cursor == value + ":" + digits && ':' !in digits && Spells(digits, id)
                     && -INT64_MAX - 1 <= id <= INT64_MAX
  }

  lemma {:induction false} DecodesIff(cursor: string, value: string, id: int)
    ensures DecodeCursor(cursor) == Ok((value, id)) <==> Readable(cursor, value, id)
  {
    hide ParseInt, Spells;
    var i := LastIndex(cursor, ':');
    if i >= 0 {
      assert cursor == cursor[..i] + ":" + cursor[i + 1..];
      ParseIntIff(cursor[i + 1..], id);
    }
    if Readable(cursor, value, id) {
      var digits :| cursor == value + ":" + digits && ':' !in digits && Spells(digits, id);
      forall j | |value| < j < |cursor|
        ensures cursor[j] != ':'
      {
        assert cursor[j] == digits[j - |value| - 1];
      }
      LastIndexIs(cursor, ':', |value|);
      assert cursor[|value| + 1..] == digits && cursor[..|value|] == value;
    }
  }

  // ----- the query -----

  predicate Keeps(project: int, f: TraceFilter, r: Listing) {
    && r.project == project
    && (f.startTime.Some? ==> !Less(FormatTime(r.start), FormatTime(f.startTime.value)))
    && (f.endTime.Some? ==> Less(FormatTime(r.start), FormatTime(f.endTime.value)))
    && (f.hasError.Some? ==> r.hasError == f.hasError.value)
  }

  /** sort cmp value OR (sort = value AND id cmp row), where cmp is < for descending order */
  predicate Past(asc: bool, value: string, row: int, text: string, id: int) {
    if asc then Less(value, text) || (text == value && id > row)
    else Less(text, value) || (text == value && id < row)
  }

  predicate Precedes(asc: bool, a: Listing, b: Listing) {
    Past(asc, FormatTime(a.start), a.id, FormatTime(b.start), b.id)
  }

  function Order(asc: bool): (Listing, Listing) -> bool {
    (a, b) => Precedes(asc, a, b)
  }

  function Kept(project: int, f: TraceFilter): Listing -> bool {
    r => Keeps(project, f, r)
  }

  function KeptPast(project: int, f: TraceFilter, value: string, row: int): Listing -> bool {
    r => Keeps(project, f, r) && Past(f.asc, value, row, FormatTime(r.start), r.id)
  }

  /** Everything the listing is to show, in its order. */
  function Selected(table: seq<Listing>, project: int, f: TraceFilter): seq<Listing> {
    Sort(Order(f.asc), Filter(Kept(project, f), table))
  }

  function PageOf(rows: seq<Listing>, limit: nat): Page
    requires limit >= 1
  {
    if |rows| <= limit then Page(rows, "")
    else Page(rows[..limit], EncodeCursor(FormatTime(rows[limit - 1].start), rows[limit - 1].id))
  }

  /** One request: the rows after the cursor, cut to the limit, and the cursor of the next page. */
  function TracePage(
    table: seq<Listing>, project: int, f: TraceFilter, limit: nat, cursor: string): Result<Page, ApiError>
    requires limit >= 1
  {
    if cursor == "" then Ok(PageOf(Selected(table, project, f), limit))
    else match DecodeCursor(cursor)
      case Err(e) => Err(e)
      case Ok((value, row)) =>
        Ok(PageOf(Sort(Order(f.asc), Filter(KeptPast(project, f, value, row), table)), limit))
  }

  /** ListTraces: where clause, query with LIMIT limit + 1, scan, cursor from the last row kept. */
  method ListTraces(table: seq<Listing>, project: int, f: TraceFilter, limit: nat, cursor: string)
    returns (r: Result<Page, ApiError>)
    requires limit >= 1
    ensures r == TracePage(table, project, f, limit, cursor)
  {
    hide Sort, Filter, FormatTime, DecodeCursor, EncodeCursor;
    var cond := Kept(project, f);
    if cursor != "" {
      var decoded := DecodeCursor(cursor);
      match decoded {
        case Err(e) => return Err(e);
        case Ok((value, row)) => cond := KeptPast(project, f, value, row);
      }
    }
    var all := Sort(Order(f.asc), Filter(cond, table));
    var rows := Take(limit + 1, all);
    ScannedOk<Listing, ApiError>(rows);
    var scanned := ScanPage<Listing, ApiError>(seq(|rows|, i requires 0 <= i < |rows| => Ok(rows[i])), None, limit);
    var (traces, next) := scanned.value;
    assert traces == Take(limit, all);
    assert next == 0 <==> |all| <= limit;
    assert |all| <= limit ==> traces == all;
    if |traces| == 0 {
      return Ok(Page(traces, ""));
    }
    if next != 0 {
      var last := traces[|traces| - 1];
      return Ok(Page(traces, EncodeCursor(FormatTime(last.start), last.id)));
    }
    return Ok(Page(traces, ""));
  }

  /** A request is answered by an error exactly if it has a cursor that cannot be read. */
  lemma {:induction false} BadCursorIff(
    table: seq<Listing>, project: int, f: TraceFilter, limit: nat, cursor: string)
    requires limit >= 1
    ensures TracePage(table, project, f, limit, cursor) == Err(BadCursor) <==>
            cursor != "" && forall value, id :: !Readable(cursor, value, id)
  {
    hide Readable, DecodeCursor, Sort, Filter;
    match DecodeCursor(cursor)
    case Ok((value, id)) =>
      DecodesIff(cursor, value, id);
    case Err(e) =>
      assert e == BadCursor;
      forall value: string, id: int
        ensures !Readable(cursor, value, id)
      {
        DecodesIff(cursor, value, id);
      }
  }

  // ----- a walk of pages -----

  predicate ValidTable(table: seq<Listing>) {
    && (forall i | 0 <= i < |table| :: 1 <= table[i].id <= INT64_MAX)
    && (forall i, j | 0 <= i < j < |table| :: table[i].id != table[j].id)
  }

  /** The pages a client collects from a cursor on, following next_cursor until it is empty. */
  predicate IsWalk(table: seq<Listing>, project: int, f: TraceFilter, limit: nat, cursor: string, pages: seq<Page>)
    requires limit >= 1
    decreases |pages|
  {
    && pages != []
    && TracePage(table, project, f, limit, cursor) == Ok(pages[0])
    && (if pages[0].next == "" then |pages| == 1
        else IsWalk(table, project, f, limit, pages[0].next, pages[1..]))
  }

  function Rows(pages: seq<Page>): seq<Listing> {
    if pages == [] then [] else pages[0].rows + Rows(pages[1..])
  }

  lemma {:induction false} OrderIsStrict(asc: bool)
    ensures Strict(Order(asc))
  {
    hide FormatTime;
    forall a: Listing, b: Listing, c: Listing
      ensures !Order(asc)(a, a)
      ensures Order(asc)(a, b) && Order(asc)(b, c) ==> Order(asc)(a, c)
    {
      LessIsStrictOrder(FormatTime(a.start), FormatTime(b.start), FormatTime(c.start));
      LessIsStrictOrder(FormatTime(c.start), FormatTime(b.start), FormatTime(a.start));
    }
  }

  lemma {:induction false} OrderDecides(asc: bool, table: seq<Listing>)
    requires ValidTable(table)
    ensures Decides(Order(asc), table)
  {
    hide FormatTime;
    forall i, j | 0 <= i < j < |table|
      ensures Order(asc)(table[i], table[j]) || Order(asc)(table[j], table[i])
    {
      LessIsStrictOrder(FormatTime(table[i].start), FormatTime(table[j].start), "");
    }
  }

  lemma {:induction false} SelectedIsSorted(table: seq<Listing>, project: int, f: TraceFilter)
    requires ValidTable(table)
    ensures Sorted(Order(f.asc), Selected(table, project, f))
    ensures forall r :: r in Selected(table, project, f) <==> r in table && Keeps(project, f, r)
  {
    hide Keeps, Precedes, Strict, Decides, Sorted, Filter, Sort;
    var all := Sort(Order(f.asc), table);
    OrderIsStrict(f.asc);
    OrderDecides(f.asc, table);
    SortFilter(Order(f.asc), Kept(project, f), table);
    SortSorts(Order(f.asc), table);
    FilterSorted(Order(f.asc), Kept(project, f), all);
    FilterKeeps(Kept(project, f), all);
    forall r
      ensures r in all <==> r in table
    {
      assert r in multiset(all) <==> r in all;
      assert r in multiset(table) <==> r in table;
    }
  }

  /** The order in the listing's own terms: by start text, and where texts are equal by rowid the same way. */
  lemma {:induction false} ListedOrder(table: seq<Listing>, project: int, f: TraceFilter, i: nat, j: nat)
    requires ValidTable(table) && i < j < |Selected(table, project, f)|
    ensures var a, b := Selected(table, project, f)[i], Selected(table, project, f)[j];
            if FormatTime(a.start) == FormatTime(b.start) then if f.asc then a.id < b.id else b.id < a.id
            else if f.asc then Less(FormatTime(a.start), FormatTime(b.start))
            else Less(FormatTime(b.start), FormatTime(a.start))
  {
    hide FormatTime, Less, Keeps, Filter, Sort, Strict, Decides;
    SelectedIsSorted(table, project, f);
    var a, b := Selected(table, project, f)[i], Selected(table, project, f)[j];
    assert Order(f.asc)(a, b);
    LessIsStrictOrder(FormatTime(a.start), FormatTime(b.start), "");
  }

  // ----- text order and time -----

  /** The bounds keep a trace as the instants would have it, unless its start shares a second with a bound. */
  lemma {:induction false} BoundIsByTimeIff(start: Instant, bound: Instant)
    ensures (Less(FormatTime(start), FormatTime(bound)) <==> Earlier(start, bound)) <==> !SameSecondPrefix(start, bound)
  {
    hide FormatTime, Less;
    if start == bound {
      LessIsStrictOrder(FormatTime(start), FormatTime(start), "");
    } else {
      TextOrderIsTimeOrderIff(start, bound);
    }
  }

  predicate KeepsByTime(project: int, f: TraceFilter, r: Listing) {
    && r.project == project
    && (f.startTime.Some? ==> !Earlier(r.start, f.startTime.value))
    && (f.endTime.Some? ==> Earlier(r.start, f.endTime.value))
    && (f.hasError.Some? ==> r.hasError == f.hasError.value)
  }

  predicate MeetsBound(r: Listing, bound: Option<Instant>) {
    bound.Some? && SameSecondPrefix(r.start, bound.value)
  }

  /** The filter is the one its documentation gives, by instants, wherever no bound is met in that way. */
  lemma {:induction false} FilterIsByTime(project: int, f: TraceFilter, r: Listing)
    requires !MeetsBound(r, f.startTime) && !MeetsBound(r, f.endTime)
    ensures Keeps(project, f, r) <==> KeepsByTime(project, f, r)
  {
    hide FormatTime, Less, Earlier;
    if f.startTime.Some? { BoundIsByTimeIff(r.start, f.startTime.value); }
    if f.endTime.Some? { BoundIsByTimeIff(r.start, f.endTime.value); }
  }

  /** Where the lower bound alone is met in that way, the filter decides against the instants. */
  lemma {:induction false} LowerBoundErrs(project: int, f: TraceFilter, r: Listing)
    requires MeetsBound(r, f.startTime) && f.endTime.None? && r.project == project
    requires f.hasError.Some? ==> r.hasError == f.hasError.value
    ensures Keeps(project, f, r) <==> !KeepsByTime(project, f, r)
  {
    hide FormatTime, Less, Earlier;
    BoundIsByTimeIff(r.start, f.startTime.value);
  }

  /** Two listed rows are out of time order exactly if they share a second and one fraction begins the other. */
  lemma {:induction false} ListedOutOfTimeIff(table: seq<Listing>, project: int, f: TraceFilter, i: nat, j: nat)
    requires ValidTable(table) && i < j < |Selected(table, project, f)|
    ensures var a, b := Selected(table, project, f)[i].start, Selected(table, project, f)[j].start;
            if f.asc then Earlier(b, a) <==> StartsEarlierInSecond(b, a)
            else Earlier(a, b) <==> StartsEarlierInSecond(a, b)
  {
    hide FormatTime, Less, Earlier, Keeps, Filter, Sort, Strict, Decides, StartsEarlierInSecond;
    SelectedIsSorted(table, project, f);
    var all := Selected(table, project, f);
    assert Order(f.asc)(all[i], all[j]);
    LessIsStrictOrder(FormatTime(all[i].start), FormatTime(all[j].start), FormatTime(all[i].start));
    if f.asc {
      UnlessStartsEarlier(all[j].start, all[i].start);
    } else {
      UnlessStartsEarlier(all[i].start, all[j].start);
    }
  }

  /** The rows after the k-th are the rows the next request selects with that row as its cursor. */
  lemma {:induction false} PastIsRest(table: seq<Listing>, project: int, f: TraceFilter, k: nat)
    requires ValidTable(table) && k < |Selected(table, project, f)|
    ensures var c := Selected(table, project, f)[k];
            Sort(Order(f.asc), Filter(KeptPast(project, f, FormatTime(c.start), c.id), table)) ==
              Selected(table, project, f)[k + 1..]
  {
    hide Keeps, Past, Strict, Decides, Sorted, Filter, Sort, FormatTime;
    var all := Selected(table, project, f);
    var c := all[k];
    var past := (r: Listing) => Past(f.asc, FormatTime(c.start), c.id, FormatTime(r.start), r.id);
    OrderIsStrict(f.asc);
    OrderDecides(f.asc, table);
    SelectedIsSorted(table, project, f);
    FilterTwice(Kept(project, f), past, KeptPast(project, f, FormatTime(c.start), c.id), table);
    FilterDecides(Order(f.asc), Kept(project, f), table);
    SortFilter(Order(f.asc), past, Filter(Kept(project, f), table));
    forall i | 0 <= i < |all|
      ensures past(all[i]) <==> k < i
    {
      SortedIndex(Order(f.asc), all, k, i);
      assert past(all[i]) <==> Order(f.asc)(c, all[i]);
    }
    FilterSuffix(past, all, k + 1);
  }

  /** The cursor a client holds once it has seen the first k rows. */
  function CursorAt(all: seq<Listing>, k: nat): string
    requires k <= |all|
  {
    if k == 0 then "" else EncodeCursor(FormatTime(all[k - 1].start), all[k - 1].id)
  }

  lemma {:induction false} PageAt(table: seq<Listing>, project: int, f: TraceFilter, limit: nat, k: nat)
    requires ValidTable(table) && limit >= 1 && k <= |Selected(table, project, f)|
    ensures TracePage(table, project, f, limit, CursorAt(Selected(table, project, f), k)) ==
            Ok(PageOf(Selected(table, project, f)[k..], limit))
  {
    hide Keeps, Sort, Filter, FormatTime, DecodeCursor, EncodeCursor, KeptPast;
    var all := Selected(table, project, f);
    if k == 0 {
      assert all[0..] == all;
    } else {
      var c := all[k - 1];
      SelectedIsSorted(table, project, f);
      assert c in table;
      DecodeOfEncode(FormatTime(c.start), c.id);
      PastIsRest(table, project, f, k - 1);
    }
  }

  /**
   Keyset pagination over a fixed table: any walk from the k-th row on collects exactly the rows
   from there, each once, in the listing's order, and makes as many requests as their number needs.
   */
  lemma {:induction false} WalkCollects(
    table: seq<Listing>, project: int, f: TraceFilter, limit: nat, k: nat, pages: seq<Page>)
    requires ValidTable(table) && limit >= 1 && k <= |Selected(table, project, f)|
    requires IsWalk(table, project, f, limit, CursorAt(Selected(table, project, f), k), pages)
    ensures Rows(pages) == Selected(table, project, f)[k..]
    ensures |pages| == Pages(|Selected(table, project, f)| - k, limit, limit)
    decreases |pages|
  {
    hide Selected, TracePage, EncodeCursor, FormatTime;
    var all := Selected(table, project, f);
    PageAt(table, project, f, limit, k);
    if |all| - k > limit {
      NextIsNotEmpty(all[k + limit - 1]);
      assert pages[0].next == CursorAt(all, k + limit);
      WalkCollects(table, project, f, limit, k + limit, pages[1..]);
      assert all[k..] == all[k..k + limit] + all[k + limit..];
    } else {
      assert pages[1..] == [];
      assert pages[0].rows + [] == pages[0].rows;
    }
  }

  lemma {:induction false} NextIsNotEmpty(r: Listing)
    ensures EncodeCursor(FormatTime(r.start), r.id) != ""
  {}

  lemma {:induction false} WalkExists(
    table: seq<Listing>, project: int, f: TraceFilter, limit: nat, k: nat) returns (pages: seq<Page>)
    requires ValidTable(table) && limit >= 1 && k <= |Selected(table, project, f)|
    ensures IsWalk(table, project, f, limit, CursorAt(Selected(table, project, f), k), pages)
    decreases |Selected(table, project, f)| - k
  {
    hide Selected, TracePage, EncodeCursor, FormatTime;
    var all := Selected(table, project, f);
    PageAt(table, project, f, limit, k);
    var page := PageOf(all[k..], limit);
    if |all| - k > limit {
      NextIsNotEmpty(all[k + limit - 1]);
      assert page.next == CursorAt(all, k + limit);
      var rest := WalkExists(table, project, f, limit, k + limit);
      pages := [page] + rest;
      assert pages[1..] == rest;
    } else {
      pages := [page];
    }
  }

  /** From the empty cursor: the whole listing, in max(1, ceil(n / limit)) requests. */
  lemma {:induction false} WholeWalk(table: seq<Listing>, project: int, f: TraceFilter, limit: nat, pages: seq<Page>)
    requires ValidTable(table) && limit >= 1 && IsWalk(table, project, f, limit, "", pages)
    ensures Rows(pages) == Selected(table, project, f)
    ensures var n := |Selected(table, project, f)|;
            |pages| == if n == 0 then 1 else (n + limit - 1) / limit
  {
    hide Selected, IsWalk;
    var all := Selected(table, project, f);
    WalkCollects(table, project, f, limit, 0, pages);
    assert all[0..] == all;
    PagesInClosedForm(|all|, limit);
  }
}
