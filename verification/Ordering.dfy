/** WHERE and ORDER BY, as functions on row sequences. */
module Ordering {

  function Filter<T>(p: T -> bool, s: seq<T>): seq<T> {
    if s == [] then []
    else if p(s[0]) then [s[0]] + Filter(p, s[1..])
    else Filter(p, s[1..])
  }

  function Insert<T>(lt: (T, T) -> bool, x: T, s: seq<T>): seq<T> {
    if s == [] then [x]
    else if lt(x, s[0]) then [x] + s
    else [s[0]] + Insert(lt, x, s[1..])
  }

  function Sort<T>(lt: (T, T) -> bool, s: seq<T>): seq<T> {
    if s == [] then [] else Insert(lt, s[0], Sort(lt, s[1..]))
  }

  /** LIMIT n */
  function Take<T>(n: nat, s: seq<T>): seq<T> {
    if n <= |s| then s[..n] else s
  }

  ghost predicate Strict<T(!new)>(lt: (T, T) -> bool) {
    && (forall a :: !lt(a, a))
    && (forall a, b, c :: lt(a, b) && lt(b, c) ==> lt(a, c))
  }

  /** No two positions tie: rows are told apart by the key the order ends with. */
  ghost predicate Decides<T>(lt: (T, T) -> bool, s: seq<T>) {
    forall i, j | 0 <= i < j < |s| :: lt(s[i], s[j]) || lt(s[j], s[i])
  }

  ghost predicate Sorted<T>(lt: (T, T) -> bool, s: seq<T>) {
    forall i, j | 0 <= i < j < |s| :: lt(s[i], s[j])
  }

  lemma {:induction false} FilterCons<T>(p: T -> bool, x: T, s: seq<T>)
    ensures Filter(p, [x] + s) == if p(x) then [x] + Filter(p, s) else Filter(p, s)
  {
    assert ([x] + s)[1..] == s;
  }

  lemma {:induction false} InsertCons<T>(lt: (T, T) -> bool, x: T, y: T, s: seq<T>)
    ensures Insert(lt, x, [y] + s) == if lt(x, y) then [x, y] + s else [y] + Insert(lt, x, s)
  {
    assert ([y] + s)[1..] == s;
    assert [x] + ([y] + s) == [x, y] + s;
  }

  lemma {:induction false} SortedTail<T>(lt: (T, T) -> bool, s: seq<T>)
    requires Sorted(lt, s) && s != []
    ensures Sorted(lt, s[1..]) && forall y | y in s[1..] :: lt(s[0], y)
  {}

  lemma {:induction false} ConsSorted<T>(lt: (T, T) -> bool, x: T, s: seq<T>)
    requires Sorted(lt, s) && forall y | y in s :: lt(x, y)
    ensures Sorted(lt, [x] + s)
  {}

  lemma {:induction false} InsertSorted<T(!new)>(lt: (T, T) -> bool, x: T, s: seq<T>)
    requires Strict(lt) && Sorted(lt, s) && forall y | y in s :: lt(x, y) || lt(y, x)
    ensures Sorted(lt, Insert(lt, x, s)) && multiset(Insert(lt, x, s)) == multiset{x} + multiset(s)
    decreases |s|
  {
    if s != [] {
      hide Sorted;
      var head, tail := s[0], s[1..];
      assert s == [head] + tail;
      SortedTail(lt, s);
      if lt(x, head) {
        ConsSorted(lt, x, s);
      } else {
        InsertSorted(lt, x, tail);
        var rest := Insert(lt, x, tail);
        forall y | y in rest
          ensures lt(head, y)
        {
          assert y in multiset(rest);
        }
        ConsSorted(lt, head, rest);
      }
    } else {
      assert Insert(lt, x, s) == [x];
    }
  }

  /** ORDER BY sorts, and returns the rows it was given. */
  lemma {:induction false} SortSorts<T(!new)>(lt: (T, T) -> bool, s: seq<T>)
    requires Strict(lt) && Decides(lt, s)
    ensures Sorted(lt, Sort(lt, s)) && multiset(Sort(lt, s)) == multiset(s)
    decreases |s|
  {
    if s != [] {
      SortSorts(lt, s[1..]);
      var rest := Sort(lt, s[1..]);
      assert s == [s[0]] + s[1..];
      forall y | y in rest
        ensures lt(s[0], y) || lt(y, s[0])
      {
        assert y in multiset(rest);
        var i :| 1 <= i < |s| && s[i] == y;
      }
      InsertSorted(lt, s[0], rest);
    }
  }

  lemma {:induction false} FilterKeeps<T(!new)>(p: T -> bool, s: seq<T>)
    ensures forall x :: x in Filter(p, s) <==> x in s && p(x)
    decreases |s|
  {
    if s != [] {
      FilterKeeps(p, s[1..]);
      assert s == [s[0]] + s[1..];
    }
  }

  lemma {:induction false} FilterInsert<T(!new)>(lt: (T, T) -> bool, p: T -> bool, x: T, s: seq<T>)
    requires Strict(lt) && Sorted(lt, s)
    ensures Filter(p, Insert(lt, x, s)) == if p(x) then Insert(lt, x, Filter(p, s)) else Filter(p, s)
    decreases |s|
  {
    if s == [] {
      FilterCons(p, x, []);
      assert [x] + [] == [x];
    } else {
      hide Sorted;
      var head, tail := s[0], s[1..];
      assert s == [head] + tail;
      SortedTail(lt, s);
      FilterCons(p, head, tail);
      if lt(x, head) {
        FilterCons(p, x, s);
        FilterKeeps(p, s);
        InsertBelow(lt, x, Filter(p, s));
      } else {
        FilterInsert(lt, p, x, tail);
        FilterCons(p, head, Insert(lt, x, tail));
        InsertCons(lt, x, head, Filter(p, tail));
      }
    }
  }

  lemma {:induction false} InsertBelow<T>(lt: (T, T) -> bool, x: T, s: seq<T>)
    requires forall y | y in s :: lt(x, y)
    ensures Insert(lt, x, s) == [x] + s
  {}

  lemma {:induction false} SortIsSorted<T(!new)>(lt: (T, T) -> bool, s: seq<T>)
    requires Strict(lt) && Decides(lt, s)
    ensures Sorted(lt, Sort(lt, s))
  {
    SortSorts(lt, s);
  }

  lemma {:induction false} SortCons<T>(lt: (T, T) -> bool, x: T, s: seq<T>)
    ensures Sort(lt, [x] + s) == Insert(lt, x, Sort(lt, s))
  {
    assert ([x] + s)[1..] == s;
  }

  /** Filtering before or after sorting is the same. */
  lemma {:induction false} SortFilter<T(!new)>(lt: (T, T) -> bool, p: T -> bool, s: seq<T>)
    requires Strict(lt) && Decides(lt, s)
    ensures Sort(lt, Filter(p, s)) == Filter(p, Sort(lt, s))
    decreases |s|
  {
    if s != [] {
      hide Sorted, Strict, Insert, Decides;
      var head, tail := s[0], s[1..];
      assert s == [head] + tail;
      TailDecides(lt, s);
      SortFilter(lt, p, tail);
      SortIsSorted(lt, tail);
      FilterInsert(lt, p, head, Sort(lt, tail));
      SortCons(lt, head, Filter(p, tail));
    }
  }

  lemma {:induction false} TailDecides<T>(lt: (T, T) -> bool, s: seq<T>)
    requires Decides(lt, s) && s != []
    ensures Decides(lt, s[1..])
  {}

  lemma {:induction false} FilterSorted<T(!new)>(lt: (T, T) -> bool, p: T -> bool, s: seq<T>)
    requires Sorted(lt, s)
    ensures Sorted(lt, Filter(p, s))
    decreases |s|
  {
    if s != [] {
      hide Sorted;
      SortedTail(lt, s);
      FilterSorted(lt, p, s[1..]);
      var rest := Filter(p, s[1..]);
      FilterKeeps(p, s[1..]);
      forall y | y in rest
        ensures lt(s[0], y)
      {
        assert y in s[1..];
      }
      ConsSorted(lt, s[0], rest);
    }
  }

  lemma {:induction false} FilterDecides<T(!new)>(lt: (T, T) -> bool, p: T -> bool, s: seq<T>)
    requires Decides(lt, s)
    ensures Decides(lt, Filter(p, s))
    decreases |s|
  {
    if s != [] {
      var rest := Filter(p, s[1..]);
      FilterDecides(lt, p, s[1..]);
      FilterKeeps(p, s[1..]);
      forall y | y in rest
        ensures lt(s[0], y) || lt(y, s[0])
      {
        assert y in s[1..];
        var i :| 0 <= i < |s[1..]| && s[1..][i] == y;
        assert s[i + 1] == y;
      }
    }
  }

  lemma {:induction false} FilterAll<T>(p: T -> bool, s: seq<T>)
    requires forall i | 0 <= i < |s| :: p(s[i])
    ensures Filter(p, s) == s
    decreases |s|
  {
    if s != [] {
      FilterAll(p, s[1..]);
      assert s == [s[0]] + s[1..];
    }
  }

  /** A condition that fails on a front and holds on the rest selects the rest. */
  lemma {:induction false} FilterSuffix<T>(p: T -> bool, s: seq<T>, k: nat)
    requires k <= |s| && (forall i | 0 <= i < k :: !p(s[i])) && (forall i | k <= i < |s| :: p(s[i]))
    ensures Filter(p, s) == s[k..]
    decreases k
  {
    if k == 0 {
      FilterAll(p, s);
      assert s[0..] == s;
    } else {
      FilterSuffix(p, s[1..], k - 1);
      assert s[1..][k - 1..] == s[k..];
    }
  }

  lemma {:induction false} FilterTwice<T(!new)>(p: T -> bool, q: T -> bool, both: T -> bool, s: seq<T>)
    requires forall x :: both(x) <==> p(x) && q(x)
    ensures Filter(both, s) == Filter(q, Filter(p, s))
    decreases |s|
  {
    if s != [] {
      FilterTwice(p, q, both, s[1..]);
      FilterCons(q, s[0], Filter(p, s[1..]));
    }
  }

  /** The place of a member in a sorted sequence. */
  lemma {:induction false} SortedIndex<T(!new)>(lt: (T, T) -> bool, s: seq<T>, i: nat, j: nat)
    requires Strict(lt) && Sorted(lt, s) && i < |s| && j < |s|
    ensures lt(s[i], s[j]) <==> i < j
  {}
}
