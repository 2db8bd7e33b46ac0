/** Paths without numerals: whatever else is in the trie, their nodes depend only on the last writes. */
module Words {
  import opened Prelude
  import opened Text
  import opened Keys
  import opened Trie
  import opened Tracks
  import opened Losses
  import opened UniformKeys

  /** No segment is a numeral. */
  predicate Wordy(p: seq<string>) {
    forall i | 0 <= i < |p| :: Digit(p[i]) == None
  }

  /** The node a path of branches leads to. */
  function NodeAt(n: Node, p: seq<string>): Option<Node>
    decreases |p|
  {
    if p == [] then Some(n)
    else if p[0] in n.branches then NodeAt(n.branches[p[0]], p[1..])
    else None
  }

  lemma {:induction false} NewHasNoNodes(p: seq<string>)
    ensures NodeAt(NEW, p) == if p == [] then Some(NEW) else None
  {}

  /** An add reaches the node of such a path if its key goes by it, and otherwise leaves it as it is. */
  lemma {:induction false} AddNode(n: Node, path: seq<string>, v: Any, q: seq<string>)
    requires Wordy(q)
    ensures NodeAt(Add(n, path, v), q) ==
            if q <= path then Some(Add(NodeAt(n, q).GetOr(NEW), path[|q|..], v)) else NodeAt(n, q)
    decreases |q|
  {
    hide Digit, Add, SetValue, WithChild, Stepped;
    if q == [] {
      assert path[0..] == path;
    } else if path == [] {
      ValueNode(n, v, q);
    } else {
      var seg, last := path[0], |path| == 1;
      var c := Stepped(n, seg, last);
      AddUnfolds(n, path, v);
      if seg == q[0] {
        WordChild(n, seg, last, Add(c, path[1..], v));
        AddNode(c, path[1..], v, q[1..]);
        NewHasNoNodes(q[1..]);
        assert q <= path <==> q[1..] <= path[1..] by { PrefixStep(q, path); }
        assert q <= path ==> path[1..][|q| - 1..] == path[|q|..];
      } else {
        OtherChild(n, seg, last, Add(c, path[1..], v), q[0]);
        assert !(q <= path);
      }
    }
  }

  lemma {:induction false} PrefixStep(q: seq<string>, path: seq<string>)
    requires q != [] && path != [] && q[0] == path[0]
    ensures q <= path <==> q[1..] <= path[1..]
  {
    if q[1..] <= path[1..] {
      forall i | 0 <= i < |q|
        ensures q[i] == path[i]
      {
        if i > 0 { assert q[1..][i - 1] == path[1..][i - 1]; }
      }
    }
  }

  lemma {:induction false} AddUnfolds(n: Node, path: seq<string>, v: Any)
    ensures path == [] ==> Add(n, path, v) == SetValue(n, v)
    ensures path != [] ==>
              Add(n, path, v) == WithChild(n, path[0], |path| == 1, Add(Stepped(n, path[0], |path| == 1), path[1..], v))
  {}

  lemma {:induction false} ValueNode(n: Node, v: Any, q: seq<string>)
    requires Wordy(q) && q != []
    ensures NodeAt(Add(n, [], v), q) == NodeAt(n, q)
  {
    hide Digit;
    assert Digit(q[0]) == None;
  }

  lemma {:induction false} WordChild(n: Node, seg: string, last: bool, c: Node)
    requires Digit(seg) == None
    ensures WithChild(n, seg, last, c).branches == n.branches[seg := c]
    ensures Stepped(n, seg, last) == if seg in n.branches then n.branches[seg] else NEW
  {
    hide Digit;
  }

  lemma {:induction false} OtherChild(n: Node, seg: string, last: bool, c: Node, s: string)
    requires s != seg
    ensures s in WithChild(n, seg, last, c).branches <==> s in n.branches
    ensures s in n.branches ==> WithChild(n, seg, last, c).branches[s] == n.branches[s]
  {
    hide Digit;
  }

  // ----- arrays -----

  /** What one more key does to a node's tracks. */
  lemma {:induction false} AddTracks(n: Node, path: seq<string>, v: Any)
    requires path != []
    ensures var t := Add(n, path, v);
            && t.value == n.value
            && (t.branches == map[] <==> n.branches == map[] && Indexes(path, 0))
            && (t.branches == map[] ==> t.indices != map[])
  {
    hide Digit, Stepped;
    var seg, last := path[0], |path| == 1;
    var c := Add(Stepped(n, seg, last), path[1..], v);
    AddUnfolds(n, path, v);
    var t := WithChild(n, seg, last, c);
    if OnIndex(n, seg, last) {
      assert Digit(seg).value in t.indices;
    } else {
      assert seg in t.branches;
    }
  }

  predicate Extended(s: Content, q: seq<string>) {
    exists r | r in s :: q < r
  }

  predicate OnlyIndexed(s: Content, q: seq<string>) {
    forall r | r in s && q < r :: Indexes(r, |q|)
  }

  /** The keys make an array of this path: none ends there, some go on, all of them by array positions. */
  predicate ArrayAt(s: Content, q: seq<string>) {
    q !in s && Extended(s, q) && OnlyIndexed(s, q)
  }

  predicate Through(s: Content, q: seq<string>) {
    q in s || Extended(s, q)
  }

  /** The node at q is the one these contents call for. */
  predicate NodeFits(x: Option<Node>, s: Content, q: seq<string>) {
    && (x.Some? <==> q == [] || Through(s, q))
    && (x.Some? ==>
          && x.value.value == (if q in s then Some(s[q]) else None)
          && (q !in s ==> (x.value.branches == map[] <==> OnlyIndexed(s, q)))
          && (q !in s && x.value.branches == map[] ==> (x.value.indices == map[] <==> !Extended(s, q))))
  }

  lemma {:induction false} WriteElsewhere(s: Content, path: seq<string>, v: Any, q: seq<string>)
    requires !(q <= path)
    ensures Extended(s[path := v], q) == Extended(s, q) && OnlyIndexed(s[path := v], q) == OnlyIndexed(s, q)
    ensures q in s[path := v] <==> q in s
    ensures q in s ==> s[path := v][q] == s[q]
  {
    var t := s[path := v];
    forall r | r in t && q < r
      ensures r in s
    {}
    forall r | r in s
      ensures r in t
    {}
    if Extended(s, q) {
      var r :| r in s && q < r;
      assert r in t;
    }
  }

  lemma {:induction false} WriteBelow(s: Content, path: seq<string>, v: Any, q: seq<string>)
    requires q < path
    ensures Extended(s[path := v], q)
    ensures OnlyIndexed(s[path := v], q) <==> OnlyIndexed(s, q) && Indexes(path, |q|)
    ensures q in s[path := v] <==> q in s
    ensures q in s ==> s[path := v][q] == s[q]
  {
    hide Indexes;
    var t := s[path := v];
    assert path in t;
    if OnlyIndexed(t, q) {
      forall r | r in s && q < r
        ensures Indexes(r, |q|)
      {
        assert r in t;
      }
    }
  }

  lemma {:induction false} FitsAfterAdd(n: Node, s: Content, path: seq<string>, v: Any, q: seq<string>)
    requires Wordy(q) && NodeFits(NodeAt(n, q), s, q) && path != []
    ensures NodeFits(NodeAt(Add(n, path, v), q), s[path := v], q)
  {
    hide Wordy, Add, Extended, OnlyIndexed, Indexes;
    AddNode(n, path, v, q);
    if !(q <= path) {
      WriteElsewhere(s, path, v, q);
    } else if q == path {
      SetsValue(NodeAt(n, q).GetOr(NEW), v);
      assert path[|q|..] == [];
    } else {
      WriteBelow(s, path, v, q);
      var rest := path[|q|..];
      IndexesRest(path, |q|);
      AddTracks(NodeAt(n, q).GetOr(NEW), rest, v);
      if NodeAt(n, q).None? { NothingThrough(s, q); }
    }
  }

  lemma {:induction false} SetsValue(n: Node, v: Any)
    ensures Add(n, [], v).value == Some(v)
  {}

  lemma {:induction false} IndexesRest(path: seq<string>, k: nat)
    requires k < |path|
    ensures Indexes(path, k) == Indexes(path[k..], 0) && path[k..] != []
  {
    hide Digit;
  }

  lemma {:induction false} NothingThrough(s: Content, q: seq<string>)
    requires !Extended(s, q)
    ensures OnlyIndexed(s, q)
  {
    hide Indexes;
  }

  /** After any pairs, the node of such a path is what the last writes call for. */
  lemma {:induction false} GrownFits(pairs: seq<Pair>, q: seq<string>)
    requires Wordy(q)
    ensures NodeFits(NodeAt(Grown(pairs), q), LastWrites(pairs), q)
    decreases |pairs|
  {
    hide Wordy, NodeFits, NodeAt, Path, Counts, Add;
    if pairs == [] {
      NothingFits(q);
    } else {
      var front, last := pairs[..|pairs| - 1], pairs[|pairs| - 1];
      GrownFits(front, q);
      GrownStep(pairs);
      if Counts(last) {
        CountsHasPath(last);
        FitsAfterAdd(Grown(front), LastWrites(front), Path(last.key), last.value, q);
      }
    }
  }

  lemma {:induction false} NothingFits(q: seq<string>)
    ensures NodeFits(NodeAt(Grown([]), q), LastWrites([]), q)
  {
    NewHasNoNodes(q);
  }

  // ----- the last write wins -----

  lemma {:induction false} WordPlace(n: Node, place: seq<Leg>)
    requires Wordy(Names(place))
    ensures At(n, place) == match NodeAt(n, Names(place)) case None => None case Some(x) => x.value
    decreases |place|
  {
    hide Digit, Itoa;
    if place != [] {
      assert Names(place)[0] == place[0].Name() && Names(place)[1..] == Names(place[1..]);
      if place[0].Ix? { DigitIsItoa(Names(place)[0], place[0].i); }
      var c := Kid(n, place[0]);
      WordyTail(Names(place));
      if c.Some? { WordPlace(c.value, place[1..]); }
    }
  }

  lemma {:induction false} WordyTail(p: seq<string>)
    requires p != [] && Wordy(p)
    ensures Wordy(p[1..])
  {
    hide Digit;
  }

  /** The last write to a path is some pair's value. */
  lemma {:induction false} LastWriteOf(pairs: seq<Pair>, path: seq<string>) returns (m: nat)
    requires path in LastWrites(pairs)
    ensures LastWith(pairs, m, path) && LastWrites(pairs)[path] == pairs[m].value
    decreases |pairs|
  {
    hide Path, Counts;
    var front, last := pairs[..|pairs| - 1], pairs[|pairs| - 1];
    if Counts(last) && Path(last.key) == path {
      m := |front|;
    } else {
      m := LastWriteOf(front, path);
      forall j | m < j < |pairs| && Counts(pairs[j])
        ensures Path(pairs[j].key) != path
      {
        if j < |front| { assert front[j] == pairs[j]; }
      }
    }
  }

  /** On a path without numerals the last write always wins, whatever other keys do. */
  lemma {:induction false} OverwrittenWordIsLost(pairs: seq<Pair>, j: nat, i: nat)
    requires ScalarPairs(pairs) && OwnValue(pairs, j) && Overwrites(pairs, j, i) && Wordy(Path(pairs[j].key))
    ensures !Emits(pairs, pairs[j].value)
  {
    hide Path, Counts, Grown, Surfaces, Writer, Names, Emits, At, Wordy, NodeAt, LastWrites, Extended, OnlyIndexed;
    var path := Path(pairs[j].key);
    if Emits(pairs, pairs[j].value) {
      EmittedIff(pairs, j);
      var place :| Writer(pairs, place) == Some(j) && Surfaces(Grown(pairs), place);
      HeldByWriter(pairs, place);
      WordPlace(Grown(pairs), place);
      GrownFits(pairs, path);
      var m := LastWriteOf(pairs, path);
    }
  }
}
