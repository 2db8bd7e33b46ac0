/**
 When order does not matter: if the siblings under every prefix agree on whether they are array
 positions, the trie is a function of the last value written to each path.
 */
module UniformKeys {
  import opened Prelude
  import opened Text
  import opened Keys
  import opened Trie
  import opened Losses

  type Content = map<seq<string>, Any>

  /** p goes on from its first k segments by a numeral that does not end it. */
  predicate Indexes(p: seq<string>, k: nat) {
    k + 1 < |p| && Digit(p[k]).Some?
  }

  /** Two paths that share a prefix either both go on from it by a non-final numeral, or neither does. */
  predicate Agree(p: seq<string>, q: seq<string>) {
    forall k: nat | k <= |p| && k <= |q| && p[..k] == q[..k] && Indexes(p, k) :: Indexes(q, k)
  }

  predicate Uniform(paths: set<seq<string>>) {
    forall p, q | p in paths && q in paths :: Agree(p, q)
  }

  /** No path starts by a non-final numeral: the root is not an array. */
  predicate RootedInBranches(paths: set<seq<string>>) {
    forall p | p in paths :: !Indexes(p, 0)
  }

  // ----- the trie a content describes -----

  function Heads(s: Content): set<string> {
    set p | p in s && p != [] :: p[0]
  }

  function Tails(s: Content, seg: string): set<seq<string>> {
    set p | p in s && p != [] && p[0] == seg :: p[1..]
  }

  function Below(s: Content, seg: string): (t: Content)
    ensures forall r :: r in t <==> [seg] + r in s
    ensures forall r | r in t :: t[r] == s[[seg] + r]
  {
    assert forall r :: r in Tails(s, seg) <==> [seg] + r in s by {
      forall r: seq<string>
        ensures r in Tails(s, seg) <==> [seg] + r in s
      {
        if r in Tails(s, seg) {
          var p :| p in s && p != [] && p[0] == seg && p[1..] == r;
          assert p == [seg] + r;
        }
        if [seg] + r in s {
          assert ([seg] + r)[1..] == r;
        }
      }
    }
    map r | r in Tails(s, seg) :: s[[seg] + r]
  }

  predicate Bounded(s: Content, d: nat) {
    forall p | p in s :: |p| <= d
  }

  predicate OnIndices(s: Content) {
    exists p | p in s :: Indexes(p, 0)
  }

  /** The trie with exactly this content; d bounds the paths' lengths. */
  function Build(s: Content, d: nat): Node
    requires Bounded(s, d)
    decreases d, 0
  {
    var value := if [] in s then Some(s[[]]) else None;
    if d == 0 then Node(value, map[], map[])
    else if OnIndices(s) then Node(value, map i | i in IndexHeads(s) :: BuildBelow(s, Itoa(i), d), map[])
    else Node(value, map[], map seg | seg in Heads(s) :: BuildBelow(s, seg, d))
  }

  function BuildBelow(s: Content, seg: string, d: nat): Node
    requires Bounded(s, d) && d > 0
    decreases d - 1, 1
  {
    BelowBounded(s, seg, d);
    Build(Below(s, seg), d - 1)
  }

  function IndexHeads(s: Content): set<nat> {
    set seg | seg in Heads(s) && Digit(seg).Some? :: Digit(seg).value
  }

  lemma {:induction false} BelowBounded(s: Content, seg: string, d: nat)
    requires Bounded(s, d) && d > 0
    ensures Bounded(Below(s, seg), d - 1)
  {
    forall r | r in Below(s, seg)
      ensures |r| <= d - 1
    {
      assert |[seg] + r| <= d;
    }
  }

  // ----- uniformity below -----

  lemma {:induction false} AgreeBelow(seg: string, p: seq<string>, q: seq<string>)
    requires Agree([seg] + p, [seg] + q)
    ensures Agree(p, q)
  {
    hide Digit;
    forall k: nat | k <= |p| && k <= |q| && p[..k] == q[..k] && Indexes(p, k)
      ensures Indexes(q, k)
    {
      assert ([seg] + p)[..k + 1] == [seg] + p[..k];
      assert ([seg] + q)[..k + 1] == [seg] + q[..k];
      assert ([seg] + p)[k + 1] == p[k];
      assert Indexes([seg] + p, k + 1);
      assert Indexes([seg] + q, k + 1);
    }
  }

  lemma {:induction false} UniformBelow(s: Content, seg: string)
    requires Uniform(s.Keys)
    ensures Uniform(Below(s, seg).Keys)
  {
    hide Agree;
    forall p, q | p in Below(s, seg) && q in Below(s, seg)
      ensures Agree(p, q)
    {
      assert [seg] + p in s.Keys && [seg] + q in s.Keys;
      AgreeBelow(seg, p, q);
    }
  }

  /** At one node, all paths are array positions or none is. */
  lemma {:induction false} AllOrNone(s: Content, p: seq<string>)
    requires Uniform(s.Keys) && p in s
    ensures OnIndices(s) <==> Indexes(p, 0)
    ensures OnIndices(s) ==> forall q | q in s :: Indexes(q, 0)
  {
    hide Digit;
    if OnIndices(s) {
      var q :| q in s && Indexes(q, 0);
      forall r | r in s
        ensures Indexes(r, 0)
      {
        assert Agree(q, r);
        assert q[..0] == r[..0];
      }
    }
  }

  // ----- adding a path to a built trie -----

  lemma {:induction false} BelowUpdate(s: Content, path: seq<string>, v: Any, seg: string)
    ensures Below(s[path := v], seg) ==
            if path != [] && path[0] == seg then Below(s, seg)[path[1..] := v] else Below(s, seg)
  {
    var t := s[path := v];
    assert path != [] ==> path == [path[0]] + path[1..];
    forall r: seq<string>
      ensures [seg] + r == path <==> path != [] && path[0] == seg && r == path[1..]
    {
      assert ([seg] + r)[1..] == r;
    }
  }

  lemma {:induction false} HeadsUpdate(s: Content, path: seq<string>, v: Any)
    ensures Heads(s[path := v]) == if path == [] then Heads(s) else Heads(s) + {path[0]}
  {
    var t := s[path := v];
    forall seg | seg in Heads(s)
      ensures seg in Heads(t)
    {
      var p :| p in s && p != [] && p[0] == seg;
      assert p in t;
    }
    if path != [] { assert path in t; }
  }

  lemma {:induction false} HeadOrNothing(s: Content, seg: string)
    ensures seg in Heads(s) || Below(s, seg) == map[]
  {
    if Below(s, seg) != map[] {
      var r :| r in Below(s, seg);
      var p := [seg] + r;
      assert p in s && p[0] == seg;
    }
  }

  lemma {:induction false} OnIndicesGrows(s: Content, path: seq<string>, v: Any)
    ensures OnIndices(s) ==> OnIndices(s[path := v])
  {
    if OnIndices(s) {
      var p :| p in s && Indexes(p, 0);
      assert p in s[path := v];
    }
  }

  lemma {:induction false} EmptyBuild(d: nat)
    ensures Build(map[], d) == NEW
  {}

  lemma {:induction false} BelowNonHead(s: Content, seg: string, d: nat)
    requires Bounded(s, d) && d > 0 && seg !in Heads(s)
    ensures BuildBelow(s, seg, d) == NEW
  {
    BelowBounded(s, seg, d);
    HeadOrNothing(s, seg);
    EmptyBuild(d - 1);
  }

  lemma {:induction false} BelowUnchanged(s: Content, d: nat, path: seq<string>, v: Any, seg: string)
    requires Bounded(s, d) && Bounded(s[path := v], d) && d > 0 && (path == [] || path[0] != seg)
    ensures BuildBelow(s[path := v], seg, d) == BuildBelow(s, seg, d)
  {
    hide Build;
    BelowUpdate(s, path, v, seg);
  }

  lemma {:induction false} IndexHeadIff(s: Content, i: nat)
    ensures i in IndexHeads(s) <==> Itoa(i) in Heads(s)
  {
    hide Digit, Itoa;
    DigitIsItoa(Itoa(i), i);
    if i in IndexHeads(s) {
      var seg :| seg in Heads(s) && Digit(seg).Some? && Digit(seg).value == i;
      DigitIsItoa(seg, i);
    }
  }

  /** Build, for a content without array positions at the top. */
  lemma {:induction false} BranchBuild(s: Content, d: nat)
    requires Bounded(s, d) && !OnIndices(s)
    ensures Build(s, d).value == (if [] in s then Some(s[[]]) else None) && Build(s, d).indices == map[]
    ensures d > 0 ==> Build(s, d).branches == map seg | seg in Heads(s) :: BuildBelow(s, seg, d)
    ensures d == 0 ==> Build(s, d).branches == map[] && Heads(s) == {}
  {
    hide BuildBelow;
    if d == 0 {
      forall p | p in s
        ensures p == []
      {}
    }
  }

  lemma {:induction false} SetValueWithoutIndices(n: Node, v: Any)
    ensures n.indices == map[] ==> SetValue(n, v) == Node(Some(v), map[], n.branches)
  {
    if n.indices == map[] {
      assert AsBranches(n.indices) == map[];
    }
  }

  lemma {:induction false} AddValueToBuild(s: Content, d: nat, v: Any)
    requires Bounded(s, d) && Bounded(s[[] := v], d) && Uniform(s[[] := v].Keys)
    ensures SetValue(Build(s, d), v) == Build(s[[] := v], d)
  {
    hide Agree, Digit, Uniform, Build, BuildBelow, Bounded, Below, Heads, SetValue, OnIndices;
    var t := s[[] := v];
    EmptyIndexes();
    AllOrNone(t, []);
    OnIndicesGrows(s, [], v);
    SetValueWithoutIndices(Build(s, d), v);
    BranchBuild(s, d);
    BranchBuild(t, d);
    HeadsUpdate(s, [], v);
    if d > 0 {
      forall seg: string
        ensures BuildBelow(t, seg, d) == BuildBelow(s, seg, d)
      {
        BelowUnchanged(s, d, [], v, seg);
      }
    }
  }

  lemma {:induction false} UpdateBounded(s: Content, d: nat, path: seq<string>, v: Any)
    requires Bounded(s, d) && |path| <= d
    ensures Bounded(s[path := v], d)
  {}

  lemma {:induction false} SubsetUniform(s: Content, path: seq<string>, v: Any)
    requires Uniform(s[path := v].Keys)
    ensures Uniform(s.Keys)
  {
    hide Agree;
    assert s.Keys <= s[path := v].Keys;
  }

  lemma {:induction false} IndexBuild(s: Content, d: nat)
    requires Bounded(s, d) && d > 0 && (s == map[] || OnIndices(s)) && [] !in s
    ensures Build(s, d).value.None? && Build(s, d).branches == map[]
    ensures Build(s, d).indices == map i | i in IndexHeads(s) :: BuildBelow(s, Itoa(i), d)
  {
    hide BuildBelow, Digit, Itoa;
    if s == map[] {
      EmptyBuild(d);
    }
  }

  /** The index case: every path at this node is an array position. */
  lemma {:induction false} AddIndexToBuild(s: Content, d: nat, path: seq<string>, v: Any)
    requires Bounded(s, d) && Bounded(s[path := v], d) && d > 0 && path != [] && Indexes(path, 0) &&
             Uniform(s[path := v].Keys)
    requires Add(BuildBelow(s, path[0], d), path[1..], v) == BuildBelow(s[path := v], path[0], d)
    ensures Add(Build(s, d), path, v) == Build(s[path := v], d)
  {
    hide Agree, Digit, Itoa, Add, Below, Heads, Build, BuildBelow, Bounded, Uniform, IndexHeads;
    var t := s[path := v];
    var n := Build(s, d);
    var i := Digit(path[0]).value;
    AllOrNone(t, path);
    if s != map[] {
      var q :| q in s;
      assert q in t;
      assert OnIndices(s);
    }
    EmptyIndexes();
    IndexBuild(s, d);
    IndexBuild(t, d);
    IndexHeadsUpdate(s, d, path, v);
    AddStep(n, path, v);
  }

  lemma {:induction false} IndexHeadsUpdate(s: Content, d: nat, path: seq<string>, v: Any)
    requires Bounded(s, d) && Bounded(s[path := v], d) && d > 0 && path != [] && Digit(path[0]).Some?
    ensures var t, i := s[path := v], Digit(path[0]).value;
            && path[0] == Itoa(i)
            && (forall j :: j in IndexHeads(t) <==> j in IndexHeads(s) || j == i)
            && (forall j | j in IndexHeads(t) && j != i :: BuildBelow(t, Itoa(j), d) == BuildBelow(s, Itoa(j), d))
            && (i !in IndexHeads(s) ==> BuildBelow(s, path[0], d) == NEW)
  {
    hide Digit, Itoa, Below, Heads, Build, BuildBelow, Bounded, IndexHeads;
    var t, i := s[path := v], Digit(path[0]).value;
    DigitIsItoa(path[0], i);
    HeadsUpdate(s, path, v);
    forall j: nat
      ensures j in IndexHeads(t) <==> j in IndexHeads(s) || j == i
      ensures j != i ==> BuildBelow(t, Itoa(j), d) == BuildBelow(s, Itoa(j), d)
    {
      IndexHeadIff(s, j);
      IndexHeadIff(t, j);
      if Itoa(j) == Itoa(i) { ItoaInjective(i, j); }
      if j != i { BelowUnchanged(s, d, path, v, Itoa(j)); }
    }
    IndexHeadIff(s, i);
    if i !in IndexHeads(s) { BelowNonHead(s, path[0], d); }
  }

  lemma {:induction false} EmptyIndexes()
    ensures !Indexes([], 0)
  {}

  lemma {:induction false} AddStep(n: Node, path: seq<string>, v: Any)
    requires path != []
    ensures Add(n, path, v) == WithChild(n, path[0], |path| == 1, Add(Stepped(n, path[0], |path| == 1), path[1..], v))
  {}

  /** The branch case: no path at this node is an array position. */
  lemma {:induction false} AddBranchToBuild(s: Content, d: nat, path: seq<string>, v: Any)
    requires Bounded(s, d) && Bounded(s[path := v], d) && d > 0 && path != [] && !Indexes(path, 0) &&
             Uniform(s[path := v].Keys)
    requires Add(BuildBelow(s, path[0], d), path[1..], v) == BuildBelow(s[path := v], path[0], d)
    ensures Add(Build(s, d), path, v) == Build(s[path := v], d)
  {
    hide Agree, Digit, Itoa, Add, Below, Heads, Build, BuildBelow, Bounded, Uniform;
    var t := s[path := v];
    var n := Build(s, d);
    AllOrNone(t, path);
    OnIndicesGrows(s, path, v);
    BranchBuild(s, d);
    BranchBuild(t, d);
    HeadsUpdate(s, path, v);
    forall seg: string | seg != path[0]
      ensures BuildBelow(t, seg, d) == BuildBelow(s, seg, d)
    {
      BelowUnchanged(s, d, path, v, seg);
    }
    if path[0] !in Heads(s) { BelowNonHead(s, path[0], d); }
    AddStep(n, path, v);
  }

  /** Adding to the trie of a content gives the trie of the updated content, as long as that is uniform. */
  lemma {:induction false} AddToBuild(s: Content, d: nat, path: seq<string>, v: Any)
    requires Bounded(s, d) && |path| <= d && Uniform(s[path := v].Keys)
    ensures Bounded(s[path := v], d) && Add(Build(s, d), path, v) == Build(s[path := v], d)
    decreases |path|
  {
    hide Uniform, Indexes, Build, Below, Bounded, Add;
    UpdateBounded(s, d, path, v);
    if path == [] {
      AddValueToBuild(s, d, v);
      AddNothing(Build(s, d), v);
    } else {
      BelowBounded(s, path[0], d);
      BelowBounded(s[path := v], path[0], d);
      BelowUpdate(s, path, v, path[0]);
      UniformBelow(s[path := v], path[0]);
      AddToBuild(Below(s, path[0]), d - 1, path[1..], v);
      assert Add(BuildBelow(s, path[0], d), path[1..], v) == BuildBelow(s[path := v], path[0], d);
      if Indexes(path, 0) {
        AddIndexToBuild(s, d, path, v);
      } else {
        AddBranchToBuild(s, d, path, v);
      }
    }
  }

  lemma {:induction false} AddNothing(n: Node, v: Any)
    ensures Add(n, [], v) == SetValue(n, v)
  {}

  // ----- whole lists of pairs -----

  /** The last value written to each canonical path. */
  function LastWrites(pairs: seq<Pair>): Content {
    if pairs == [] then map[]
    else
      var front, last := LastWrites(pairs[..|pairs| - 1]), pairs[|pairs| - 1];
      if Counts(last) then front[Path(last.key) := last.value] else front
  }

  /** On uniform keys the trie is the trie of the last writes. */
  lemma {:induction false} GrownIsBuilt(pairs: seq<Pair>, d: nat)
    requires Bounded(LastWrites(pairs), d) && Uniform(LastWrites(pairs).Keys)
    ensures Grown(pairs) == Build(LastWrites(pairs), d)
    decreases |pairs|
  {
    hide Uniform, Bounded, Build, Add, Path, Counts;
    if pairs == [] {
      EmptyBuild(d);
    } else {
      var front, last := pairs[..|pairs| - 1], pairs[|pairs| - 1];
      GrownStep(pairs);
      if Counts(last) {
        FrontBounded(LastWrites(front), d, Path(last.key), last.value);
        SubsetUniform(LastWrites(front), Path(last.key), last.value);
        GrownIsBuilt(front, d);
        AddToBuild(LastWrites(front), d, Path(last.key), last.value);
      } else {
        GrownIsBuilt(front, d);
      }
    }
  }

  lemma {:induction false} FrontBounded(s: Content, d: nat, path: seq<string>, v: Any)
    requires Bounded(s[path := v], d)
    ensures Bounded(s, d) && |path| <= d
  {
    assert path in s[path := v];
    forall p | p in s
      ensures |p| <= d
    {
      assert p in s[path := v];
    }
  }

  lemma {:induction false} BoundExists(pairs: seq<Pair>) returns (d: nat)
    ensures Bounded(LastWrites(pairs), d)
    decreases |pairs|
  {
    hide Path, Counts;
    d := 0;
    if pairs != [] {
      var e := BoundExists(pairs[..|pairs| - 1]);
      d := e + |Path(pairs[|pairs| - 1].key)|;
    }
  }

  /** On uniform keys only the last write per path matters: the order of the pairs does not. */
  lemma {:induction false} OrderIndependent(a: seq<Pair>, b: seq<Pair>)
    requires LastWrites(a) == LastWrites(b) && Uniform(LastWrites(a).Keys)
    ensures Grown(a) == Grown(b)
  {
    var d := BoundExists(a);
    GrownIsBuilt(a, d);
    GrownIsBuilt(b, d);
  }

  // ----- permutations of distinct keys -----

  predicate DistinctPaths(pairs: seq<Pair>) {
    forall i, j | 0 <= i < j < |pairs| && Counts(pairs[i]) && Counts(pairs[j]) ::
      Path(pairs[i].key) != Path(pairs[j].key)
  }

  lemma {:induction false} LastWritesOfDistinct(pairs: seq<Pair>, path: seq<string>)
    requires DistinctPaths(pairs)
    ensures path in LastWrites(pairs) <==> exists p :: p in pairs && Counts(p) && Path(p.key) == path
    ensures forall p | p in pairs && Counts(p) && Path(p.key) == path ::
              path in LastWrites(pairs) && LastWrites(pairs)[path] == p.value
    decreases |pairs|
  {
    hide Path, Counts;
    if pairs != [] {
      var front, last := pairs[..|pairs| - 1], pairs[|pairs| - 1];
      assert pairs == front + [last];
      LastWritesOfDistinct(front, path);
      if Counts(last) && Path(last.key) == path {
        forall i | 0 <= i < |front| && Counts(front[i])
          ensures Path(front[i].key) != path
        {
          assert pairs[i] == front[i];
        }
      }
    }
  }

  /** Pairs of distinct canonical paths write the same in any order. */
  lemma {:induction false} SameLastWrites(a: seq<Pair>, b: seq<Pair>)
    requires multiset(a) == multiset(b) && DistinctPaths(a) && DistinctPaths(b)
    ensures LastWrites(a) == LastWrites(b)
  {
    hide DistinctPaths, Path, Counts;
    forall p: Pair
      ensures p in a <==> p in b
    {
      assert p in multiset(a) <==> p in multiset(b);
    }
    forall path: seq<string>
      ensures path in LastWrites(a) <==> path in LastWrites(b)
      ensures path in LastWrites(a) ==> path in LastWrites(b) && LastWrites(a)[path] == LastWrites(b)[path]
    {
      LastWritesOfDistinct(a, path);
      LastWritesOfDistinct(b, path);
      if path in LastWrites(a) {
        var p :| p in a && Counts(p) && Path(p.key) == path;
        assert p in b;
      }
      if path in LastWrites(b) {
        var p :| p in b && Counts(p) && Path(p.key) == path;
        assert p in a;
      }
    }
  }

  /** Go hands the pairs over in map order: with distinct uniform keys, any order gives the same trie. */
  lemma {:induction false} PermutationIndependent(a: seq<Pair>, b: seq<Pair>)
    requires multiset(a) == multiset(b) && DistinctPaths(a) && DistinctPaths(b) && Uniform(LastWrites(a).Keys)
    ensures Grown(a) == Grown(b)
  {
    SameLastWrites(a, b);
    OrderIndependent(a, b);
  }
}
