/** On uniform keys nothing is lost: every path is in the output, indices replaced by their ranks. */
module Arrays {
  import opened Prelude
  import opened Text
  import opened Keys
  import opened Trie
  import opened Materialize
  import opened Tracks
  import opened Emission
  import opened Losses
  import opened UniformKeys

  /** A built node uses one track, and its children are built from the content below. */
  lemma {:induction false} BuildTracks(s: Content, d: nat)
    requires Bounded(s, d)
    ensures Build(s, d).indices == map[] || Build(s, d).branches == map[]
    ensures forall i | i in Build(s, d).indices :: d > 0 && Build(s, d).indices[i] == BuildBelow(s, Itoa(i), d)
    ensures forall seg | seg in Build(s, d).branches :: d > 0 && Build(s, d).branches[seg] == BuildBelow(s, seg, d)
  {
    hide Digit, Itoa, Below, Heads, IndexHeads, OnIndices, BuildBelow;
  }

  lemma {:induction false} BuildIsDisjoint(s: Content, d: nat)
    requires Bounded(s, d)
    ensures Disjoint(Build(s, d))
    decreases d
  {
    hide Digit, Itoa, Build, Bounded;
    BuildTracks(s, d);
    if d > 0 {
      forall seg: string
        ensures Disjoint(BuildBelow(s, seg, d))
      {
        BuildBelowIs(s, seg, d);
        BuildIsDisjoint(Below(s, seg), d - 1);
      }
    }
  }

  /** The child of a built trie, whichever track it is on. */
  lemma {:induction false} BuildChild(s: Content, d: nat, seg: string)
    requires Bounded(s, d) && d > 0 && Uniform(s.Keys)
    ensures ChildOf(Build(s, d), seg) == if seg in Heads(s) then Some(BuildBelow(s, seg, d)) else None
  {
    hide Digit, Itoa, Below, BuildBelow, Agree, IndexHeads;
    var n := Build(s, d);
    if OnIndices(s) {
      if seg in Heads(s) {
        var p :| p in s && p != [] && p[0] == seg;
        AllOrNone(s, p);
        DigitIsItoa(seg, Digit(seg).value);
        IndexHeadIff(s, Digit(seg).value);
      } else if Digit(seg).Some? {
        DigitIsItoa(seg, Digit(seg).value);
        IndexHeadIff(s, Digit(seg).value);
      }
    }
  }

  lemma {:induction false} PathHasHead(s: Content, path: seq<string>)
    requires path in s && path != []
    ensures path[0] in Heads(s) && path[1..] in Below(s, path[0]) && Below(s, path[0])[path[1..]] == s[path]
  {
    assert path == [path[0]] + path[1..];
  }

  /** A built trie holds exactly its content. */
  lemma {:induction false} BuildLookup(s: Content, d: nat, path: seq<string>)
    requires Bounded(s, d) && Uniform(s.Keys)
    ensures Lookup(Build(s, d), path) == if path in s then Some(s[path]) else None
    decreases |path|
  {
    hide Digit, Uniform, Heads, Below, Build, BuildBelow, ChildOf, Bounded;
    if path == [] {
      BuildValue(s, d);
    } else if d == 0 {
      BuildLeaf(s, d);
      LeafHoldsNothing(Build(s, d), path);
    } else {
      var seg, rest := path[0], path[1..];
      assert path == [seg] + rest;
      BuildChild(s, d, seg);
      BuildBelowIs(s, seg, d);
      BelowHas(s, seg, rest);
      UniformBelow(s, seg);
      BuildLookup(Below(s, seg), d - 1, rest);
      HeadOrNothing(s, seg);
      if path in s { PathHasHead(s, path); }
    }
  }

  lemma {:induction false} LeafHoldsNothing(n: Node, path: seq<string>)
    requires n.indices == map[] && n.branches == map[] && path != []
    ensures Lookup(n, path) == None
  {}

  lemma {:induction false} BelowHas(s: Content, seg: string, rest: seq<string>)
    ensures rest in Below(s, seg) <==> [seg] + rest in s
    ensures rest in Below(s, seg) ==> Below(s, seg)[rest] == s[[seg] + rest]
  {}

  lemma {:induction false} BuildValue(s: Content, d: nat)
    requires Bounded(s, d)
    ensures Build(s, d).value == if [] in s then Some(s[[]]) else None
  {
    hide Digit, Heads, Below, BuildBelow, OnIndices;
  }

  lemma {:induction false} BuildLeaf(s: Content, d: nat)
    requires Bounded(s, 0) && d == 0
    ensures Build(s, 0).indices == map[] && Build(s, 0).branches == map[]
    ensures forall p | p in s :: p == []
  {}

  predicate PrefixFree(paths: set<seq<string>>) {
    forall p, q | p in paths && q in paths && p <= q :: p == q
  }

  /** The way to a path's value: a branch is a map key, an index its rank among its siblings. */
  ghost function Hops(s: Content, path: seq<string>): seq<Hop>
    decreases |path|
  {
    if path == [] then []
    else
      var hop := if Indexes(path, 0) then Pos(Rank(IndexHeads(s), Digit(path[0]).value)) else Key(path[0]);
      [hop] + Hops(Below(s, path[0]), path[1..])
  }

  lemma {:induction false} PrefixFreeBelow(s: Content, seg: string)
    requires PrefixFree(s.Keys)
    ensures PrefixFree(Below(s, seg).Keys)
  {
    hide Heads;
    forall p, q | p in Below(s, seg) && q in Below(s, seg) && p <= q
      ensures p == q
    {
      assert [seg] + p in s.Keys && [seg] + q in s.Keys;
      assert [seg] + p <= [seg] + q;
      assert ([seg] + p)[1..] == p && ([seg] + q)[1..] == q;
    }
  }

  lemma {:induction false} NoKeyAbove(s: Content, path: seq<string>)
    requires PrefixFree(s.Keys) && path in s && path != []
    ensures [] !in s
  {
    assert [] <= path;
  }

  /** In a built trie over prefix-free keys, spots are just the hops. */
  lemma {:induction false} BuildSpot(s: Content, d: nat, k: string, path: seq<string>)
    requires Bounded(s, d) && Uniform(s.Keys) && PrefixFree(s.Keys) && path in s
    ensures Spot(Build(s, d), k, Legs(Build(s, d), path)) == Some([Key(k)] + Hops(s, path))
    decreases |path|, 1
  {
    hide Digit, Uniform, Heads, Below, PrefixFree, Build, Inside;
    BuildValue(s, d);
    if path != [] {
      NoKeyAbove(s, path);
      BuildInside(s, d, path);
    } else {
      assert [Key(k)] + [] == [Key(k)];
    }
  }

  lemma {:induction false} BuildInside(s: Content, d: nat, path: seq<string>)
    requires Bounded(s, d) && Uniform(s.Keys) && PrefixFree(s.Keys) && path in s && path != []
    ensures Inside(Build(s, d), Legs(Build(s, d), path)) == Some(Hops(s, path))
    decreases |path|, 0
  {
    hide Uniform, Below, PrefixFree, Build, BuildBelow, Spot, Inside, Hops, Legs, Indexes;
    var seg, rest := path[0], path[1..];
    var t := Below(s, seg);
    assert path == [seg] + rest;
    LongEnough(s, d, path);
    BuildBelowIs(s, seg, d);
    UniformBelow(s, seg);
    PrefixFreeBelow(s, seg);
    NoKeyAbove(s, path);
    if Indexes(path, 0) {
      IndexesLonger(path);
      BuildInside(t, d - 1, rest);
      BuildInsideIndex(s, d, path, Build(t, d - 1), Hops(t, rest));
    } else {
      BuildSpot(t, d - 1, seg, rest);
      BuildInsideBranch(s, d, path, Build(t, d - 1));
    }
    HopsOf(s, path);
  }

  lemma {:induction false} IndexesLonger(path: seq<string>)
    requires path != [] && Indexes(path, 0)
    ensures |path| > 1 && Digit(path[0]).Some?
  {}

  lemma {:induction false} HopsOf(s: Content, path: seq<string>)
    requires path != []
    ensures Hops(s, path) ==
            [if Indexes(path, 0) then Pos(Rank(IndexHeads(s), Digit(path[0]).value)) else Key(path[0])]
            + Hops(Below(s, path[0]), path[1..])
  {}

  lemma {:induction false} BuildInsideIndex(s: Content, d: nat, path: seq<string>, c: Node, rest: seq<Hop>)
    requires Bounded(s, d) && d > 0 && Uniform(s.Keys) && path in s && path != [] && Indexes(path, 0)
    requires BuildBelow(s, path[0], d) == c && Inside(c, Legs(c, path[1..])) == Some(rest)
    ensures Inside(Build(s, d), Legs(Build(s, d), path)) ==
            Some([Pos(Rank(IndexHeads(s), Digit(path[0]).value))] + rest)
  {
    hide Uniform, Heads, Below, Rank, BuildBelow, Build, Itoa, IndexHeads, Inside, Legs;
    var i := Digit(path[0]).value;
    AllOrNone(s, path);
    IndexBuild(s, d);
    PathHasHead(s, path);
    DigitIsItoa(path[0], i);
    IndexHeadIff(s, i);
    assert Build(s, d).indices.Keys == IndexHeads(s);
    InsideArray(Build(s, d), path, i, rest);
  }

  lemma {:induction false} BuildInsideBranch(s: Content, d: nat, path: seq<string>, c: Node)
    requires Bounded(s, d) && d > 0 && Uniform(s.Keys) && path in s && path != [] && !Indexes(path, 0)
    requires BuildBelow(s, path[0], d) == c
    ensures Inside(Build(s, d), Legs(Build(s, d), path)) == Spot(c, path[0], Legs(c, path[1..]))
  {
    hide Uniform, Heads, Below, BuildBelow, Build, Inside, Legs, Spot, Indexes;
    AllOrNone(s, path);
    BranchBuild(s, d);
    PathHasHead(s, path);
    InsideMap(Build(s, d), path);
  }

  lemma {:induction false} InsideArray(n: Node, path: seq<string>, i: nat, rest: seq<Hop>)
    requires |path| > 1 && Digit(path[0]) == Some(i) && i in n.indices && n.branches == map[]
    requires Inside(n.indices[i], Legs(n.indices[i], path[1..])) == Some(rest)
    ensures Inside(n, Legs(n, path)) == Some([Pos(Rank(n.indices.Keys, i))] + rest)
  {
    hide Digit, Rank;
    assert Legs(n, path) == [Ix(i)] + Legs(n.indices[i], path[1..]);
    assert Legs(n, path)[1..] == Legs(n.indices[i], path[1..]);
  }

  lemma {:induction false} InsideMap(n: Node, path: seq<string>)
    requires path != [] && path[0] in n.branches
    ensures Legs(n, path) != []
    ensures Inside(n, Legs(n, path)) == Spot(n.branches[path[0]], path[0], Legs(n.branches[path[0]], path[1..]))
    ensures RootAddress(n, path) == Spot(n.branches[path[0]], path[0], Legs(n.branches[path[0]], path[1..]))
  {
    hide Digit, Spot;
    assert Legs(n, path)[1..] == Legs(n.branches[path[0]], path[1..]);
  }

  lemma {:induction false} BuildBelowIs(s: Content, seg: string, d: nat)
    requires Bounded(s, d) && d > 0
    ensures Bounded(Below(s, seg), d - 1) && BuildBelow(s, seg, d) == Build(Below(s, seg), d - 1)
  {
    hide Build, Below;
  }

  /**
   Losslessness: for keys of which none is a prefix of another, uniform and with no array at the
   root, every path's last value is in the output, reached by its segments with each array position
   replaced by its rank among its sibling indices.
   */
  lemma {:induction false} EveryPathIsFound(pairs: seq<Pair>, path: seq<string>)
    requires var s := LastWrites(pairs);
             && Uniform(s.Keys) && PrefixFree(s.Keys) && RootedInBranches(s.Keys) && path in s
    ensures Dig(Dict(Unflattened(pairs)), Hops(LastWrites(pairs), path)) == Some(LastWrites(pairs)[path])
  {
    hide Digit, Uniform, Heads, Below, PrefixFree, Build, BuildBelow, Spot, RootSpot, Hops, MatRoot, LastWrites,
      Shaped, At;
    var s := LastWrites(pairs);
    var d := BoundExists(pairs);
    var root := Grown(pairs);
    GrownIsBuilt(pairs, d);
    GrownIsShaped(pairs);
    BuildLookup(s, d, path);
    assert path != [];
    AllOrNone(s, path);
    BranchBuild(s, d);
    PathHasHead(s, path);
    LongEnough(s, d, path);
    BuildBelowIs(s, path[0], d);
    UniformBelow(s, path[0]);
    PrefixFreeBelow(s, path[0]);
    BuildSpot(Below(s, path[0]), d - 1, path[0], path[1..]);
    HopsStep(s, path);
    InsideMap(root, path);
    LookupAt(root, path);
    RootSpotFinds(root, Legs(root, path));
  }

  lemma {:induction false} LongEnough(s: Content, d: nat, path: seq<string>)
    requires Bounded(s, d) && path in s && path != []
    ensures d > 0
  {}

  lemma {:induction false} HopsStep(s: Content, path: seq<string>)
    requires path != [] && !Indexes(path, 0)
    ensures Hops(s, path) == [Key(path[0])] + Hops(Below(s, path[0]), path[1..])
  {}

  /** And in any order: a permutation of the pairs gives the same output. */
  lemma {:induction false} SameOutputInAnyOrder(a: seq<Pair>, b: seq<Pair>)
    requires multiset(a) == multiset(b) && DistinctPaths(a) && DistinctPaths(b) && Uniform(LastWrites(a).Keys)
    ensures Unflattened(a) == Unflattened(b)
  {
    PermutationIndependent(a, b);
  }

  /** Uniform keys never split: for them the key-wise account of losses holds outright. */
  lemma {:induction false} UniformNeverSplits(pairs: seq<Pair>)
    requires Uniform(LastWrites(pairs).Keys)
    ensures NeverSplits(pairs)
    decreases |pairs|
  {
    hide Uniform, Bounded, Disjoint, Build, Grown, Path, Splits, Counts;
    if pairs != [] {
      var front := pairs[..|pairs| - 1];
      PrefixUniform(LastWrites(front).Keys, LastWrites(pairs).Keys);
      UniformNeverSplits(front);
      var d := BoundExists(pairs);
      GrownIsBuilt(pairs, d);
      BuildIsDisjoint(LastWrites(pairs), d);
      GrownDisjoint(pairs);
    }
  }

  lemma {:induction false} PrefixUniform(part: set<seq<string>>, whole: set<seq<string>>)
    requires part <= whole && Uniform(whole)
    ensures Uniform(part)
  {}
}
