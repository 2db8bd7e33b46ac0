/** Which keys of the output a reader finds without descending: those below valued keys all the way. */
module TopLevel {
  import opened Prelude
  import opened Keys
  import opened Trie
  import opened Materialize
  import opened UniformKeys
  import opened Arrays
  import opened RoundTrip

  /** Every prefix of the path holds a value. */
  predicate Valued(n: Node, path: seq<string>)
    decreases |path|
  {
    n.value.Some? && (path != [] ==> ChildOf(n, path[0]).Some? && Valued(ChildOf(n, path[0]).value, path[1..]))
  }

  /** A scalar among the entries of a node lies under the spelling of a path that is valued all along. */
  lemma {:induction false} EntryIsValued(n: Node, k: string, key: string) returns (path: seq<string>)
    requires NoIndices(n) && Shaped(n) && Leaves(n) && key in Writes(n, k) && !Writes(n, k)[key].Dict?
    ensures Valued(n, path) && Lookup(n, path) == Some(Writes(n, k)[key]) && key == From(k, path)
    decreases n
  {
    hide UnionOf, Shaped, NoIndices, Leaves, From, Lookup, Writes, Valued;
    PlainWrites(n, k, key);
    if key == k || n.value.None? {
      path := [];
      FromNothing(n, k);
      ValuedHere(n);
    } else {
      var s := BranchEntry(n, k + ".", key);
      PlainBranch(n, s);
      var rest := EntryIsValued(n.branches[s], k + "." + s, key);
      path := [s] + rest;
      FromStep(k, s, rest);
      ValuedBelow(n, s, rest);
    }
  }

  lemma {:induction false} ValuedHere(n: Node)
    ensures Valued(n, []) <==> n.value.Some?
  {}

  lemma {:induction false} ValuedBelow(n: Node, s: string, rest: seq<string>)
    requires s in n.branches
    ensures Valued(n, [s] + rest) <==> n.value.Some? && Valued(n.branches[s], rest)
  {
    assert ([s] + rest)[1..] == rest;
  }

  lemma {:induction false} ValuedIsEntry(n: Node, k: string, path: seq<string>)
    requires NoIndices(n) && Shaped(n) && Leaves(n) && Valued(n, path)
    ensures Lookup(n, path).Some? && From(k, path) in Writes(n, k)
    ensures Writes(n, k)[From(k, path)] == Lookup(n, path).value
    decreases n
  {
    hide UnionOf, Shaped, NoIndices, Leaves, Lookup, Writes, Valued;
    PlainWrites(n, k, From(k, path));
    if path == [] {
      FromNothing(n, k);
      ValuedHere(n);
    } else {
      var s, rest := path[0], path[1..];
      assert path == [s] + rest;
      ValuedStep(n, path);
      PlainBranch(n, s);
      ValuedBelow(n, s, rest);
      ValuedIsEntry(n.branches[s], k + "." + s, rest);
      FromStep(k, s, rest);
      BranchEntryIn(n, k + ".", s, From(k, path));
      assert |From(k, path)| > |k|;
    }
  }

  lemma {:induction false} ValuedStep(n: Node, path: seq<string>)
    requires NoIndices(n) && Valued(n, path) && path != []
    ensures path[0] in n.branches && n.value.Some?
  {}

  /** Valued below the root's child: every non-empty prefix has a value. */
  lemma {:induction false} ValuedIff(n: Node, path: seq<string>)
    ensures Valued(n, path) <==> forall i | 0 <= i <= |path| :: Lookup(n, path[..i]).Some?
    decreases |path|
  {
    hide Digit, ChildOf;
    assert path[..0] == [];
    if path != [] {
      if ChildOf(n, path[0]).Some? {
        var c := ChildOf(n, path[0]).value;
        ValuedIff(c, path[1..]);
        forall i | 1 <= i <= |path|
          ensures Lookup(n, path[..i]) == Lookup(c, path[1..][..i - 1])
        {
          assert path[..i][1..] == path[1..][..i - 1];
        }
        if Valued(n, path) {
          forall i | 0 <= i <= |path|
            ensures Lookup(n, path[..i]).Some?
          {}
        }
        if forall i | 0 <= i <= |path| :: Lookup(n, path[..i]).Some? {
          forall j | 0 <= j <= |path[1..]|
            ensures Lookup(c, path[1..][..j]).Some?
          {
            assert Lookup(n, path[..j + 1]).Some?;
          }
        }
      } else {
        assert Lookup(n, path[..1]).None?;
      }
    }
  }

  /** The paths whose every non-empty prefix was written too. */
  function Exposed(s: Content): Content {
    map p | p in s && (forall i | 0 < i <= |p| :: p[..i] in s) :: s[p]
  }

  lemma {:induction false} ExposedIff(s: Content, d: nat, p: seq<string>)
    requires Bounded(s, d) && Uniform(s.Keys) && p != []
    requires NoIndices(Build(s, d)) && forall q | q in s :: q != []
    ensures p in Exposed(s) <==> p[0] in Build(s, d).branches && Valued(Build(s, d).branches[p[0]], p[1..])
  {
    hide Bounded, Uniform, Build, Valued, Lookup, NoIndices;
    var root := Build(s, d);
    forall i | 0 < i <= |p|
      ensures p[..i] in s <==> Lookup(root, p[..i]).Some?
      ensures p[0] in root.branches ==> Lookup(root, p[..i]) == Lookup(root.branches[p[0]], p[1..][..i - 1])
      ensures p[0] !in root.branches ==> Lookup(root, p[..i]).None?
    {
      BuildLookup(s, d, p[..i]);
      RootStep(root, p[..i]);
      assert p[..i][1..] == p[1..][..i - 1];
    }
    assert p[..|p|] == p;
    if p[0] in root.branches {
      var c, rest := root.branches[p[0]], p[1..];
      ValuedIff(c, rest);
      if forall i | 0 < i <= |p| :: p[..i] in s {
        forall j | 0 <= j <= |rest|
          ensures Lookup(c, rest[..j]).Some?
        {
          assert p[..j + 1] in s;
        }
      }
      if forall j | 0 <= j <= |rest| :: Lookup(c, rest[..j]).Some? {
        forall i | 0 < i <= |p|
          ensures p[..i] in s
        {
          assert Lookup(c, rest[..i - 1]).Some?;
        }
      }
    } else {
      assert p[..1] !in s;
    }
  }

  lemma {:induction false} RootStep(root: Node, p: seq<string>)
    requires NoIndices(root) && p != []
    ensures Lookup(root, p) == if p[0] in root.branches then Lookup(root.branches[p[0]], p[1..]) else None
  {}

  /** What is not a nested map. */
  function Undict(m: map<string, Any>): map<string, Any> {
    map k | k in m && !m[k].Dict? :: m[k]
  }

  lemma {:induction false} ExposedAreGood(s: Content)
    requires forall p | p in s :: p != [] && GoodPath(p)
    ensures forall p | p in Exposed(s) :: p != [] && GoodPath(p)
  {
    hide GoodPath;
  }

  /**
   Without descending into nested maps, a reader of the output finds a written path exactly if all
   its prefixes were written too, and then under its dotted spelling.
   */
  lemma {:induction false} TopLevelIsExposed(pairs: seq<Pair>)
    requires NumeralsOnlyLast(LastWrites(pairs).Keys) && NoMaps(LastWrites(pairs))
    ensures forall p | p in Exposed(LastWrites(pairs)) :: p != [] && GoodPath(p)
    ensures Undict(Unflattened(pairs)) == Spelled(Exposed(LastWrites(pairs)))
  {
    hide Path, NumeralsOnlyLast, NoMaps, Unflattened, LastWrites, GoodPath, Exposed, Join;
    var s := LastWrites(pairs);
    LastWritesAreGood(pairs);
    ExposedAreGood(s);
    var top, spelled := Undict(Unflattened(pairs)), Spelled(Exposed(s));
    forall key: string
      ensures key in top <==> key in spelled
      ensures key in top && key in spelled ==> top[key] == spelled[key]
    {
      if key in top {
        var p := TopIsExposed(pairs, key);
        PathOfJoin(p);
      }
      if key in spelled {
        var p :| p in Exposed(s) && Join(p) == key;
        ExposedIsTop(pairs, p);
      }
    }
  }

  lemma {:induction false} TopIsExposed(pairs: seq<Pair>, key: string) returns (p: seq<string>)
    requires NumeralsOnlyLast(LastWrites(pairs).Keys) && NoMaps(LastWrites(pairs))
    requires key in Unflattened(pairs) && !Unflattened(pairs)[key].Dict?
    ensures p in Exposed(LastWrites(pairs)) && Exposed(LastWrites(pairs))[p] == Unflattened(pairs)[key] &&
            key == Join(p)
  {
    hide Path, Build, NumeralsOnlyLast, NoMaps, Shaped, NoIndices, Leaves, Uniform, Lookup, LastWrites, Grown, Join,
      Bounded, Valued, UnionOf, Writes, From, GoodPath;
    var s := LastWrites(pairs);
    var d := RootIsPlain(pairs);
    var root := Grown(pairs);
    var seg := BranchEntry(root, "", key);
    assert "" + seg == seg;
    PlainBranch(root, seg);
    var rest := EntryIsValued(root.branches[seg], seg, key);
    p := [seg] + rest;
    FromStep(seg, seg, rest);
    assert p[1..] == rest;
    ExposedIff(s, d, p);
    BuildLookup(s, d, p);
  }

  lemma {:induction false} ExposedIsTop(pairs: seq<Pair>, p: seq<string>)
    requires NumeralsOnlyLast(LastWrites(pairs).Keys) && NoMaps(LastWrites(pairs)) && p in Exposed(LastWrites(pairs))
    ensures Join(p) in Unflattened(pairs) && !Unflattened(pairs)[Join(p)].Dict?
  {
    hide Path, Build, NumeralsOnlyLast, Shaped, NoIndices, Leaves, Uniform, Lookup, LastWrites, Grown, Join, Bounded,
      Valued, UnionOf, Writes, From, GoodPath;
    var s := LastWrites(pairs);
    var d := RootIsPlain(pairs);
    var root := Grown(pairs);
    var seg, rest := p[0], p[1..];
    assert p == [seg] + rest;
    ExposedIff(s, d, p);
    BuildLookup(s, d, p);
    PlainBranch(root, seg);
    ValuedIsEntry(root.branches[seg], seg, rest);
    FromStep(seg, seg, rest);
    assert "" + seg == seg;
    BranchEntryIn(root, "", seg, Join(p));
  }

  lemma {:induction false} RootIsPlain(pairs: seq<Pair>) returns (d: nat)
    requires NumeralsOnlyLast(LastWrites(pairs).Keys) && NoMaps(LastWrites(pairs))
    ensures Bounded(LastWrites(pairs), d) && Uniform(LastWrites(pairs).Keys)
    ensures var root := Build(LastWrites(pairs), d);
            Grown(pairs) == root && NoIndices(root) && Leaves(root) && Shaped(root)
    ensures forall p | p in LastWrites(pairs) :: p != [] && GoodPath(p)
  {
    hide Path, Build, NumeralsOnlyLast, NoMaps, Shaped, NoIndices, Leaves, Uniform, LastWrites, Grown, Bounded,
      GoodPath;
    var s := LastWrites(pairs);
    d := BoundExists(pairs);
    LastNumeralsAreUniform(s.Keys);
    GrownIsBuilt(pairs, d);
    GrownIsShaped(pairs);
    BuildIsPlain(s, d);
    LastWritesAreGood(pairs);
  }
}
