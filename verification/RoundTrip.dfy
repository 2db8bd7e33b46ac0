/** Flattening what was unflattened, when numerals only end keys. */
module RoundTrip {
  import opened Prelude
  import opened Keys
  import opened Trie
  import opened Materialize
  import opened Emission
  import opened Losses
  import opened UniformKeys
  import opened Arrays

  // ----- flattenTopLevel -----

  function Dotted(prefix: string, k: string): string {
    if prefix == "" then k else prefix + "." + k
  }

  /** The walk over `a` under a prefix writes v at key. */
  ghost predicate WalkWrites(prefix: string, a: Any, key: string, v: Any)
    requires a.Dict?
    decreases a
  {
    exists k :: k in a.entries && EntryWrites(prefix, a, k, key, v)
  }

  ghost predicate EntryWrites(prefix: string, a: Any, k: string, key: string, v: Any)
    requires a.Dict? && k in a.entries
    decreases a, 0
  {
    if a.entries[k].Dict? then WalkWrites(Dotted(prefix, k), a.entries[k], key, v)
    else key == Dotted(prefix, k) && v == a.entries[k]
  }

  /** What a shared out map holds after some of the entries have been walked, in any order. */
  ghost predicate Walked(prefix: string, a: Any, done: set<string>, before: map<string, Any>, out: map<string, Any>)
    requires a.Dict? && done <= a.entries.Keys
  {
    && before.Keys <= out.Keys
    && (forall key, k, v | k in done && EntryWrites(prefix, a, k, key, v) :: key in out)
    && (forall key | key in out ::
          (key in before && out[key] == before[key]) || exists k ::
            k in done && EntryWrites(prefix, a, k, key, out[key]))
  }

  /** The recursive closure of flattenTopLevel: Go's map order is any order. */
  method Walk(prefix: string, a: Any, before: map<string, Any>) returns (out: map<string, Any>)
    requires a.Dict?
    ensures Walked(prefix, a, a.entries.Keys, before, out)
    decreases a
  {
    out := before;
    var todo := a.entries.Keys;
    while todo != {}
      invariant todo <= a.entries.Keys
      invariant Walked(prefix, a, a.entries.Keys - todo, before, out)
      decreases |todo|
    {
      var k :| k in todo;
      ghost var done := a.entries.Keys - todo;
      ghost var mid := out;
      if a.entries[k].Dict? {
        out := Walk(Dotted(prefix, k), a.entries[k], out);
      } else {
        out := out[Dotted(prefix, k) := a.entries[k]];
      }
      WalkedOne(prefix, a, done, k, before, mid, out);
      todo := todo - {k};
      assert a.entries.Keys - todo == done + {k};
    }
  }

  lemma {:induction false} WalkedOne(
    prefix: string, a: Any, done: set<string>, k: string, before: map<string, Any>, mid: map<string, Any>,
    out: map<string, Any>)
    requires a.Dict? && done <= a.entries.Keys && k in a.entries && Walked(prefix, a, done, before, mid)
    requires if a.entries[k].Dict? then Walked(Dotted(prefix, k), a.entries[k], a.entries[k].entries.Keys, mid, out)
             else out == mid[Dotted(prefix, k) := a.entries[k]]
    ensures Walked(prefix, a, done + {k}, before, out)
  {
    hide Dotted;
    forall key, j, v | j in done + {k} && EntryWrites(prefix, a, j, key, v)
      ensures key in out
    {
      if j == k && a.entries[k].Dict? {
        var b := a.entries[k];
        assert WalkWrites(Dotted(prefix, k), b, key, v);
        var i :| i in b.entries && EntryWrites(Dotted(prefix, k), b, i, key, v);
      }
    }
    forall key | key in out
      ensures (key in before && out[key] == before[key]) || exists j ::
              j in done + {k} && EntryWrites(prefix, a, j, key, out[key])
    {
      if key in mid && out[key] == mid[key] {
        if !(key in before && mid[key] == before[key]) {
          var j :| j in done && EntryWrites(prefix, a, j, key, mid[key]);
          assert j in done + {k} && EntryWrites(prefix, a, j, key, out[key]);
        }
      } else {
        assert EntryWrites(prefix, a, k, key, out[key]);
      }
    }
  }

  /** What flattenTopLevel promises of its result, whatever order the maps are walked in. */
  ghost predicate Flattens(nested: map<string, Any>, out: map<string, Any>) {
    && (forall key, v | WalkWrites("", Dict(nested), key, v) :: key in out)
    && (forall key | key in out :: WalkWrites("", Dict(nested), key, out[key]))
  }

  method FlattenTopLevel(nested: map<string, Any>) returns (out: map<string, Any>)
    ensures Flattens(nested, out)
  {
    out := Walk("", Dict(nested), map[]);
    forall key, v | WalkWrites("", Dict(nested), key, v)
      ensures key in out
    {
      var k :| k in nested && EntryWrites("", Dict(nested), k, key, v);
    }
  }

  // ----- paths of a trie without indices -----

  predicate NoIndices(n: Node) {
    n.indices == map[] && forall s | s in n.branches :: NoIndices(n.branches[s])
  }

  predicate Leaves(n: Node) {
    (n.value.Some? ==> !n.value.value.Dict?) && forall s | s in n.branches :: Leaves(n.branches[s])
  }

  /** The dotted spelling of a path continued from a non-empty prefix. */
  function From(full: string, path: seq<string>): string {
    if path == [] then full else full + "." + Join(path)
  }

  lemma {:induction false} FromStep(full: string, seg: string, rest: seq<string>)
    ensures From(full + "." + seg, rest) == From(full, [seg] + rest)
    ensures From(seg, rest) == Join([seg] + rest)
  {
    assert ([seg] + rest)[1..] == rest;
    if rest != [] {
      assert full + "." + seg + "." + Join(rest) == full + "." + (seg + "." + Join(rest));
    }
  }

  lemma {:induction false} DottedAssoc(prefix: string, k: string, s: string)
    requires k != ""
    ensures Dotted(prefix, k + "." + s) == Dotted(prefix, k) + "." + s
    ensures Dotted(Dotted(prefix, k), s) == Dotted(prefix, k) + "." + s
  {
    if prefix != "" {
      assert prefix + "." + (k + "." + s) == prefix + "." + k + "." + s;
    }
  }

  lemma {:induction false} NoIndexUnion(n: Node, prefix: string)
    requires n.indices == map[]
    ensures UnionOf(IndexWrites(n, prefix)) == map[]
  {
    var fam := IndexWrites(n, prefix);
    forall key: string
      ensures key !in UnionOf(fam)
    {
      UnionHas(fam, key);
    }
  }

  /** A valued node without indices writes its own entry and its branches' entries. */
  lemma {:induction false} PlainWrites(n: Node, k: string, key: string)
    requires NoIndices(n) && Shaped(n)
    ensures n.value.Some? ==> (key in Writes(n, k) <==> key == k || key in UnionOf(BranchWrites(n, k + ".")))
    ensures n.value.Some? ==> k in Writes(n, k) && Writes(n, k)[k] == n.value.value
    ensures n.value.Some? && key != k && key in Writes(n, k) ==>
            Writes(n, k)[key] == UnionOf(BranchWrites(n, k + "."))[key]
    ensures n.value.None? ==> Writes(n, k) == map[k := Dict(UnionOf(BranchWrites(n, "")))]
  {
    hide UnionOf, Shaped;
    NoIndexUnion(n, k + ".");
    if n.value.Some? { OwnEntry(n, k); }
  }

  /** Each entry of the branches' union is an entry of one branch. */
  lemma {:induction false} BranchEntry(n: Node, prefix: string, key: string) returns (s: string)
    requires Shaped(n) && key in UnionOf(BranchWrites(n, prefix))
    ensures s in n.branches && key in Writes(n.branches[s], prefix + s)
    ensures UnionOf(BranchWrites(n, prefix))[key] == Writes(n.branches[s], prefix + s)[key]
  {
    hide UnionOf, Shaped, Under, Writes;
    UnionHas(BranchWrites(n, prefix), key);
    s :| s in n.branches && key in Writes(n.branches[s], prefix + s);
    ShapedBranch(n, s);
    WritesUnder(n.branches[s], prefix + s, key);
    BranchUnionAt(n, prefix, s, key);
  }

  lemma {:induction false} BranchEntryIn(n: Node, prefix: string, s: string, key: string)
    requires Shaped(n) && s in n.branches && key in Writes(n.branches[s], prefix + s)
    ensures key in UnionOf(BranchWrites(n, prefix)) &&
            UnionOf(BranchWrites(n, prefix))[key] == Writes(n.branches[s], prefix + s)[key]
    ensures Under(prefix + s, key)
  {
    hide UnionOf, Shaped, Under, Writes;
    ShapedBranch(n, s);
    WritesUnder(n.branches[s], prefix + s, key);
    BranchUnionAt(n, prefix, s, key);
  }

  lemma {:induction false} PlainBranch(n: Node, s: string)
    requires NoIndices(n) && Shaped(n) && Leaves(n) && s in n.branches
    ensures NoIndices(n.branches[s]) && Shaped(n.branches[s]) && Leaves(n.branches[s]) && s != ""
    ensures forall rest :: Lookup(n, [s] + rest) == Lookup(n.branches[s], rest)
  {
    hide GoodSeg, Digit;
    ShapedBranch(n, s);
    forall rest: seq<string>
      ensures Lookup(n, [s] + rest) == Lookup(n.branches[s], rest)
    {
      assert ([s] + rest)[1..] == rest;
    }
  }

  /** The same entry written by two maps is walked the same. */
  lemma {:induction false} SameEntry(prefix: string, a: Any, b: Any, k: string, key: string, v: Any)
    requires a.Dict? && b.Dict? && k in a.entries && k in b.entries && a.entries[k] == b.entries[k]
    ensures EntryWrites(prefix, a, k, key, v) <==> EntryWrites(prefix, b, k, key, v)
  {}

  /** Whatever the walk writes below a node is the value of one of its paths, under that path's spelling. */
  lemma {:induction false} WalkedIsPath(
    n: Node, prefix: string, k: string, key: string, v: Any) returns (path: seq<string>)
    requires NoIndices(n) && Shaped(n) && Leaves(n) && k != "" && WalkWrites(prefix, Dict(Writes(n, k)), key, v)
    ensures Lookup(n, path) == Some(v) && key == From(Dotted(prefix, k), path)
    decreases n, 1
  {
    hide UnionOf, Shaped, NoIndices, Leaves, Dotted, From, Lookup, Writes;
    var a := Dict(Writes(n, k));
    var e :| e in a.entries && EntryWrites(prefix, a, e, key, v);
    PlainWrites(n, k, e);
    if n.value.None? {
      path := WalkedBranches(n, prefix, k, key, v);
    } else if e == k {
      path := [];
      LeafValue(n);
      FromNothing(n, Dotted(prefix, k));
    } else {
      var s := BranchEntry(n, k + ".", e);
      PlainBranch(n, s);
      var b := Dict(Writes(n.branches[s], k + "." + s));
      SameEntry(prefix, a, b, e, key, v);
      var rest := WalkedIsPath(n.branches[s], prefix, k + "." + s, key, v);
      path := [s] + rest;
      DottedAssoc(prefix, k, s);
      FromStep(Dotted(prefix, k), s, rest);
    }
  }

  lemma {:induction false} LeafValue(n: Node)
    requires Leaves(n) && n.value.Some?
    ensures !n.value.value.Dict?
  {}

  lemma {:induction false} FromNothing(n: Node, full: string)
    ensures From(full, []) == full && Lookup(n, []) == n.value
  {}

  lemma {:induction false} WalkedBranches(
    n: Node, prefix: string, k: string, key: string, v: Any) returns (path: seq<string>)
    requires NoIndices(n) && Shaped(n) && Leaves(n) && k != "" && n.value.None? &&
             WalkWrites(prefix, Dict(Writes(n, k)), key, v)
    ensures Lookup(n, path) == Some(v) && key == From(Dotted(prefix, k), path)
    decreases n, 0
  {
    hide UnionOf, Shaped, NoIndices, Leaves, From, Lookup, Writes;
    PlainWrites(n, k, k);
    var full := Dotted(prefix, k);
    var inner := Dict(UnionOf(BranchWrites(n, "")));
    assert WalkWrites(full, inner, key, v);
    var e :| e in inner.entries && EntryWrites(full, inner, e, key, v);
    var s := BranchEntry(n, "", e);
    assert "" + s == s;
    PlainBranch(n, s);
    SameEntry(full, inner, Dict(Writes(n.branches[s], s)), e, key, v);
    var rest := WalkedIsPath(n.branches[s], full, s, key, v);
    path := [s] + rest;
    DottedAssoc(prefix, k, s);
    FromStep(full, s, rest);
  }

  /** And every path's value is written by the walk, under that path's spelling. */
  lemma {:induction false} PathIsWalked(n: Node, prefix: string, k: string, path: seq<string>)
    requires NoIndices(n) && Shaped(n) && Leaves(n) && k != "" && Lookup(n, path).Some?
    ensures WalkWrites(prefix, Dict(Writes(n, k)), From(Dotted(prefix, k), path), Lookup(n, path).value)
    decreases n
  {
    hide UnionOf, Shaped, NoIndices, Leaves, From, Lookup, Writes;
    var a := Dict(Writes(n, k));
    var full := Dotted(prefix, k);
    PlainWrites(n, k, k);
    if path == [] {
      FromNothing(n, full);
      LeafValue(n);
      assert EntryWrites(prefix, a, k, full, n.value.value);
    } else {
      var s, rest := path[0], path[1..];
      assert path == [s] + rest;
      PathBranch(n, path);
      PlainBranch(n, s);
      DottedAssoc(prefix, k, s);
      FromStep(full, s, rest);
      var key, v := From(full, path), Lookup(n, path).value;
      if n.value.Some? {
        PathIsWalked(n.branches[s], prefix, k + "." + s, rest);
        var b := Dict(Writes(n.branches[s], k + "." + s));
        var e :| e in b.entries && EntryWrites(prefix, b, e, key, v);
        BranchEntryIn(n, k + ".", s, e);
        LongerKey(k, s, e);
        PlainWrites(n, k, e);
        SameEntry(prefix, a, b, e, key, v);
      } else {
        PathIsWalked(n.branches[s], full, s, rest);
        var b := Dict(Writes(n.branches[s], s));
        var inner := Dict(UnionOf(BranchWrites(n, "")));
        var e :| e in b.entries && EntryWrites(full, b, e, key, v);
        assert "" + s == s;
        BranchEntryIn(n, "", s, e);
        SameEntry(full, inner, b, e, key, v);
        assert WalkWrites(full, inner, key, v);
        assert EntryWrites(prefix, a, k, key, v);
      }
    }
  }

  lemma {:induction false} PathBranch(n: Node, path: seq<string>)
    requires NoIndices(n) && path != [] && Lookup(n, path).Some?
    ensures path[0] in n.branches
  {}

  // ----- the round trip -----

  /** No numeral precedes the last segment of a key. */
  predicate NumeralsOnlyLast(paths: set<seq<string>>) {
    forall p, k: nat | p in paths && k <= |p| :: !Indexes(p, k)
  }

  predicate NoMaps(s: Content) {
    forall p | p in s :: !s[p].Dict?
  }

  /** Each canonical path under its dotted spelling. */
  function Spelled(s: Content): map<string, Any>
    requires forall p | p in s :: p != [] && GoodPath(p)
  {
    assert forall p | p in s :: Path(Join(p)) == p by {
      forall p | p in s
        ensures Path(Join(p)) == p
      {
        PathOfJoin(p);
      }
    }
    map key | key in (set p | p in s :: Join(p)) :: s[Path(key)]
  }

  lemma {:induction false} LastWritesAreGood(pairs: seq<Pair>)
    ensures forall p | p in LastWrites(pairs) :: p != [] && GoodPath(p)
    decreases |pairs|
  {
    hide Path, GoodPath, Counts;
    if pairs != [] {
      LastWritesAreGood(pairs[..|pairs| - 1]);
      var last := pairs[|pairs| - 1];
      PathIsGood(last.key);
      if Counts(last) { CountsHasPath(last); }
    }
  }

  lemma {:induction false} LastNumeralsAreUniform(paths: set<seq<string>>)
    requires NumeralsOnlyLast(paths)
    ensures Uniform(paths) && RootedInBranches(paths)
  {
    hide Indexes;
  }

  lemma {:induction false} NumeralsBelow(s: Content, seg: string)
    requires NumeralsOnlyLast(s.Keys)
    ensures NumeralsOnlyLast(Below(s, seg).Keys)
  {
    hide Digit, Heads;
    forall p, k: nat | p in Below(s, seg).Keys && k <= |p|
      ensures !Indexes(p, k)
    {
      var q := [seg] + p;
      assert q in s.Keys && !Indexes(q, k + 1);
      assert k < |p| ==> q[k + 1] == p[k];
    }
  }

  lemma {:induction false} BuildIsPlain(s: Content, d: nat)
    requires Bounded(s, d) && NumeralsOnlyLast(s.Keys) && NoMaps(s)
    ensures NoIndices(Build(s, d)) && Leaves(Build(s, d))
  {
    BuildHasNoIndices(s, d);
    BuildHasLeaves(s, d);
  }

  lemma {:induction false} BuildHasNoIndices(s: Content, d: nat)
    requires Bounded(s, d) && NumeralsOnlyLast(s.Keys)
    ensures NoIndices(Build(s, d))
    decreases d, 1
  {
    hide Digit, Build, BuildBelow, Heads, Bounded, NumeralsOnlyLast;
    NoTopIndices(s);
    BranchBuild(s, d);
    if d > 0 {
      forall seg | seg in Heads(s)
        ensures NoIndices(BuildBelow(s, seg, d))
      {
        BelowHasNoIndices(s, seg, d);
      }
    }
  }

  lemma {:induction false} BelowHasNoIndices(s: Content, seg: string, d: nat)
    requires Bounded(s, d) && d > 0 && NumeralsOnlyLast(s.Keys)
    ensures NoIndices(BuildBelow(s, seg, d))
    decreases d, 0
  {
    hide Build, BuildBelow, Below, Bounded, NumeralsOnlyLast, NoIndices;
    BuildBelowIs(s, seg, d);
    NumeralsBelow(s, seg);
    BuildHasNoIndices(Below(s, seg), d - 1);
  }

  lemma {:induction false} BuildHasLeaves(s: Content, d: nat)
    requires Bounded(s, d) && NumeralsOnlyLast(s.Keys) && NoMaps(s)
    ensures Leaves(Build(s, d))
    decreases d, 1
  {
    hide Digit, Build, BuildBelow, Heads, Bounded, NumeralsOnlyLast;
    NoTopIndices(s);
    BranchBuild(s, d);
    if d > 0 {
      forall seg | seg in Heads(s)
        ensures Leaves(BuildBelow(s, seg, d))
      {
        BelowHasLeaves(s, seg, d);
      }
    }
  }

  lemma {:induction false} BelowHasLeaves(s: Content, seg: string, d: nat)
    requires Bounded(s, d) && d > 0 && NumeralsOnlyLast(s.Keys) && NoMaps(s)
    ensures Leaves(BuildBelow(s, seg, d))
    decreases d, 0
  {
    hide Build, BuildBelow, Below, Bounded, NumeralsOnlyLast, Leaves, NoMaps;
    BuildBelowIs(s, seg, d);
    NumeralsBelow(s, seg);
    NoMapsBelow(s, seg);
    BuildHasLeaves(Below(s, seg), d - 1);
  }

  lemma {:induction false} NoTopIndices(s: Content)
    requires NumeralsOnlyLast(s.Keys)
    ensures !OnIndices(s)
  {
    hide Digit;
  }

  lemma {:induction false} NoMapsBelow(s: Content, seg: string)
    requires NoMaps(s)
    ensures NoMaps(Below(s, seg))
  {
    hide Heads;
  }

  lemma {:induction false} RootWalkIsPath(root: Node, key: string, v: Any) returns (path: seq<string>)
    requires NoIndices(root) && Shaped(root) && Leaves(root) && WalkWrites("", Dict(MatRoot(root)), key, v)
    ensures Lookup(root, path) == Some(v) && key == Join(path)
  {
    hide Shaped, NoIndices, Leaves, Lookup, UnionOf, Writes, From, Join;
    var out := Dict(MatRoot(root));
    var e :| e in out.entries && EntryWrites("", out, e, key, v);
    var seg := BranchEntry(root, "", e);
    assert "" + seg == seg;
    PlainBranch(root, seg);
    SameEntry("", out, Dict(Writes(root.branches[seg], seg)), e, key, v);
    var rest := WalkedIsPath(root.branches[seg], "", seg, key, v);
    path := [seg] + rest;
    FromStep(seg, seg, rest);
  }

  lemma {:induction false} RootPathIsWalked(root: Node, path: seq<string>)
    requires NoIndices(root) && Shaped(root) && Leaves(root) && path != [] && Lookup(root, path).Some?
    ensures WalkWrites("", Dict(MatRoot(root)), Join(path), Lookup(root, path).value)
  {
    hide Shaped, NoIndices, Leaves, Lookup, UnionOf, Writes, From, Join;
    var key, v := Join(path), Lookup(root, path).value;
    PathBranch(root, path);
    var seg, rest := path[0], path[1..];
    assert path == [seg] + rest;
    PlainBranch(root, seg);
    PathIsWalked(root.branches[seg], "", seg, rest);
    FromStep(seg, seg, rest);
    var b := Dict(Writes(root.branches[seg], seg));
    var e :| e in b.entries && EntryWrites("", b, e, key, v);
    assert "" + seg == seg;
    BranchEntryIn(root, "", seg, e);
    SameEntry("", Dict(MatRoot(root)), b, e, key, v);
  }

  /** What the walk over the output writes are exactly the spelled paths. */
  lemma {:induction false} WalkWritesPaths(pairs: seq<Pair>, key: string, v: Any)
    requires NumeralsOnlyLast(LastWrites(pairs).Keys) && NoMaps(LastWrites(pairs))
    ensures WalkWrites("", Dict(Unflattened(pairs)), key, v) <==>
            exists p :: p in LastWrites(pairs) && LastWrites(pairs)[p] == v && key == Join(p)
  {
    hide Path, Build, NumeralsOnlyLast, NoMaps, Shaped, NoIndices, Leaves, Uniform, Lookup, LastWrites, Grown, Join,
      WalkWrites, MatRoot, Bounded;
    var s := LastWrites(pairs);
    var d := BoundExists(pairs);
    var root := Grown(pairs);
    LastNumeralsAreUniform(s.Keys);
    GrownIsBuilt(pairs, d);
    GrownIsShaped(pairs);
    BuildIsPlain(s, d);
    if WalkWrites("", Dict(Unflattened(pairs)), key, v) {
      var p := RootWalkIsPath(root, key, v);
      BuildLookup(s, d, p);
      assert p in s;
    }
    if exists p :: p in s && s[p] == v && key == Join(p) {
      var p :| p in s && s[p] == v && key == Join(p);
      BuildLookup(s, d, p);
      LastWritesAreGood(pairs);
      RootPathIsWalked(root, p);
    }
  }

  /**
   The round trip: when numerals only end keys and no value is a map, flattening the unflattened
   pairs gives back, under dotted canonical spelling, exactly the last value written to each path,
   also where one key is a prefix of another.
   */
  lemma {:induction false} FlattenOfUnflatten(pairs: seq<Pair>, out: map<string, Any>)
    requires NumeralsOnlyLast(LastWrites(pairs).Keys) && NoMaps(LastWrites(pairs))
    requires Flattens(Unflattened(pairs), out)
    ensures forall p | p in LastWrites(pairs) :: p != [] && GoodPath(p)
    ensures out == Spelled(LastWrites(pairs))
  {
    hide Path, NumeralsOnlyLast, NoMaps, Unflattened, LastWrites, GoodPath;
    var s := LastWrites(pairs);
    LastWritesAreGood(pairs);
    forall key: string
      ensures key in out <==> key in Spelled(s)
      ensures key in out ==> out[key] == Spelled(s)[key]
    {
      if key in out {
        WalkWritesPaths(pairs, key, out[key]);
        var p :| p in s && s[p] == out[key] && key == Join(p);
        PathOfJoin(p);
      }
      if key in Spelled(s) {
        var p :| p in s && Join(p) == key;
        WalkWritesPaths(pairs, key, s[p]);
        assert WalkWrites("", Dict(Unflattened(pairs)), key, s[p]);
      }
    }
  }
}
