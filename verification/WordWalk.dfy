/** What flattening and direct reading find under a path without numerals, whatever else is in the output. */
module WordWalk {
  import opened Prelude
  import opened Text
  import opened Keys
  import opened Trie
  import opened Materialize
  import opened Tracks
  import opened Emission
  import opened UniformKeys
  import opened RoundTrip
  import opened Words

  // ----- keys of a walk -----

  lemma {:induction false} UnderChain(k: string, m: string, key: string)
    requires Under(k, m) && Under(m, key)
    ensures Under(k, key)
  {
    if m != k && key != m {
      assert key[..|k|] == key[..|m|][..|k|] && key[|k|] == key[..|m|][|k|];
    }
  }

  /** A walk under a prefix writes longer keys only. */
  lemma {:induction false} WalkLonger(full: string, a: Any, key: string, v: Any)
    requires full != "" && a.Dict? && WalkWrites(full, a, key, v)
    ensures Under(full, key) && |key| > |full|
    decreases a
  {
    hide Under;
    var e :| e in a.entries && EntryWrites(full, a, e, key, v);
    EntryUnder(full, a, e, key, v);
    var inner := full + "." + e;
    assert Dotted(full, e) == inner;
    UnderTrans(full, e, key);
    UnderLength(inner, key);
  }

  lemma {:induction false} UnderLength(k: string, key: string)
    requires Under(k, key)
    ensures |key| >= |k|
  {}

  /** An entry writes under its own dotted key. */
  lemma {:induction false} EntryUnder(prefix: string, a: Any, e: string, key: string, v: Any)
    requires a.Dict? && e in a.entries && EntryWrites(prefix, a, e, key, v) && Dotted(prefix, e) != ""
    ensures Under(Dotted(prefix, e), key)
    ensures !a.entries[e].Dict? ==> key == Dotted(prefix, e) && v == a.entries[e]
    ensures a.entries[e].Dict? ==> WalkWrites(Dotted(prefix, e), a.entries[e], key, v) && |key| > |Dotted(prefix, e)|
    decreases a, 0
  {
    hide Under, Dotted;
    if a.entries[e].Dict? {
      WalkLonger(Dotted(prefix, e), a.entries[e], key, v);
    } else {
      UnderSelf(key);
    }
  }

  lemma {:induction false} DottedUnder(prefix: string, k: string, e: string)
    requires Under(k, e)
    ensures Under(Dotted(prefix, k), Dotted(prefix, e))
  {
    if prefix != "" && e != k {
      var a, b := prefix + "." + k, prefix + "." + e;
      assert b[..|a|] == prefix + "." + e[..|k|];
      assert b[|a|] == e[|k|];
    }
  }

  /** A key below one segment can only come from an entry of that segment. */
  lemma {:induction false} EntryNames(
    prefix: string, a: Any, k: string, name: string, e: string, s: string, key: string, v: Any)
    requires a.Dict? && e in a.entries && EntryWrites(prefix, a, e, key, v) && e != ""
    requires Under(k + name, e) && Under(Dotted(prefix, k + s), key) && Free(name, '.') && Free(s, '.')
    ensures name == s
  {
    hide Under, EntryWrites;
    DottedUnder(prefix, k + name, e);
    NotEmptyDotted(prefix, e);
    EntryUnder(prefix, a, e, key, v);
    UnderChain(Dotted(prefix, k + name), Dotted(prefix, e), key);
    DottedConcat(prefix, k, name);
    DottedConcat(prefix, k, s);
    UnderTwo(Dotted(prefix, k), name, s, key);
  }

  lemma {:induction false} DottedConcat(prefix: string, k: string, s: string)
    ensures Dotted(prefix, k + s) == Dotted(prefix, k) + s
  {
    assert prefix + "." + (k + s) == prefix + "." + k + s;
  }

  lemma {:induction false} NotEmptyDotted(prefix: string, e: string)
    requires e != ""
    ensures Dotted(prefix, e) != ""
  {}

  // ----- below one node -----

  /** Where the walk over a node's entries writes v under the spelling of a path below it. */
  ghost predicate Lands(n: Node, full: string, path: seq<string>, v: Any)
    decreases |path|
  {
    if path == [] then
      if n.value.Some? then !n.value.value.Dict? && v == n.value.value else IsArray(n) && v == MatValue(n)
    else
      || (n.value.Some? && n.value.value.Dict? && WalkWrites(full, n.value.value, From(full, path), v))
      || (path[0] in n.branches && Lands(n.branches[path[0]], full + "." + path[0], path[1..], v))
  }

  lemma {:induction false} FromUnder(full: string, s: string, rest: seq<string>)
    ensures Under(full + "." + s, From(full, [s] + rest)) && |From(full, [s] + rest)| > |full|
  {
    FromStep(full, s, rest);
    UnderSelf(full + "." + s);
    var inner := full + "." + s;
    if rest != [] {
      assert (inner + "." + Join(rest))[..|inner|] == inner;
      assert (inner + "." + Join(rest))[|inner|] == '.';
    }
  }

  /** Among the entries of branches, a key below one of them comes from that one. */
  lemma {:induction false} UnionWalk(n: Node, prefix: string, s: string, key: string, v: Any)
    requires Shaped(n) && Free(s, '.') && Under(Dotted(prefix, s), key)
    ensures WalkWrites(prefix, Dict(UnionOf(BranchWrites(n, ""))), key, v) <==>
            s in n.branches && WalkWrites(prefix, Dict(Writes(n.branches[s], s)), key, v)
  {
    hide Shaped, Under, UnionOf, Writes, Dotted, EntryWrites;
    var all := Dict(UnionOf(BranchWrites(n, "")));
    if WalkWrites(prefix, all, key, v) {
      var e :| e in all.entries && EntryWrites(prefix, all, e, key, v);
      var t := BranchEntry(n, "", e);
      assert "" + t == t && "" + s == s;
      ShapedBranch(n, t);
      WritesUnder(n.branches[t], t, e);
      UnderLength(t, e);
      EntryNames(prefix, all, "", t, e, s, key, v);
      SameEntry(prefix, all, Dict(Writes(n.branches[s], s)), e, key, v);
    }
    if s in n.branches && WalkWrites(prefix, Dict(Writes(n.branches[s], s)), key, v) {
      var b := Dict(Writes(n.branches[s], s));
      var e :| e in b.entries && EntryWrites(prefix, b, e, key, v);
      assert "" + s == s;
      BranchEntryIn(n, "", s, e);
      SameEntry(prefix, all, b, e, key, v);
    }
  }

  /** Among the entries of a valued node, a key below one word comes from the node's own value or from that branch. */
  lemma {:induction false} ValuedWalk(n: Node, prefix: string, k: string, s: string, key: string, v: Any)
    requires Shaped(n) && n.value.Some? && k != "" && Free(s, '.') && Digit(s) == None
    requires Under(Dotted(prefix, k) + "." + s, key)
    ensures WalkWrites(prefix, Dict(Writes(n, k)), key, v) <==>
            || (n.value.value.Dict? && WalkWrites(Dotted(prefix, k), n.value.value, key, v))
            || (s in n.branches && WalkWrites(prefix, Dict(Writes(n.branches[s], k + "." + s)), key, v))
  {
    hide Shaped, Under, UnionOf, Writes, EntryWrites, Digit, Itoa, WalkWrites, Dotted;
    if WalkWrites(prefix, Dict(Writes(n, k)), key, v) {
      ValuedWalkFrom(n, prefix, k, s, key, v);
    }
    if n.value.value.Dict? && WalkWrites(Dotted(prefix, k), n.value.value, key, v) {
      OwnEntry(n, k);
      OwnWalk(Writes(n, k), prefix, k, key, v);
    }
    if s in n.branches && WalkWrites(prefix, Dict(Writes(n.branches[s], k + "." + s)), key, v) {
      ChildWalk(n, prefix, k, s, key, v);
    }
  }

  lemma {:induction false} OwnWalk(m: map<string, Any>, prefix: string, k: string, key: string, v: Any)
    requires k in m && m[k].Dict? && WalkWrites(Dotted(prefix, k), m[k], key, v)
    ensures WalkWrites(prefix, Dict(m), key, v)
  {
    assert EntryWrites(prefix, Dict(m), k, key, v);
  }

  lemma {:induction false} ChildWalk(n: Node, prefix: string, k: string, s: string, key: string, v: Any)
    requires Shaped(n) && n.value.Some? && Digit(s) == None && s in n.branches
    requires WalkWrites(prefix, Dict(Writes(n.branches[s], k + "." + s)), key, v)
    ensures WalkWrites(prefix, Dict(Writes(n, k)), key, v)
  {
    hide Shaped, Under, UnionOf, Writes, EntryWrites, Digit, Dotted;
    var b := Dict(Writes(n.branches[s], k + "." + s));
    var e :| e in b.entries && EntryWrites(prefix, b, e, key, v);
    ShapedBranch(n, s);
    WritesUnder(n.branches[s], k + "." + s, e);
    ValuedEntry(n, k, Br(s), e);
    SameEntry(prefix, Dict(Writes(n, k)), b, e, key, v);
  }

  lemma {:induction false} ValuedWalkFrom(n: Node, prefix: string, k: string, s: string, key: string, v: Any)
    requires Shaped(n) && n.value.Some? && k != "" && Free(s, '.') && Digit(s) == None
    requires Under(Dotted(prefix, k) + "." + s, key) && WalkWrites(prefix, Dict(Writes(n, k)), key, v)
    ensures || (n.value.value.Dict? && WalkWrites(Dotted(prefix, k), n.value.value, key, v))
            || (s in n.branches && WalkWrites(prefix, Dict(Writes(n.branches[s], k + "." + s)), key, v))
  {
    hide Shaped, Under, UnionOf, Writes, EntryWrites, Digit, Itoa, Dotted, Shadowed;
    var a := Dict(Writes(n, k));
    var e :| e in a.entries && EntryWrites(prefix, a, e, key, v);
    UnderLength(Dotted(prefix, k) + "." + s, key);
    OwnEntry(n, k);
    NotEmptyDotted(prefix, k);
    if e == k {
      EntryUnder(prefix, a, e, key, v);
    } else {
      var leg := EntryLeg(n, k, e);
      KidParts(n, leg);
      LongerKey(k, leg.Name(), e);
      UnderLength(k + "." + leg.Name(), e);
      DottedConcat(prefix, k, "." + s);
      DottedConcat(prefix, k + ".", s);
      assert k + "." + s == k + ("." + s) && Dotted(prefix, k) + "." + s == Dotted(prefix, k) + ("." + s);
      EntryNames(prefix, a, k + ".", leg.Name(), e, s, key, v);
      if leg.Ix? { DigitIsItoa(s, leg.i); }
      ValuedEntry(n, k, leg, e);
      SameEntry(prefix, a, Dict(Writes(n.branches[s], k + "." + s)), e, key, v);
    }
  }

  /** The walk over a node's entries, under the spelling of a path without numerals. */
  lemma {:induction false} WalkLands(n: Node, prefix: string, k: string, path: seq<string>, v: Any)
    requires Shaped(n) && k != "" && GoodPath(path) && Wordy(path)
    ensures WalkWrites(prefix, Dict(Writes(n, k)), From(Dotted(prefix, k), path), v) <==>
            Lands(n, Dotted(prefix, k), path, v)
    decreases |path|
  {
    hide Shaped, Writes, WalkWrites, Dotted, GoodSeg, Digit, MatValue, From, IsArray;
    NotEmptyDotted(prefix, k);
    if path == [] {
      HereWalk(n, prefix, k, v);
    } else {
      var s, rest, full := path[0], path[1..], Dotted(prefix, k);
      assert path == [s] + rest;
      GoodIsFree(s);
      FromUnder(full, s, rest);
      if n.value.Some? {
        ValuedWalk(n, prefix, k, s, From(full, path), v);
        if s in n.branches {
          ShapedBranch(n, s);
          DottedConcat(prefix, k, "." + s);
          assert k + ("." + s) == k + "." + s && full + ("." + s) == full + "." + s;
          FromStep(full, s, rest);
          WalkLands(n.branches[s], prefix, k + "." + s, rest, v);
        }
      } else {
        UnvaluedWalk(n, prefix, k, s, From(full, path), v);
        if s in n.branches {
          ShapedBranch(n, s);
          DottedTwice(full, s);
          FromStep(full, s, rest);
          WalkLands(n.branches[s], full, s, rest, v);
        }
      }
    }
  }

  lemma {:induction false} DottedTwice(full: string, s: string)
    requires full != ""
    ensures Dotted(full, s) == full + "." + s
  {}

  lemma {:induction false} HereWalk(n: Node, prefix: string, k: string, v: Any)
    requires Shaped(n) && k != ""
    ensures WalkWrites(prefix, Dict(Writes(n, k)), From(Dotted(prefix, k), []), v) <==>
            Lands(n, Dotted(prefix, k), [], v)
  {
    hide Shaped, Writes, Dotted, MatValue, Under, EntryWrites;
    var a, key := Dict(Writes(n, k)), Dotted(prefix, k);
    NotEmptyDotted(prefix, k);
    assert From(key, []) == key;
    EntryAtKey(n, k);
    forall e | e in a.entries && EntryWrites(prefix, a, e, key, v)
      ensures e == k && !a.entries[k].Dict? && v == a.entries[k]
    {
      WritesUnder(n, k, e);
      UnderLength(k, e);
      NotEmptyDotted(prefix, e);
      EntryUnder(prefix, a, e, key, v);
      UnderLength(Dotted(prefix, e), key);
      DottedLength(prefix, k, e);
      UnderSame(k, e);
    }
    if !a.entries[k].Dict? && v == a.entries[k] {
      LeafEntry(prefix, a, k);
      assert EntryWrites(prefix, a, k, key, v);
    }
    MatKind(n);
  }

  lemma {:induction false} LeafEntry(prefix: string, a: Any, k: string)
    requires a.Dict? && k in a.entries && !a.entries[k].Dict?
    ensures EntryWrites(prefix, a, k, Dotted(prefix, k), a.entries[k])
  {}

  lemma {:induction false} DottedLength(prefix: string, k: string, e: string)
    ensures |Dotted(prefix, e)| - |Dotted(prefix, k)| == |e| - |k|
  {}

  lemma {:induction false} UnderSame(k: string, e: string)
    requires Under(k, e) && |e| <= |k|
    ensures e == k
  {}

  lemma {:induction false} EntryAtKey(n: Node, k: string)
    requires Shaped(n)
    ensures k in Writes(n, k) && Writes(n, k)[k] == if n.value.Some? then n.value.value else MatValue(n)
  {
    hide Shaped, MatValue, UnionOf;
    if n.value.Some? { OwnEntry(n, k); }
  }

  lemma {:induction false} MatKind(n: Node)
    ensures MatValue(n).Dict? <==> !IsArray(n)
    ensures MatValue(n).List? <==> IsArray(n)
  {
    hide UnionOf, SortedKeys;
  }

  lemma {:induction false} UnvaluedWalk(n: Node, prefix: string, k: string, s: string, key: string, v: Any)
    requires Shaped(n) && n.value.None? && k != "" && Free(s, '.') && s != ""
    requires Under(Dotted(prefix, k) + "." + s, key)
    ensures WalkWrites(prefix, Dict(Writes(n, k)), key, v) <==>
            s in n.branches && WalkWrites(Dotted(prefix, k), Dict(Writes(n.branches[s], s)), key, v)
  {
    hide Shaped, Under, UnionOf, BranchWrites, Dotted, SortedKeys;
    NotEmptyDotted(prefix, k);
    UnderLength(Dotted(prefix, k) + "." + s, key);
    var a := Dict(Writes(n, k));
    assert a.entries == map[k := MatValue(n)];
    OnlyEntry(prefix, k, MatValue(n), key, v);
    MatKind(n);
    if !IsArray(n) {
      DottedTwice(Dotted(prefix, k), s);
      UnionWalk(n, Dotted(prefix, k), s, key, v);
    } else {
      EntryLeaf(prefix, k, MatValue(n), key, v);
    }
  }

  lemma {:induction false} OnlyEntry(prefix: string, k: string, w: Any, key: string, v: Any)
    ensures WalkWrites(prefix, Dict(map[k := w]), key, v) <==> EntryWrites(prefix, Dict(map[k := w]), k, key, v)
    ensures w.Dict? ==> (EntryWrites(prefix, Dict(map[k := w]), k, key, v) <==>
            WalkWrites(Dotted(prefix, k), w, key, v))
  {
    var a := Dict(map[k := w]);
    assert k in a.entries;
  }

  lemma {:induction false} EntryLeaf(prefix: string, k: string, w: Any, key: string, v: Any)
    requires !w.Dict?
    ensures EntryWrites(prefix, Dict(map[k := w]), k, key, v) ==> key == Dotted(prefix, k)
  {}

  // ----- from the root -----

  lemma {:induction false} RootLands(root: Node, p: seq<string>, v: Any)
    requires Shaped(root) && p != [] && GoodPath(p) && Wordy(p)
    ensures WalkWrites("", Dict(MatRoot(root)), Join(p), v) <==>
            p[0] in root.branches && Lands(root.branches[p[0]], p[0], p[1..], v)
  {
    hide Shaped, Writes, WalkWrites, GoodSeg, Digit, UnionOf, Lands, From, Join;
    var s, rest := p[0], p[1..];
    assert p == [s] + rest;
    GoodIsFree(s);
    FromStep(s, s, rest);
    JoinUnder(s, rest);
    assert Dotted("", s) == s;
    UnionWalk(root, "", s, Join(p), v);
    if s in root.branches {
      ShapedBranch(root, s);
      WalkLands(root.branches[s], "", s, rest, v);
    }
  }

  lemma {:induction false} JoinUnder(s: string, rest: seq<string>)
    ensures Under(s, Join([s] + rest))
  {
    FromStep(s, s, rest);
    UnderSelf(s);
    if rest != [] {
      assert (s + "." + Join(rest))[..|s|] == s && (s + "." + Join(rest))[|s|] == '.';
    }
  }

  // ----- from the last writes -----

  lemma {:induction false} JoinOn(q: seq<string>, r: seq<string>)
    requires q != []
    ensures From(Join(q), r) == Join(q + r)
    decreases |q|
  {
    hide From, Join;
    var s := q[0];
    assert q == [s] + q[1..] && q + r == [s] + (q[1..] + r);
    FromStep(s, s, q[1..]);
    FromStep(s, s, q[1..] + r);
    if q[1..] == [] {
      assert q[1..] + r == r;
      FromNone(s);
    } else {
      JoinOn(q[1..], r);
      FromOn(s, q[1..], r);
    }
  }

  lemma {:induction false} FromNone(s: string)
    ensures From(s, []) == s
  {}

  lemma {:induction false} FromOn(s: string, q: seq<string>, r: seq<string>)
    requires q != [] && From(Join(q), r) == Join(q + r)
    ensures From(From(s, q), r) == From(s, q + r)
  {
    if r == [] {
      assert q + r == q;
    } else {
      assert s + "." + Join(q) + "." + Join(r) == s + "." + (Join(q) + "." + Join(r));
    }
  }

  lemma {:induction false} NodeAtNext(n: Node, q: seq<string>, s: string)
    ensures NodeAt(n, q + [s]) ==
            match NodeAt(n, q)
            case None => None
            case Some(x) => if s in x.branches then Some(x.branches[s]) else None
    decreases |q|
  {
    if q == [] {
      assert q + [s] == [s] && [s][1..] == [];
    } else {
      assert (q + [s])[1..] == q[1..] + [s];
      if q[0] in n.branches { NodeAtNext(n.branches[q[0]], q[1..], s); }
    }
  }

  /** The last value written to the first m segments is a map whose own entries reach p's spelling. */
  ghost predicate MapReaches(s: Content, p: seq<string>, m: nat, v: Any)
    requires m <= |p|
  {
    p[..m] in s && s[p[..m]].Dict? && WalkWrites(Join(p[..m]), s[p[..m]], Join(p), v)
  }

  /** The value or the array of the path itself. */
  ghost predicate OwnEntryIs(pairs: seq<Pair>, p: seq<string>, v: Any) {
    var s := LastWrites(pairs);
    if p in s then !s[p].Dict? && v == s[p]
    else ArrayAt(s, p) && NodeAt(Grown(pairs), p).Some? && v == MatValue(NodeAt(Grown(pairs), p).value)
  }

  /** So does a map from m segments on, before the end. */
  ghost predicate SomeMapReaches(s: Content, p: seq<string>, m: nat, v: Any) {
    exists j :: m <= j < |p| && MapReaches(s, p, j, v)
  }

  /** What flattening the output may find under p's spelling. */
  ghost predicate Found(pairs: seq<Pair>, p: seq<string>, v: Any) {
    OwnEntryIs(pairs, p, v) || SomeMapReaches(LastWrites(pairs), p, 1, v)
  }

  lemma {:induction false} MapReachesNext(s: Content, p: seq<string>, m: nat, v: Any)
    requires m < |p|
    ensures SomeMapReaches(s, p, m, v) <==> MapReaches(s, p, m, v) || SomeMapReaches(s, p, m + 1, v)
  {
    hide MapReaches;
    if SomeMapReaches(s, p, m, v) && !MapReaches(s, p, m, v) {
      var j :| m <= j < |p| && MapReaches(s, p, j, v);
      assert m + 1 <= j;
    }
  }

  lemma {:induction false} LandsFrom(pairs: seq<Pair>, p: seq<string>, m: nat, v: Any)
    requires 0 < m <= |p| && Wordy(p) && NodeAt(Grown(pairs), p[..m]).Some?
    ensures Lands(NodeAt(Grown(pairs), p[..m]).value, Join(p[..m]), p[m..], v) <==>
            OwnEntryIs(pairs, p, v) || SomeMapReaches(LastWrites(pairs), p, m, v)
    decreases |p| - m
  {
    hide Wordy, NodeFits, NodeAt, WalkWrites, LastWrites, Grown, Join, From, MatValue, MapReaches, OwnEntryIs, ArrayAt,
      SomeMapReaches, Digit;
    var s, x := LastWrites(pairs), NodeAt(Grown(pairs), p[..m]).value;
    WordyPrefix(p, m);
    GrownFits(pairs, p[..m]);
    if m == |p| {
      assert p[..m] == p && p[m..] == [];
      LandsHere(pairs, p, v);
      NoMapBeyond(s, p, v);
    } else {
      JoinOn(p[..m], p[m..]);
      assert p[..m] + p[m..] == p && p[m..][0] == p[m] && p[m..][1..] == p[m + 1..];
      assert p[..m + 1] == p[..m] + [p[m]];
      NodeAtNext(Grown(pairs), p[..m], p[m]);
      JoinOn(p[..m], [p[m]]);
      FromStep(Join(p[..m]), p[m], []);
      FromNone(Join(p[..m]) + "." + p[m]);
      assert [p[m]] + [] == [p[m]];
      MapHere(pairs, p, m, v);
      MapReachesNext(s, p, m, v);
      if p[m] in x.branches {
        LandsFrom(pairs, p, m + 1, v);
      } else {
        NoNodeBeyond(pairs, p, m + 1, v);
      }
    }
  }

  lemma {:induction false} NoMapBeyond(s: Content, p: seq<string>, v: Any)
    ensures !SomeMapReaches(s, p, |p|, v)
  {}

  lemma {:induction false} WordyPrefix(p: seq<string>, m: nat)
    requires m <= |p| && Wordy(p)
    ensures Wordy(p[..m])
  {
    hide Digit;
  }

  lemma {:induction false} LandsHere(pairs: seq<Pair>, p: seq<string>, v: Any)
    requires Wordy(p) && p != [] && NodeAt(Grown(pairs), p).Some?
    ensures Lands(NodeAt(Grown(pairs), p).value, Join(p), [], v) <==> OwnEntryIs(pairs, p, v)
  {
    hide NodeAt, LastWrites, Grown, Join, MatValue, Extended, OnlyIndexed, Wordy;
    GrownFits(pairs, p);
  }

  /** The map on the way, as the node there holds it. */
  lemma {:induction false} MapHere(pairs: seq<Pair>, p: seq<string>, m: nat, v: Any)
    requires 0 < m < |p| && Wordy(p[..m]) && NodeAt(Grown(pairs), p[..m]).Some?
    ensures var x := NodeAt(Grown(pairs), p[..m]).value;
            MapReaches(LastWrites(pairs), p, m, v) <==>
            x.value.Some? && x.value.value.Dict? && WalkWrites(Join(p[..m]), x.value.value, Join(p), v)
  {
    hide NodeAt, LastWrites, Grown, Join, WalkWrites, Extended, OnlyIndexed, Wordy;
    GrownFits(pairs, p[..m]);
  }

  lemma {:induction false} NoNodeBeyond(pairs: seq<Pair>, p: seq<string>, m: nat, v: Any)
    requires 0 < m <= |p| && Wordy(p) && NodeAt(Grown(pairs), p[..m]).None?
    ensures !OwnEntryIs(pairs, p, v)
    ensures !SomeMapReaches(LastWrites(pairs), p, m, v)
  {
    hide NodeAt, LastWrites, Grown, Join, WalkWrites, Wordy, Indexes, MatValue;
    WordyPrefix(p, m);
    GrownFits(pairs, p[..m]);
    var s := LastWrites(pairs);
    assert p[..|p|] == p;
    forall j | m <= j <= |p|
      ensures p[..j] !in s && !Extended(s, p[..j])
    {
      assert p[..m] <= p[..j];
      forall r | r in s && p[..j] <= r
        ensures r == p[..m] || p[..m] < r
      {}
    }
  }

  /**
   Flattening, for any pairs at all: what it may find under the spelling of a path without numerals is
   the last value written there unless that is a map, the array that keys going on from there make, or
   what a map written higher up holds there itself.
   */
  lemma {:induction false} WordFound(pairs: seq<Pair>, p: seq<string>, v: Any)
    requires p != [] && GoodPath(p) && Wordy(p)
    ensures WalkWrites("", Dict(Unflattened(pairs)), Join(p), v) <==> Found(pairs, p, v)
  {
    hide Wordy, WalkWrites, LastWrites, Grown, Join, MatRoot, Shaped, GoodSeg, OwnEntryIs, SomeMapReaches, Lands;
    GrownIsShaped(pairs);
    RootLands(Grown(pairs), p, v);
    assert p[..1] == [p[0]] && p[..0] == [] && p[..0] + [p[0]] == [p[0]];
    NodeAtNext(Grown(pairs), [], p[0]);
    JoinOne(p[0]);
    assert NodeAt(Grown(pairs), []) == Some(Grown(pairs));
    if p[0] in Grown(pairs).branches {
      assert NodeAt(Grown(pairs), p[..1]).value == Grown(pairs).branches[p[0]];
      LandsFrom(pairs, p, 1, v);
    } else {
      NoNodeBeyond(pairs, p, 1, v);
    }
  }

  lemma {:induction false} JoinOne(s: string)
    ensures Join([s]) == s
  {}

  // ----- without descending -----

  /** All the path's nodes before its end are valued. */
  predicate Tops(n: Node, path: seq<string>)
    decreases |path|
  {
    path == [] || (n.value.Some? && path[0] in n.branches && Tops(n.branches[path[0]], path[1..]))
  }

  /** A key spelled like a path below a node is among the node's entries exactly then. */
  lemma {:induction false} EntryTops(n: Node, k: string, path: seq<string>)
    requires Shaped(n) && GoodPath(path) && Wordy(path)
    ensures From(k, path) in Writes(n, k) <==> Tops(n, path)
    ensures Tops(n, path) ==> NodeAt(n, path).Some? && Writes(n, k)[From(k, path)] == Held(NodeAt(n, path).value)
    decreases |path|
  {
    hide Shaped, Writes, GoodSeg, Digit, MatValue, From, Under;
    if path == [] {
      FromNone(k);
      EntryAtKey(n, k);
    } else {
      var s, rest := path[0], path[1..];
      assert path == [s] + rest;
      GoodIsFree(s);
      FromUnder(k, s, rest);
      FromStep(k, s, rest);
      if s in n.branches {
        ShapedBranch(n, s);
        EntryTops(n.branches[s], k + "." + s, rest);
      }
      if n.value.Some? {
        ValuedTop(n, k, s, From(k, path));
      } else {
        OnlyKey(n, k);
      }
    }
  }

  /** What a node puts under its own key. */
  ghost function Held(n: Node): Any {
    if n.value.Some? then n.value.value else MatValue(n)
  }

  lemma {:induction false} OnlyKey(n: Node, k: string)
    requires n.value.None?
    ensures forall key :: key in Writes(n, k) <==> key == k
  {
    hide MatValue;
  }

  lemma {:induction false} ValuedTop(n: Node, k: string, s: string, key: string)
    requires Shaped(n) && n.value.Some? && Free(s, '.') && Digit(s) == None && Under(k + "." + s, key) && |key| > |k|
    ensures key in Writes(n, k) <==> s in n.branches && key in Writes(n.branches[s], k + "." + s)
    ensures s in n.branches && key in Writes(n, k) ==> Writes(n, k)[key] == Writes(n.branches[s], k + "." + s)[key]
  {
    hide Shaped, Under, UnionOf, Writes, Digit, Itoa, Shadowed;
    if key in Writes(n, k) {
      var leg := EntryLeg(n, k, key);
      KidParts(n, leg);
      UnderTwo(k + ".", leg.Name(), s, key);
      if leg.Ix? { DigitIsItoa(s, leg.i); }
    }
    if s in n.branches && key in Writes(n.branches[s], k + "." + s) {
      NotShadowed(n, s);
      ValuedEntry(n, k, Br(s), key);
    }
  }

  lemma {:induction false} NotShadowed(n: Node, s: string)
    requires Digit(s) == None
    ensures !Shadowed(n, Br(s))
  {}

  lemma {:induction false} RootTops(root: Node, p: seq<string>)
    requires Shaped(root) && p != [] && GoodPath(p) && Wordy(p)
    ensures Join(p) in MatRoot(root) <==> p[0] in root.branches && Tops(root.branches[p[0]], p[1..])
    ensures Join(p) in MatRoot(root) ==>
              NodeAt(root, p).Some? && MatRoot(root)[Join(p)] == Held(NodeAt(root, p).value)
  {
    hide Shaped, Writes, GoodSeg, Digit, UnionOf, From, Join, Under, Tops, Held;
    var s, rest := p[0], p[1..];
    assert p == [s] + rest && "" + s == s;
    GoodIsFree(s);
    FromStep(s, s, rest);
    JoinUnder(s, rest);
    if s in root.branches {
      ShapedBranch(root, s);
      EntryTops(root.branches[s], s, rest);
      BranchUnionAt(root, "", s, Join(p));
    } else if Join(p) in MatRoot(root) {
      var t := BranchEntry(root, "", Join(p));
      ShapedBranch(root, t);
      WritesUnder(root.branches[t], "" + t, Join(p));
      UnderTwo("", t, s, Join(p));
    }
  }

  /** Every non-empty proper prefix was written, from m segments on. */
  predicate PrefixesIn(s: Content, p: seq<string>, m: nat) {
    forall i | m <= i < |p| :: p[..i] in s
  }

  lemma {:induction false} TopsFrom(pairs: seq<Pair>, p: seq<string>, m: nat)
    requires 0 < m <= |p| && Wordy(p) && NodeAt(Grown(pairs), p[..m]).Some?
    ensures Tops(NodeAt(Grown(pairs), p[..m]).value, p[m..]) <==>
            PrefixesIn(LastWrites(pairs), p, m) && Through(LastWrites(pairs), p)
    decreases |p| - m
  {
    hide Wordy, NodeAt, LastWrites, Grown, PrefixesIn, Through, Extended, OnlyIndexed;
    var s, x := LastWrites(pairs), NodeAt(Grown(pairs), p[..m]).value;
    WordyPrefix(p, m);
    GrownFits(pairs, p[..m]);
    PrefixesNext(s, p, m);
    if m == |p| {
      assert p[..m] == p && p[m..] == [];
    } else {
      assert p[m..][0] == p[m] && p[m..][1..] == p[m + 1..] && p[..m + 1] == p[..m] + [p[m]];
      NodeAtNext(Grown(pairs), p[..m], p[m]);
      if p[m] in x.branches {
        TopsFrom(pairs, p, m + 1);
      } else {
        NotThrough(pairs, p, m + 1);
      }
    }
  }

  lemma {:induction false} PrefixesNext(s: Content, p: seq<string>, m: nat)
    ensures m < |p| ==> (PrefixesIn(s, p, m) <==> p[..m] in s && PrefixesIn(s, p, m + 1))
    ensures m >= |p| ==> PrefixesIn(s, p, m)
  {}

  lemma {:induction false} NotThrough(pairs: seq<Pair>, p: seq<string>, m: nat)
    requires 0 < m <= |p| && Wordy(p) && NodeAt(Grown(pairs), p[..m]).None?
    ensures !Through(LastWrites(pairs), p)
  {
    hide NodeAt, LastWrites, Grown, Wordy, OnlyIndexed;
    WordyPrefix(p, m);
    GrownFits(pairs, p[..m]);
    var s := LastWrites(pairs);
    assert p[..m] <= p;
    forall r | r in s && p <= r
      ensures r == p[..m] || p[..m] < r
    {}
  }

  /**
   Direct reading, for any pairs at all: the output has a key spelled like a path without numerals if
   and only if all the path's proper prefixes were written and some key is or goes on from the path.
   It then holds the last value written there, or, if there is none, a map or an array.
   */
  lemma {:induction false} WordTops(pairs: seq<Pair>, p: seq<string>)
    requires p != [] && GoodPath(p) && Wordy(p)
    ensures Join(p) in Unflattened(pairs) <==> PrefixesIn(LastWrites(pairs), p, 1) && Through(LastWrites(pairs), p)
    ensures Join(p) in Unflattened(pairs) ==>
              var v := Unflattened(pairs)[Join(p)];
              if p in LastWrites(pairs) then v == LastWrites(pairs)[p] else v.Dict? || v.List?
  {
    hide Wordy, LastWrites, Grown, Join, MatRoot, Shaped, GoodSeg, Tops, PrefixesIn, Through;
    GrownIsShaped(pairs);
    RootTops(Grown(pairs), p);
    assert p[..1] == [p[0]] && p[..0] == [] && p[..0] + [p[0]] == [p[0]];
    NodeAtNext(Grown(pairs), [], p[0]);
    assert NodeAt(Grown(pairs), []) == Some(Grown(pairs));
    if p[0] in Grown(pairs).branches {
      assert NodeAt(Grown(pairs), p[..1]).value == Grown(pairs).branches[p[0]];
      TopsFrom(pairs, p, 1);
    } else {
      NotThrough(pairs, p, 1);
    }
    if Join(p) in Unflattened(pairs) { HeldValue(pairs, p); }
  }

  lemma {:induction false} HeldValue(pairs: seq<Pair>, p: seq<string>)
    requires Wordy(p) && NodeAt(Grown(pairs), p).Some?
    ensures var v := Held(NodeAt(Grown(pairs), p).value);
            if p in LastWrites(pairs) then v == LastWrites(pairs)[p] else v.Dict? || v.List?
  {
    hide NodeAt, LastWrites, Grown, Wordy, MatValue, Extended, OnlyIndexed, IsArray;
    GrownFits(pairs, p);
    MatKind(NodeAt(Grown(pairs), p).value);
  }
}
