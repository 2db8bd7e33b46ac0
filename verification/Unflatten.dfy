/** Unflatten end to end on the heap trie: build it pair by pair, then materialize it. */
module Unflatten {
  import opened Text
  import opened Keys
  import opened Trie
  import opened Materialize
  import opened TrieNode

  // ----- sortedIndices -----

  predicate Ascending(s: seq<nat>) {
    forall i, j | 0 <= i < j < |s| :: s[i] <= s[j]
  }

  /** The insertion sort of sortedIndices, swapping neighbours in place. */
  method InsertionSort(a: array<nat>)
    modifies a
    ensures Ascending(a[..]) && multiset(a[..]) == multiset(old(a[..]))
  {
    var i := 1;
    while i < a.Length
      invariant 1 <= i
      invariant forall p, q | 0 <= p < q < i && q < a.Length :: a[p] <= a[q]
      invariant multiset(a[..]) == multiset(old(a[..]))
    {
      var j := i;
      while j > 0 && a[j] < a[j - 1]
        invariant 0 <= j <= i
        invariant forall p, q | 0 <= p < q <= i && q != j :: a[p] <= a[q]
        invariant multiset(a[..]) == multiset(old(a[..]))
      {
        a[j], a[j - 1] := a[j - 1], a[j];
        j := j - 1;
      }
      i := i + 1;
    }
  }

  /** Ascending and without repetition: there is one such list of a set. */
  lemma {:induction false} AscendingIsSortedKeys(s: seq<nat>, keys: set<nat>)
    requires Ascending(s) && multiset(s) == multiset(keys)
    ensures s == SortedKeys(keys)
    decreases |s|
  {
    assert |multiset(s)| == |multiset(keys)|;
    if s != [] {
      assert s[0] in multiset(s) && s[0] in keys;
      var m := Least(keys);
      assert m in multiset(keys);
      assert m in s;
      assert s[0] == m;
      assert s == [s[0]] + s[1..];
      assert multiset(s[1..]) == multiset(s) - multiset{m};
      assert multiset(keys - {m}) == multiset(keys) - multiset{m};
      AscendingIsSortedKeys(s[1..], keys - {m});
    }
  }

  method SortedIndices(keys: set<nat>) returns (idxs: seq<nat>)
    ensures idxs == SortedKeys(keys)
  {
    var list: seq<nat> := [];
    var todo := keys;
    while todo != {}
      invariant todo <= keys && multiset(list) + multiset(todo) == multiset(keys)
      decreases |todo|
    {
      var k :| k in todo;
      list := list + [k];
      todo := todo - {k};
    }
    var a := new nat[|list|](i requires 0 <= i < |list| => list[i]);
    assert a[..] == list;
    InsertionSort(a);
    idxs := a[..];
    AscendingIsSortedKeys(idxs, keys);
  }

  // ----- one entry after another -----

  /** No two members write the same key. */
  ghost predicate NoClash<K(!new)>(fam: map<K, map<string, Any>>) {
    forall i, j, key | i in fam && j in fam && key in fam[i] && key in fam[j] :: i == j
  }

  lemma {:induction false} UnionAdd<K(!new)>(fam: map<K, map<string, Any>>, k: K, w: map<string, Any>)
    requires k !in fam && NoClash(fam[k := w])
    ensures UnionOf(fam[k := w]) == UnionOf(fam) + w
  {
    hide UnionOf;
    var all := fam[k := w];
    forall key: string
      ensures key in UnionOf(all) <==> key in UnionOf(fam) + w
      ensures key in UnionOf(all) ==> UnionOf(all)[key] == (UnionOf(fam) + w)[key]
    {
      UnionHas(all, key);
      UnionHas(fam, key);
      if key in w {
        assert key in all[k];
        UnionAt(all, k, key);
      } else if key in UnionOf(fam) {
        var j :| j in fam && key in fam[j];
        assert j in all && all[j] == fam[j];
        forall i | i in fam && key in fam[i]
          ensures i == j
        {
          assert i in all && all[i] == fam[i];
        }
        UnionAt(fam, j, key);
        UnionAt(all, j, key);
      }
    }
  }

  function Only<K, V>(m: map<K, V>, keys: set<K>): map<K, V> {
    map k | k in m && k in keys :: m[k]
  }

  lemma {:induction false} UnionStep<K(!new)>(fam: map<K, map<string, Any>>, done: set<K>, k: K)
    requires NoClash(fam) && k in fam && k !in done
    ensures UnionOf(Only(fam, done + {k})) == UnionOf(Only(fam, done)) + fam[k]
  {
    hide UnionOf;
    assert Only(fam, done + {k}) == Only(fam, done)[k := fam[k]];
    UnionAdd(Only(fam, done), k, fam[k]);
  }

  lemma {:induction false} BranchesNoClash(n: Node, prefix: string)
    requires Shaped(n)
    ensures NoClash(BranchWrites(n, prefix))
  {
    hide Shaped, Under, Writes;
    forall s, t, key | s in n.branches && t in n.branches && key in Writes(n.branches[s], prefix + s) &&
      key in Writes(n.branches[t], prefix + t)
      ensures s == t
    {
      ShapedBranch(n, s);
      ShapedBranch(n, t);
      WritesUnder(n.branches[s], prefix + s, key);
      WritesUnder(n.branches[t], prefix + t, key);
      UnderTwo(prefix, s, t, key);
    }
  }

  lemma {:induction false} IndicesNoClash(n: Node, prefix: string)
    requires Shaped(n)
    ensures NoClash(IndexWrites(n, prefix))
  {
    hide Shaped, Under, Writes, Itoa;
    forall i, j, key | i in n.indices && j in n.indices && key in Writes(n.indices[i], prefix + Itoa(i)) &&
      key in Writes(n.indices[j], prefix + Itoa(j))
      ensures i == j
    {
      ShapedIndex(n, i);
      ShapedIndex(n, j);
      WritesUnder(n.indices[i], prefix + Itoa(i), key);
      WritesUnder(n.indices[j], prefix + Itoa(j), key);
      UnderTwo(prefix, Itoa(i), Itoa(j), key);
      ItoaInjective(i, j);
    }
  }

  // ----- materialization -----

  lemma {:induction false} PlusThree<K, V>(a: map<K, V>, b: map<K, V>, c: map<K, V>)
    ensures a + (b + c) == a + b + c
  {}

  /** What the branches among done write. */
  ghost function BranchesDone(n: Node, prefix: string, done: set<string>): map<string, Any> {
    UnionOf(Only(BranchWrites(n, prefix), done))
  }

  lemma {:induction false} BranchesEnds(n: Node, prefix: string)
    ensures BranchesDone(n, prefix, {}) == map[]
    ensures BranchesDone(n, prefix, n.branches.Keys) == UnionOf(BranchWrites(n, prefix))
  {
    hide UnionOf, Writes;
    NothingUnited<string>();
    assert Only(BranchWrites(n, prefix), {}) == map[];
    assert Only(BranchWrites(n, prefix), n.branches.Keys) == BranchWrites(n, prefix);
  }

  lemma {:induction false} BranchesStep(out: map<string, Any>, n: Node, prefix: string, done: set<string>, s: string)
    requires Shaped(n) && s in n.branches && s !in done
    ensures out + BranchesDone(n, prefix, done + {s}) ==
            out + BranchesDone(n, prefix, done) + Writes(n.branches[s], prefix + s)
    ensures Shaped(n.branches[s])
  {
    hide UnionOf, Writes, Shaped;
    PlusThree(out, BranchesDone(n, prefix, done), Writes(n.branches[s], prefix + s));
    BranchesNoClash(n, prefix);
    UnionStep(BranchWrites(n, prefix), done, s);
    ShapedBranch(n, s);
  }

  /** materializeInto for every branch of n, in whatever order the map yields them. */
  method BranchesInto(out: map<string, Any>, prefix: string, n: TrieNode) returns (r: map<string, Any>)
    requires n.Valid() && Shaped(n.model)
    ensures r == out + UnionOf(BranchWrites(n.model, prefix))
    decreases n.model, 0
  {
    hide UnionOf, Writes, Shaped, BranchesDone, BranchWrites, TrieNode.Valid;
    r := out;
    n.SameKeys();
    BranchesEnds(n.model, prefix);
    ghost var done: set<string> := {};
    var todo := n.branches.Keys;
    while todo != {}
      invariant todo !! done && todo + done == n.branches.Keys
      invariant r == out + BranchesDone(n.model, prefix, done)
      decreases |todo|
    {
      var s :| s in todo;
      assert s in n.branches;
      n.BranchKid(s);
      BranchesStep(out, n.model, prefix, done, s);
      var c := n.branches[s];
      r := MaterializeInto(r, prefix + s, c);
      todo, done := todo - {s}, done + {s};
    }
    assert done == n.branches.Keys;
  }

  lemma {:induction false} NothingUnited<K>()
    ensures UnionOf<K>(map[]) == map[]
  {
    forall key: string
      ensures key !in UnionOf<K>(map[])
    {
      UnionHas<K>(map[], key);
    }
  }

  /** What the first j indices, in ascending order, write. */
  ghost function IndicesDone(n: Node, prefix: string, j: nat): map<string, Any>
    requires j <= |SortedKeys(n.indices.Keys)|
  {
    UnionOf(Only(IndexWrites(n, prefix), Firsts(SortedKeys(n.indices.Keys), j)))
  }

  lemma {:induction false} IndicesEnds(n: Node, prefix: string)
    ensures IndicesDone(n, prefix, 0) == map[]
    ensures IndicesDone(n, prefix, |SortedKeys(n.indices.Keys)|) == UnionOf(IndexWrites(n, prefix))
  {
    hide UnionOf, Writes, SortedKeys;
    NothingUnited<nat>();
    AllFirsts(n.indices.Keys);
    assert Only(IndexWrites(n, prefix), Firsts(SortedKeys(n.indices.Keys), 0)) == map[];
    assert Only(IndexWrites(n, prefix), n.indices.Keys) == IndexWrites(n, prefix);
  }

  lemma {:induction false} IndicesStep(out: map<string, Any>, n: Node, prefix: string, j: nat)
    requires Shaped(n) && j < |SortedKeys(n.indices.Keys)|
    ensures var i := SortedKeys(n.indices.Keys)[j];
            && i in n.indices && Shaped(n.indices[i])
            && out + IndicesDone(n, prefix, j + 1) ==
              out + IndicesDone(n, prefix, j) + Writes(n.indices[i], prefix + Itoa(i))
  {
    hide UnionOf, Writes, Shaped, SortedKeys, Itoa;
    var keys := SortedKeys(n.indices.Keys);
    assert keys[j] in keys;
    IndicesNoClash(n, prefix);
    NotYet(n.indices.Keys, j);
    UnionStep(IndexWrites(n, prefix), Firsts(keys, j), keys[j]);
    FirstsStep(keys, j);
    ShapedIndex(n, keys[j]);
  }

  /** materializeInto for the indices of a valued node, in ascending order. */
  method IndicesInto(out: map<string, Any>, prefix: string, n: TrieNode) returns (r: map<string, Any>)
    requires n.Valid() && Shaped(n.model)
    ensures r == out + UnionOf(IndexWrites(n.model, prefix))
    decreases n.model, 0
  {
    hide UnionOf, Writes, Shaped, IndicesDone, IndexWrites, TrieNode.Valid, SortedKeys, Itoa;
    r := out;
    n.SameKeys();
    IndicesEnds(n.model, prefix);
    var idxs := SortedIndices(n.indices.Keys);
    for j := 0 to |idxs|
      invariant r == out + IndicesDone(n.model, prefix, j)
    {
      var i := idxs[j];
      IndicesStep(out, n.model, prefix, j);
      n.IndexKid(i);
      var c := n.indices[i];
      r := MaterializeInto(r, prefix + Itoa(i), c);
    }
  }

  ghost function Firsts(keys: seq<nat>, j: nat): set<nat>
    requires j <= |keys|
  {
    set k | 0 <= k < j :: keys[k]
  }

  lemma {:induction false} FirstsStep(keys: seq<nat>, j: nat)
    requires j < |keys|
    ensures Firsts(keys, j + 1) == Firsts(keys, j) + {keys[j]}
  {}

  lemma {:induction false} NotYet(s: set<nat>, j: nat)
    requires j < |SortedKeys(s)|
    ensures SortedKeys(s)[j] !in Firsts(SortedKeys(s), j)
  {
    hide SortedKeys;
    RankOfKey(s, j);
    forall k | 0 <= k < j
      ensures SortedKeys(s)[k] != SortedKeys(s)[j]
    {
      RankOfKey(s, k);
    }
  }

  lemma {:induction false} AllFirsts(s: set<nat>)
    ensures Firsts(SortedKeys(s), |SortedKeys(s)|) == s
  {
    hide SortedKeys;
    var keys := SortedKeys(s);
    forall x | x in s
      ensures x in Firsts(keys, |keys|)
    {
      SortedKeysAt(s, x);
    }
    forall k | 0 <= k < |keys|
      ensures keys[k] in s
    {
      assert keys[k] in keys;
    }
  }

  lemma {:induction false} WritesParts(out: map<string, Any>, n: Node, k: string)
    ensures n.value.None? ==> out + Writes(n, k) == out[k := MatValue(n)]
    ensures n.value.Some? ==>
              out + Writes(n, k) ==
              out[k := n.value.value] + UnionOf(BranchWrites(n, k + ".")) + UnionOf(IndexWrites(n, k + "."))
  {
    hide UnionOf, BranchWrites, IndexWrites, MatValue;
    if n.value.Some? {
      var b, i := UnionOf(BranchWrites(n, k + ".")), UnionOf(IndexWrites(n, k + "."));
      PlusThree(out, map[k := n.value.value] + b, i);
      PlusThree(out, map[k := n.value.value], b);
    }
  }

  /** materializeInto: n's entries under key k go into out. */
  method MaterializeInto(out: map<string, Any>, k: string, n: TrieNode) returns (r: map<string, Any>)
    requires n.Valid() && Shaped(n.model)
    ensures r == out + Writes(n.model, k)
    decreases n.model, 2
  {
    hide UnionOf, Shaped, TrieNode.Valid, BranchWrites, IndexWrites, MatValue, Writes;
    n.SameKeys();
    WritesParts(out, n.model, k);
    if n.value.Some? {
      r := out[k := n.value.value];
      r := BranchesInto(r, k + ".", n);
      r := IndicesInto(r, k + ".", n);
      return;
    }
    var m := MaterializeValue(n);
    r := out[k := m];
  }

  /** The array asArray builds of n's indices. */
  method ArrayOf(n: TrieNode) returns (arr: seq<Any>)
    requires n.Valid() && Shaped(n.model)
    ensures ListsIndices(n.model, arr)
    decreases n.model, 0
  {
    hide Shaped, TrieNode.Valid, SortedKeys, MatValue;
    n.SameKeys();
    var idxs := SortedIndices(n.indices.Keys);
    arr := [];
    for j := 0 to |idxs|
      invariant |arr| == j
      invariant forall p | 0 <= p < j :: idxs[p] in n.model.indices && arr[p] == MatValue(n.model.indices[idxs[p]])
    {
      var i := idxs[j];
      assert i in idxs;
      n.IndexKid(i);
      ShapedIndex(n.model, i);
      var e := MaterializeValue(n.indices[i]);
      arr := arr + [e];
    }
  }

  /** arr holds the values of n's indices in ascending order. */
  ghost predicate ListsIndices(n: Node, arr: seq<Any>) {
    var idxs := SortedKeys(n.indices.Keys);
    |arr| == |idxs| && forall p | 0 <= p < |idxs| :: idxs[p] in n.indices && arr[p] == MatValue(n.indices[idxs[p]])
  }

  lemma {:induction false} ArrayIsValue(n: Node, arr: seq<Any>)
    requires ListsIndices(n, arr) && IsArray(n)
    ensures MatValue(n) == List(arr)
  {
    hide SortedKeys;
  }

  /** materializeValue, asArray included: an array if all children are indices, a map of the branches otherwise. */
  method MaterializeValue(n: TrieNode) returns (v: Any)
    requires n.Valid() && Shaped(n.model)
    ensures v == MatValue(n.model)
    decreases n.model, 1
  {
    hide UnionOf, Shaped, TrieNode.Valid, BranchWrites, ListsIndices;
    n.SameKeys();
    if |n.indices| != 0 && |n.branches| == 0 {
      var arr := ArrayOf(n);
      ArrayIsValue(n.model, arr);
      return List(arr);
    }
    var m := BranchesInto(map[], "", n);
    assert map[] + UnionOf(BranchWrites(n.model, "")) == UnionOf(BranchWrites(n.model, ""));
    return Dict(m);
  }

  /** Unflatten: the output is the function of the pairs that module Materialize defines. */
  method UnflattenPairs(pairs: seq<Pair>) returns (out: map<string, Any>)
    ensures out == Unflattened(pairs)
  {
    hide Grown, AddPair, TrieNode.Valid, UnionOf, BranchWrites, Shaped;
    var root := new TrieNode();
    GrownNothing();
    for i := 0 to |pairs|
      invariant root.Valid() && fresh(root.repr) && root.model == Grown(pairs[..i])
    {
      GrownNext(pairs, i);
      if pairs[i].value != Nil {
        var segs := SegmentsOf(pairs[i].key);
        if segs != [] {
          root.AddFrom(segs, pairs[i].value);
        }
      }
    }
    assert pairs[..|pairs|] == pairs;
    GrownIsShaped(pairs);
    out := BranchesInto(map[], "", root);
    assert map[] + UnionOf(BranchWrites(root.model, "")) == UnionOf(BranchWrites(root.model, ""));
  }

  lemma {:induction false} GrownNothing()
    ensures Grown([]) == NEW
  {}

  lemma {:induction false} GrownNext(pairs: seq<Pair>, i: nat)
    requires i < |pairs|
    ensures Grown(pairs[..i + 1]) == if pairs[i].value == Nil || Path(pairs[i].key) == [] then Grown(pairs[..i])
                                     else Add(Grown(pairs[..i]), Path(pairs[i].key), pairs[i].value)
  {
    assert pairs[..i + 1][..i] == pairs[..i];
  }
}
