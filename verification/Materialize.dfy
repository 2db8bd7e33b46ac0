/** From the trie to nested maps and arrays, and where each path's value ends up. */
module Materialize {
  import opened Text
  import opened Keys
  import opened Trie

  // ----- sorted indices -----

  ghost predicate IsLeast(s: set<nat>, m: nat) {
    m in s && forall x | x in s :: m <= x
  }

  lemma {:induction false} LeastExists(s: set<nat>) returns (m: nat)
    requires s != {}
    ensures IsLeast(s, m)
    decreases |s|
  {
    var first :| first in s;
    var rest := s - {first};
    m := first;
    if rest != {} {
      var least := LeastExists(rest);
      m := if least < first then least else first;
      forall x | x in s
        ensures m <= x
      {
        assert x == first || x in rest;
      }
    } else {
      assert s == {first};
    }
  }

  ghost function Least(s: set<nat>): (m: nat)
    requires s != {}
    ensures IsLeast(s, m)
  {
    assert exists m :: IsLeast(s, m) by {
      var m := LeastExists(s);
    }
    var m :| IsLeast(s, m);
    m
  }

  /** sortedIndices: the index keys in ascending order. */
  ghost function SortedKeys(s: set<nat>): (r: seq<nat>)
    ensures |r| == |s| && forall x :: x in r <==> x in s
    decreases |s|
  {
    if s == {} then []
    else
      var m := Least(s);
      [m] + SortedKeys(s - {m})
  }

  /** How many sibling indices come before i. */
  ghost function Rank(s: set<nat>, i: nat): nat {
    |set x | x in s && x < i|
  }

  lemma {:induction false} RankStep(s: set<nat>, m: nat, i: nat)
    requires m in s && (forall x | x in s :: m <= x)
    ensures i in s && i != m ==> Rank(s, i) == Rank(s - {m}, i) + 1
    ensures Rank(s, m) == 0
  {
    var before := set x | x in s - {m} && x < i;
    if i in s && i != m {
      assert (set x | x in s && x < i) == before + {m};
    }
    assert (set x | x in s && x < m) == {};
  }

  lemma {:induction false} SortedKeysAt(s: set<nat>, i: nat)
    requires i in s
    ensures Rank(s, i) < |SortedKeys(s)| && SortedKeys(s)[Rank(s, i)] == i
    decreases |s|
  {
    hide Rank;
    var m := Least(s);
    RankStep(s, m, i);
    if i != m {
      SortedKeysAt(s - {m}, i);
    }
  }

  lemma {:induction false} RankOfKey(s: set<nat>, j: nat)
    requires j < |SortedKeys(s)|
    ensures Rank(s, SortedKeys(s)[j]) == j
    decreases |s|
  {
    hide Rank;
    var m := Least(s);
    var i := SortedKeys(s)[j];
    RankStep(s, m, i);
    if j > 0 {
      RankOfKey(s - {m}, j - 1);
      assert SortedKeys(s - {m})[j - 1] == i;
    }
  }

  // ----- the output -----

  ghost function UnionKeys<K>(fam: map<K, map<string, Any>>): set<string> {
    set k, x | k in fam && x in fam[k] :: x
  }

  ghost function PickFrom<K>(fam: map<K, map<string, Any>>, key: string): Any
    requires key in UnionKeys(fam)
  {
    var k :| k in fam && key in fam[k];
    fam[k][key]
  }

  /** All the entries a family of children writes into one map. */
  ghost function UnionOf<K>(fam: map<K, map<string, Any>>): map<string, Any> {
    map key | key in UnionKeys(fam) :: PickFrom(fam, key)
  }

  lemma {:induction false} UnionAt<K>(fam: map<K, map<string, Any>>, k: K, key: string)
    requires k in fam && forall j | j in fam && key in fam[j] :: j == k
    ensures key in UnionOf(fam) <==> key in fam[k]
    ensures key in UnionOf(fam) ==> UnionOf(fam)[key] == fam[k][key]
  {}

  predicate IsArray(n: Node) {
    n.indices != map[] && n.branches == map[]
  }

  /** materializeInto: what it writes into out for node n under key k. */
  ghost function Writes(n: Node, k: string): map<string, Any>
    decreases n, 2
  {
    if n.value.Some? then map[k := n.value.value] + UnionOf(BranchWrites(n, k + ".")) + UnionOf(IndexWrites(n, k + "."))
    else map[k := MatValue(n)]
  }

  /** The branches' entries under their keys behind a prefix. */
  ghost function BranchWrites(n: Node, prefix: string): map<string, map<string, Any>>
    decreases n, 0
  {
    map s | s in n.branches :: Writes(n.branches[s], prefix + s)
  }

  ghost function IndexWrites(n: Node, prefix: string): map<nat, map<string, Any>>
    decreases n, 0
  {
    map i | i in n.indices :: Writes(n.indices[i], prefix + Itoa(i))
  }

  /** materializeValue, and the unvalued cases of materializeInto. */
  ghost function MatValue(n: Node): Any
    decreases n, 1
  {
    if IsArray(n) then
      var keys := SortedKeys(n.indices.Keys);
      List(seq(|keys|, j requires 0 <= j < |keys| => assert keys[j] in keys; MatValue(n.indices[keys[j]])))
    else Dict(UnionOf(BranchWrites(n, "")))
  }

  /** materializeRoot: the root's branches only. */
  ghost function MatRoot(root: Node): map<string, Any> {
    UnionOf(BranchWrites(root, ""))
  }

  ghost function Unflattened(pairs: seq<Pair>): map<string, Any> {
    MatRoot(Grown(pairs))
  }

  // ----- keys of different children never meet -----

  predicate Under(k: string, key: string) {
    key == k || (|key| > |k| && key[..|k|] == k && key[|k|] == '.')
  }

  lemma {:induction false} UnderTwo(prefix: string, s: string, t: string, key: string)
    requires Free(s, '.') && Free(t, '.') && Under(prefix + s, key) && Under(prefix + t, key)
    ensures s == t
  {
    var a, b := prefix + s, prefix + t;
    assert a[|prefix|..] == s && b[|prefix|..] == t;
    if |s| == |t| {
      assert key[..|a|] == a && key[..|b|] == b;
    }
  }

  lemma {:induction false} UnderTrans(k: string, s: string, key: string)
    requires Under(k + "." + s, key)
    ensures Under(k, key)
  {
    var inner := k + "." + s;
    assert inner[..|k|] == k && inner[|k|] == '.';
    if key != inner {
      assert key[..|k|] == key[..|inner|][..|k|];
      assert key[|k|] == key[..|inner|][|k|];
    }
  }

  lemma {:induction false} UnionHas<K>(fam: map<K, map<string, Any>>, key: string)
    ensures key in UnionOf(fam) <==> exists k :: k in fam && key in fam[k]
  {}

  lemma {:induction false} WritesUnder(n: Node, k: string, key: string)
    requires Shaped(n) && key in Writes(n, k)
    ensures Under(k, key)
    decreases n
  {
    hide Shaped, Digit, MatValue, Under;
    assert Under(k, k) by { UnderSelf(k); }
    if n.value.Some? && key != k {
      UnionHas(BranchWrites(n, k + "."), key);
      UnionHas(IndexWrites(n, k + "."), key);
      if key in UnionOf(BranchWrites(n, k + ".")) {
        var s :| s in n.branches && key in Writes(n.branches[s], k + "." + s);
        ShapedBranch(n, s);
        WritesUnder(n.branches[s], k + "." + s, key);
        UnderTrans(k, s, key);
      } else {
        var i :| i in n.indices && key in Writes(n.indices[i], k + "." + Itoa(i));
        ShapedIndex(n, i);
        WritesUnder(n.indices[i], k + "." + Itoa(i), key);
        UnderTrans(k, Itoa(i), key);
      }
    }
  }

  lemma {:induction false} UnderSelf(k: string)
    ensures Under(k, k)
  {}

  lemma {:induction false} ShapedBranch(n: Node, s: string)
    requires Shaped(n) && s in n.branches
    ensures Shaped(n.branches[s]) && Inhabited(n.branches[s]) && GoodSeg(s) && Free(s, '.') && s != ""
  {}

  lemma {:induction false} ShapedIndex(n: Node, i: nat)
    requires Shaped(n) && i in n.indices
    ensures Shaped(n.indices[i]) && Inhabited(n.indices[i]) && n.indices[i].value.None? && Free(Itoa(i), '.')
  {
    hide Itoa;
    DigitsHaveNoSpace(Itoa(i));
  }

  /** In the union of the branches' entries, a key of one branch keeps that branch's value. */
  lemma {:induction false} BranchUnionAt(n: Node, prefix: string, s: string, key: string)
    requires Shaped(n) && s in n.branches && Under(prefix + s, key)
    ensures var all := UnionOf(BranchWrites(n, prefix));
            && (key in all <==> key in Writes(n.branches[s], prefix + s))
            && (key in all ==> all[key] == Writes(n.branches[s], prefix + s)[key])
  {
    hide Shaped, Writes, Under, UnionOf;
    var fam := BranchWrites(n, prefix);
    ShapedBranch(n, s);
    forall t | t in fam && key in fam[t]
      ensures t == s
    {
      ShapedBranch(n, t);
      WritesUnder(n.branches[t], prefix + t, key);
      UnderTwo(prefix, s, t, key);
    }
    UnionAt(fam, s, key);
  }

  lemma {:induction false} IndexUnionAt(n: Node, prefix: string, i: nat, key: string)
    requires Shaped(n) && i in n.indices && Under(prefix + Itoa(i), key)
    ensures var all := UnionOf(IndexWrites(n, prefix));
            && (key in all <==> key in Writes(n.indices[i], prefix + Itoa(i)))
            && (key in all ==> all[key] == Writes(n.indices[i], prefix + Itoa(i))[key])
  {
    hide Shaped, Writes, Under, Itoa, UnionOf;
    var fam := IndexWrites(n, prefix);
    ShapedIndex(n, i);
    forall j | j in fam && key in fam[j]
      ensures j == i
    {
      ShapedIndex(n, j);
      WritesUnder(n.indices[j], prefix + Itoa(j), key);
      UnderTwo(prefix, Itoa(i), Itoa(j), key);
      ItoaInjective(i, j);
    }
    UnionAt(fam, i, key);
  }
}
