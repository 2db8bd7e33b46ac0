/** Concrete attribute keys on which the trie's tracks get in each other's way. */
module Witnesses {
  import opened Prelude
  import opened Text
  import opened Keys
  import opened Trie
  import opened Materialize
  import opened Losses

  const CONTENT := "docs.1.content"
  const OTHER := "docs.1.other"
  const ZERO := "docs.0"
  const ONE := "docs.1"
  const SIDE := "docs.x"
  const DOCS := "docs"

  lemma {:induction false} WordsAreGood()
    ensures GoodSeg("docs") && GoodSeg("content") && GoodSeg("other") && GoodSeg("x") && GoodSeg("0") && GoodSeg("1")
    ensures Digit("docs") == None && Digit("content") == None && Digit("other") == None && Digit("x") == None
    ensures Digit("0") == Some(0) && Digit("1") == Some(1)
  {
    hide GoodSeg, Digit;
    PlainWord("docs");
    PlainWord("content");
    PlainWord("other");
    PlainWord("x");
    NumeralIsGood(0);
    NumeralIsGood(1);
    assert Itoa(0) == "0" && Itoa(1) == "1";
    DigitIsItoa("0", 0);
    DigitIsItoa("1", 1);
  }

  lemma {:induction false} Paths()
    ensures Path(CONTENT) == ["docs", "1", "content"] && Path(OTHER) == ["docs", "1", "other"]
    ensures Path(ZERO) == ["docs", "0"] && Path(ONE) == ["docs", "1"] && Path(SIDE) == ["docs", "x"] &&
            Path(DOCS) == ["docs"]
  {
    hide GoodSeg, Digit, Path;
    WordsAreGood();
    assert Join(["1", "content"]) == "1.content" && Join(["docs", "1", "content"]) == CONTENT;
    assert Join(["1", "other"]) == "1.other" && Join(["docs", "1", "other"]) == OTHER;
    assert Join(["docs", "0"]) == ZERO && Join(["docs", "1"]) == ONE && Join(["docs", "x"]) == SIDE &&
      Join(["docs"]) == DOCS;
    PathOfJoin(["docs", "1", "content"]);
    PathOfJoin(["docs", "1", "other"]);
    PathOfJoin(["docs", "0"]);
    PathOfJoin(["docs", "1"]);
    PathOfJoin(["docs", "x"]);
    PathOfJoin(["docs"]);
  }

  function Leaf(v: Any): Node {
    Node(Some(v), map[], map[])
  }

  function Chain(seg: string, n: Node): Node {
    Node(None, map[], map[seg := n])
  }

  lemma {:induction false} GrownOne(p: Pair)
    requires Counts(p)
    ensures Grown([p]) == Add(NEW, Path(p.key), p.value)
  {
    hide Add, Path;
    assert [p][..0] == [];
    GrownStep([p]);
  }

  lemma {:induction false} GrownTwo(p: Pair, q: Pair)
    requires Counts(p) && Counts(q)
    ensures Grown([p, q]) == Add(Grown([p]), Path(q.key), q.value)
  {
    hide Add, Path;
    assert [p, q][..1] == [p];
    GrownStep([p, q]);
  }

  lemma {:induction false} AddOne(n: Node, seg: string, v: Any)
    ensures Add(n, [seg], v) == WithChild(n, seg, true, SetValue(Stepped(n, seg, true), v))
  {
    hide SetValue, WithChild, Stepped;
    assert Add(Stepped(n, seg, true), [seg][1..], v) == SetValue(Stepped(n, seg, true), v);
  }

  lemma {:induction false} AddMore(n: Node, seg: string, rest: seq<string>, v: Any)
    requires rest != []
    ensures Add(n, [seg] + rest, v) == WithChild(n, seg, false, Add(Stepped(n, seg, false), rest, v))
  {
    hide SetValue, WithChild, Stepped;
    assert ([seg] + rest)[1..] == rest;
  }

  lemma {:induction false} SetLeaf(v: Any)
    ensures SetValue(NEW, v) == Leaf(v)
  {
    assert AsBranches(map[]) == map[];
  }

  /** A node "docs" with content under an index. */
  function Indexed(a: Any): Node {
    Node(None, map[1 := Chain("content", Leaf(a))], map[])
  }

  lemma {:induction false} AfterContent(a: Any)
    ensures Add(NEW, ["docs", "1", "content"], a) == Chain("docs", Indexed(a))
  {
    hide Add, SetValue, Digit;
    WordsAreGood();
    assert ["docs", "1", "content"] == ["docs"] + (["1"] + ["content"]);
    AddMore(NEW, "docs", ["1"] + ["content"], a);
    AddMore(NEW, "1", ["content"], a);
    AddOne(NEW, "content", a);
    SetLeaf(a);
  }

  lemma {:induction false} AddDeeperUnderDocs(n: Node, rest: seq<string>, v: Any)
    requires rest != []
    ensures Add(Chain("docs", n), ["docs"] + rest, v) == Chain("docs", Add(n, rest, v))
  {
    hide Add, Digit;
    WordsAreGood();
    AddMore(Chain("docs", n), "docs", rest, v);
  }

  /** Adding one more segment under "docs". */
  lemma {:induction false} AddUnderDocs(n: Node, seg: string, v: Any)
    ensures Add(Chain("docs", n), ["docs", seg], v) == Chain("docs", Add(n, [seg], v))
  {
    hide Add, Chain;
    assert ["docs", seg] == ["docs"] + [seg];
    AddDeeperUnderDocs(n, [seg], v);
  }

  // ----- order -----

  lemma {:induction false} ZeroBesideContent(a: Any, b: Any)
    ensures Add(Indexed(a), ["0"], b) == Node(None, Indexed(a).indices, map["0" := Leaf(b)])
  {
    hide Add, Digit, SetValue;
    WordsAreGood();
    AddOne(Indexed(a), "0", b);
    SetLeaf(b);
    assert Indexed(a).indices - {0} == Indexed(a).indices;
  }

  lemma {:induction false} ContentThenZero(a: Any, b: Any)
    requires a != Nil && b != Nil
    ensures Grown([Pair(CONTENT, a), Pair(ZERO, b)]) ==
            Chain("docs", Node(None, Indexed(a).indices, map["0" := Leaf(b)]))
  {
    hide Add, Digit, Path, Grown, Leaf, Chain, Indexed;
    Paths();
    GrownOne(Pair(CONTENT, a));
    GrownTwo(Pair(CONTENT, a), Pair(ZERO, b));
    AfterContent(a);
    AddUnderDocs(Indexed(a), "0", b);
    ZeroBesideContent(a, b);
  }

  lemma {:induction false} AfterZero(b: Any)
    ensures Add(NEW, ["docs", "0"], b) == Chain("docs", Chain("0", Leaf(b)))
  {
    hide Add, SetValue, Digit;
    WordsAreGood();
    assert ["docs", "0"] == ["docs"] + ["0"];
    AddMore(NEW, "docs", ["0"], b);
    AddOne(NEW, "0", b);
    SetLeaf(b);
    assert NEW.indices - {0} == map[];
  }

  lemma {:induction false} ContentBesideZero(a: Any, b: Any)
    ensures Add(Chain("0", Leaf(b)), ["1", "content"], a) ==
            Node(None, map[], map["0" := Leaf(b), "1" := Chain("content", Leaf(a))])
  {
    hide Add, Digit, SetValue;
    WordsAreGood();
    assert ["1", "content"] == ["1"] + ["content"];
    assert "1" != "0" by { assert "1"[0] != "0"[0]; }
    var zero := Chain("0", Leaf(b));
    assert "0" in zero.branches;
    AddMore(zero, "1", ["content"], a);
    AddOne(NEW, "content", a);
    SetLeaf(a);
    assert zero.branches["1" := Chain("content", Leaf(a))] == map["0" := Leaf(b), "1" := Chain("content", Leaf(a))];
  }

  lemma {:induction false} ZeroThenContent(a: Any, b: Any)
    requires a != Nil && b != Nil
    ensures Grown([Pair(ZERO, b), Pair(CONTENT, a)]) ==
            Chain("docs", Node(None, map[], map["0" := Leaf(b), "1" := Chain("content", Leaf(a))]))
  {
    hide Add, Digit, Path, Grown, Leaf, Chain;
    Paths();
    GrownOne(Pair(ZERO, b));
    GrownTwo(Pair(ZERO, b), Pair(CONTENT, a));
    AfterZero(b);
    ContentBesideZero(a, b);
    assert ["docs", "1", "content"] == ["docs"] + ["1", "content"];
    AddDeeperUnderDocs(Chain("0", Leaf(b)), ["1", "content"], a);
  }

  // ----- outputs -----

  /** Branches that each write one entry, under their own key, make a map of those entries. */
  lemma {:induction false} PlainMap(n: Node, prefix: string)
    requires Shaped(n) && forall s | s in n.branches :: Writes(n.branches[s], prefix + s).Keys == {prefix + s}
    ensures var out := UnionOf(BranchWrites(n, prefix));
            && (forall s | s in n.branches ::
              prefix + s in out && out[prefix + s] == Writes(n.branches[s], prefix + s)[prefix + s])
            && (forall key | key in out :: exists s :: s in n.branches && key == prefix + s)
  {
    hide Shaped, Writes, UnionOf, Under;
    var out := UnionOf(BranchWrites(n, prefix));
    forall key | key in out
      ensures exists s :: s in n.branches && key == prefix + s
    {
      UnionHas(BranchWrites(n, prefix), key);
      var s :| s in n.branches && key in Writes(n.branches[s], prefix + s);
      assert key == prefix + s;
    }
    forall s | s in n.branches
      ensures prefix + s in out && out[prefix + s] == Writes(n.branches[s], prefix + s)[prefix + s]
    {
      UnderSelf(prefix + s);
      BranchUnionAt(n, prefix, s, prefix + s);
    }
  }

  /** A node with two such branches. */
  lemma {:induction false} TwoEntries(n: Node, prefix: string, s: string, v: Any, t: string, w: Any)
    requires Shaped(n) && n.branches.Keys == {s, t} && s != t
    requires Writes(n.branches[s], prefix + s) == map[prefix + s := v] &&
             Writes(n.branches[t], prefix + t) == map[prefix + t := w]
    ensures UnionOf(BranchWrites(n, prefix)) == map[prefix + s := v, prefix + t := w]
  {
    hide Shaped, Writes, UnionOf, BranchWrites;
    PlainMap(n, prefix);
    assert (prefix + s)[|prefix|..] == s && (prefix + t)[|prefix|..] == t;
    assert s in n.branches && t in n.branches;
    var out := UnionOf(BranchWrites(n, prefix));
    forall key | key in out
      ensures key == prefix + s || key == prefix + t
    {
      var r :| r in n.branches && key == prefix + r;
      assert r in {s, t};
    }
  }

  lemma {:induction false} OneEntry(n: Node, prefix: string, s: string, v: Any)
    requires Shaped(n) && n.branches.Keys == {s} && Writes(n.branches[s], prefix + s) == map[prefix + s := v]
    ensures UnionOf(BranchWrites(n, prefix)) == map[prefix + s := v]
  {
    hide Shaped, Writes, UnionOf, BranchWrites;
    PlainMap(n, prefix);
    assert s in n.branches;
    var out := UnionOf(BranchWrites(n, prefix));
    forall key | key in out
      ensures key == prefix + s
    {
      var r :| r in n.branches && key == prefix + r;
      assert r in {s};
    }
  }

  /** A root with one branch: the output is what that branch writes. */
  lemma {:induction false} OneBranch(s: string, n: Node)
    requires Shaped(Chain(s, n))
    ensures MatRoot(Chain(s, n)) == Writes(n, s)
  {
    hide Shaped, Writes, UnionOf, Under;
    var root := Chain(s, n);
    assert "" + s == s && s in root.branches;
    var out := UnionOf(BranchWrites(root, ""));
    forall key: string
      ensures key in out <==> key in Writes(n, s)
      ensures key in out && key in Writes(n, s) ==> out[key] == Writes(n, s)[key]
    {
      UnionHas(BranchWrites(root, ""), key);
      if key in Writes(n, s) {
        assert key in BranchWrites(root, "")[s];
        WritesUnder(n, s, key) by { ShapedBranch(root, s); }
        BranchUnionAt(root, "", s, key);
      }
    }
  }

  lemma {:induction false} LeafWrites(v: Any, k: string)
    ensures Writes(Leaf(v), k) == map[k := v]
  {
    hide UnionOf;
    NothingWritten(Leaf(v), k + ".");
  }

  lemma {:induction false} NothingWritten(n: Node, prefix: string)
    requires n.indices == map[] && n.branches == map[]
    ensures UnionOf(BranchWrites(n, prefix)) == map[] && UnionOf(IndexWrites(n, prefix)) == map[]
  {
    hide Writes;
    forall key: string
      ensures key !in UnionOf(BranchWrites(n, prefix)) && key !in UnionOf(IndexWrites(n, prefix))
    {
      UnionHas(BranchWrites(n, prefix), key);
      UnionHas(IndexWrites(n, prefix), key);
    }
  }

  lemma {:induction false} MapWrites(n: Node, k: string)
    requires n.value.None? && n.branches != map[]
    ensures Writes(n, k) == map[k := Dict(UnionOf(BranchWrites(n, "")))]
  {
    hide UnionOf, BranchWrites;
  }

  lemma {:induction false} LeafIsShaped(v: Any)
    ensures Shaped(Leaf(v)) && Inhabited(Leaf(v))
  {}

  lemma {:induction false} ChainIsShaped(s: string, n: Node)
    requires GoodSeg(s) && Shaped(n) && Inhabited(n)
    ensures Shaped(Chain(s, n)) && Inhabited(Chain(s, n))
  {
    hide GoodSeg;
    assert s in Chain(s, n).branches;
  }

  lemma {:induction false} TwoAreShaped(n: Node, s: string, t: string)
    requires n.branches.Keys == {s, t} && GoodSeg(s) && GoodSeg(t)
    requires Shaped(n.branches[s]) && Inhabited(n.branches[s]) && Shaped(n.branches[t]) && Inhabited(n.branches[t])
    requires forall i | i in n.indices :: n.indices[i].value.None? && Inhabited(n.indices[i]) && Shaped(n.indices[i])
    ensures Shaped(n) && Inhabited(n)
  {
    hide GoodSeg;
    assert s in n.branches;
    forall r | r in n.branches
      ensures r == s || r == t
    {}
  }

  /** What docs.1 and a word below it make of a value. */
  lemma {:induction false} TipWrites(word: string, v: Any, k: string)
    requires GoodSeg(word)
    ensures var tip := Chain(word, Leaf(v));
            && Shaped(tip) && Inhabited(tip) && tip.value == None
            && Writes(tip, k) == map[k := Dict(map[word := v])]
  {
    hide GoodSeg, Shaped, Inhabited, Writes, Leaf, UnionOf, BranchWrites;
    LeafIsShaped(v);
    ChainIsShaped(word, Leaf(v));
    LeafWrites(v, word);
    var tip := Chain(word, Leaf(v));
    assert word in tip.branches;
    assert "" + word == word;
    OneEntry(tip, "", word, v);
    MapWrites(tip, k);
  }

  lemma {:induction false} DocsOutput(n: Node, entries: map<string, Any>)
    requires n.value.None? && n.branches != map[] && Shaped(n) && UnionOf(BranchWrites(n, "")) == entries
    ensures MatRoot(Chain("docs", n)) == map["docs" := Dict(entries)]
  {
    hide GoodSeg, Digit, Shaped, Writes, UnionOf, BranchWrites, MatRoot;
    WordsAreGood();
    var s :| s in n.branches;
    ChainIsShaped("docs", n);
    MapWrites(n, "docs");
    OneBranch("docs", n);
  }

  lemma {:induction false} LossyOutput(a: Any, b: Any)
    ensures var n := Node(None, Indexed(a).indices, map["0" := Leaf(b)]);
            MatRoot(Chain("docs", n)) == map["docs" := Dict(map["0" := b])]
  {
    hide GoodSeg, Digit, UnionOf, Writes, Leaf, Chain, MatRoot, BranchWrites;
    WordsAreGood();
    LeafIsShaped(b);
    TipWrites("content", a, "1");
    LeafWrites(b, "0");
    hide Shaped, Inhabited;
    var n := Node(None, Indexed(a).indices, map["0" := Leaf(b)]);
    assert "0" in n.branches;
    TwoAreShaped(n, "0", "0");
    assert "" + "0" == "0";
    OneEntry(n, "", "0", b);
    DocsOutput(n, map["0" := b]);
  }

  /** A node "docs" with a leaf and a chain of one word under 1, whatever its indices: a map of the two. */
  lemma {:induction false} TwoBranchOutput(n: Node, s: string, b: Any, word: string, v: Any)
    requires GoodSeg(s) && s != "1" && GoodSeg(word) && n.value == None
    requires n.branches == map[s := Leaf(b), "1" := Chain(word, Leaf(v))]
    requires forall i | i in n.indices :: n.indices[i].value.None? && Inhabited(n.indices[i]) && Shaped(n.indices[i])
    ensures MatRoot(Chain("docs", n)) == map["docs" := Dict(map[s := b, "1" := Dict(map[word := v])])]
  {
    hide GoodSeg, Digit, UnionOf, Writes, Leaf, Chain, MatRoot, BranchWrites, Inhabited;
    WordsAreGood();
    LeafIsShaped(b);
    TipWrites(word, v, "1");
    LeafWrites(b, s);
    assert s in n.branches && "1" in n.branches && "" + s == s && "" + "1" == "1";
    assert n.branches.Keys == {s, "1"};
    hide Shaped;
    TwoAreShaped(n, s, "1");
    TwoEntries(n, "", s, b, "1", Dict(map[word := v]));
    DocsOutput(n, map[s := b, "1" := Dict(map[word := v])]);
  }

  lemma {:induction false} LosslessOutput(a: Any, b: Any)
    ensures var n := Node(None, map[], map["0" := Leaf(b), "1" := Chain("content", Leaf(a))]);
            MatRoot(Chain("docs", n)) == map["docs" := Dict(map["0" := b, "1" := Dict(map["content" := a])])]
  {
    hide GoodSeg, Digit, Leaf, Chain, MatRoot;
    WordsAreGood();
    assert "1" != "0" by { assert "1"[0] != "0"[0]; }
    TwoBranchOutput(Node(None, map[], map["0" := Leaf(b), "1" := Chain("content", Leaf(a))]), "0", b, "content", a);
  }

  /**
   Order matters: docs.1.content before docs.0 is kept in the trie but is not in the output; the
   other way round both are in the output.
   */
  lemma {:induction false} OrderMatters(a: Any, b: Any)
    requires a != Nil && b != Nil
    ensures Lookup(Grown([Pair(CONTENT, a), Pair(ZERO, b)]), Path(CONTENT)) == Some(a)
    ensures Unflattened([Pair(CONTENT, a), Pair(ZERO, b)]) == map["docs" := Dict(map["0" := b])]
    ensures Unflattened([Pair(ZERO, b), Pair(CONTENT, a)]) ==
            map["docs" := Dict(map["0" := b, "1" := Dict(map["content" := a])])]
  {
    hide Grown, Path, Leaf, Indexed, Lookup, MatRoot;
    Paths();
    ContentThenZero(a, b);
    ZeroThenContent(a, b);
    LossyOutput(a, b);
    LosslessOutput(a, b);
    HeldAsIndex(a, b);
  }

  lemma {:induction false} HeldAsIndex(a: Any, b: Any)
    ensures Lookup(Chain("docs", Node(None, Indexed(a).indices, map["0" := Leaf(b)])), ["docs", "1", "content"]) ==
            Some(a)
  {
    hide Digit, Lookup, Chain;
    WordsAreGood();
    var n := Node(None, Indexed(a).indices, map["0" := Leaf(b)]);
    assert "1" != "0" by { assert "1"[0] != "0"[0]; }
    assert ["docs", "1", "content"] == ["docs"] + (["1"] + (["content"] + []));
    assert ChildOf(n, "1") == Some(Chain("content", Leaf(a)));
    LookupBelow("docs", n, ["1"] + (["content"] + []));
    LookupStep(n, "1", ["content"] + []);
    LookupBelow("content", Leaf(a), []);
    LookupHere(Leaf(a));
  }

  lemma {:induction false} LookupStep(n: Node, seg: string, rest: seq<string>)
    ensures Lookup(n, [seg] + rest) == match ChildOf(n, seg) case None => None case Some(c) => Lookup(c, rest)
  {
    hide ChildOf;
    assert ([seg] + rest)[1..] == rest;
  }

  lemma {:induction false} LookupBelow(seg: string, n: Node, rest: seq<string>)
    ensures Lookup(Chain(seg, n), [seg] + rest) == Lookup(n, rest)
  {
    hide Lookup;
    LookupStep(Chain(seg, n), seg, rest);
  }

  lemma {:induction false} LookupHere(n: Node)
    ensures Lookup(n, []) == n.value
  {}

  // ----- splits -----

  /** The trie after docs.1.content, docs.x and a further key by way of docs.1: 1 is an index and a branch. */
  function SplitDocs(a: Any, b: Any, word: string, c: Any): Node {
    Node(None, Indexed(a).indices, map["x" := Leaf(b), "1" := Chain(word, Leaf(c))])
  }

  lemma {:induction false} SideGrown(a: Any, b: Any)
    requires a != Nil && b != Nil
    ensures Grown([Pair(CONTENT, a), Pair(SIDE, b)]) ==
            Chain("docs", Node(None, Indexed(a).indices, map["x" := Leaf(b)]))
  {
    hide Add, Digit, Path, Grown, SetValue;
    WordsAreGood();
    Paths();
    GrownOne(Pair(CONTENT, a));
    GrownTwo(Pair(CONTENT, a), Pair(SIDE, b));
    AfterContent(a);
    AddUnderDocs(Indexed(a), "x", b);
    AddOne(Indexed(a), "x", b);
    SetLeaf(b);
  }

  lemma {:induction false} SplitGrown(a: Any, b: Any, key: string, word: string, c: Any)
    requires a != Nil && b != Nil && c != Nil && Path(key) == ["docs", "1", word] && Digit(word) == None
    ensures Grown([Pair(CONTENT, a), Pair(SIDE, b), Pair(key, c)]) == Chain("docs", SplitDocs(a, b, word, c))
  {
    hide Add, Digit, Path, Grown, SetValue;
    WordsAreGood();
    var pairs := [Pair(CONTENT, a), Pair(SIDE, b), Pair(key, c)];
    assert pairs[..2] == [Pair(CONTENT, a), Pair(SIDE, b)];
    SideGrown(a, b);
    GrownStep(pairs);
    var two := Node(None, Indexed(a).indices, map["x" := Leaf(b)]);
    assert ["docs", "1", word] == ["docs"] + (["1"] + [word]);
    AddMore(Chain("docs", two), "docs", ["1"] + [word], c);
    assert "1" != "x" by { assert "1"[0] != "x"[0]; }
    assert "x" in two.branches;
    AddMore(two, "1", [word], c);
    AddOne(NEW, word, c);
    SetLeaf(c);
    assert two.branches["1" := Chain(word, Leaf(c))] == map["x" := Leaf(b), "1" := Chain(word, Leaf(c))];
  }

  lemma {:induction false} SplitOutput(a: Any, b: Any, word: string, c: Any)
    requires GoodSeg(word)
    ensures MatRoot(Chain("docs", SplitDocs(a, b, word, c))) ==
            map["docs" := Dict(map["x" := b, "1" := Dict(map[word := c])])]
  {
    hide GoodSeg, Digit, Leaf, Chain, MatRoot, Inhabited, Shaped;
    WordsAreGood();
    TipWrites("content", a, "1");
    assert "1" != "x" by { assert "1"[0] != "x"[0]; }
    TwoBranchOutput(SplitDocs(a, b, word, c), "x", b, word, c);
  }

  /** "docs" once its index has been moved over the branch of the same number. */
  function Demoted(a: Any, b: Any, d: Any): Node {
    Node(Some(d), map[], map["x" := Leaf(b), "1" := Chain("content", Leaf(a))])
  }

  lemma {:induction false} ValueAtDocs(n: Node, d: Any)
    ensures Add(Chain("docs", n), ["docs"], d) == Chain("docs", SetValue(n, d))
  {
    hide Add, SetValue, Digit;
    WordsAreGood();
    AddOne(Chain("docs", n), "docs", d);
  }

  lemma {:induction false} OneAsBranch(n: Node)
    ensures AsBranches(map[1 := n]) == map["1" := n]
  {
    hide Digit;
    WordsAreGood();
    var b := AsBranches(map[1 := n]);
    forall s: string
      ensures s in b <==> s == "1"
    {
      if Digit(s) == Some(1) {
        DigitIsItoa(s, 1);
        DigitIsItoa("1", 1);
      }
    }
    assert b["1"] == n;
  }

  lemma {:induction false} DemotedIs(a: Any, b: Any, word: string, c: Any, d: Any)
    ensures SetValue(SplitDocs(a, b, word, c), d) == Demoted(a, b, d)
  {
    hide AsBranches, Leaf, Chain;
    assert "1" != "x" by { assert "1"[0] != "x"[0]; }
    OneAsBranch(Chain("content", Leaf(a)));
    assert SetValue(SplitDocs(a, b, word, c), d).branches == Demoted(a, b, d).branches;
  }

  lemma {:induction false} DemotedGrown(a: Any, b: Any, key: string, word: string, c: Any, d: Any)
    requires a != Nil && b != Nil && c != Nil && d != Nil && Path(key) == ["docs", "1", word] && Digit(word) == None
    ensures Grown([Pair(CONTENT, a), Pair(SIDE, b), Pair(key, c), Pair(DOCS, d)]) == Chain("docs", Demoted(a, b, d))
  {
    hide Grown, Path, Digit, Add, SetValue, Chain, Demoted, SplitDocs;
    Paths();
    var pairs := [Pair(CONTENT, a), Pair(SIDE, b), Pair(key, c), Pair(DOCS, d)];
    assert pairs[..3] == [Pair(CONTENT, a), Pair(SIDE, b), Pair(key, c)];
    SplitGrown(a, b, key, word, c);
    GrownStep(pairs);
    ValueAtDocs(SplitDocs(a, b, word, c), d);
    DemotedIs(a, b, word, c, d);
  }

  lemma {:induction false} DemotedShaped(a: Any, b: Any, d: Any)
    ensures Shaped(Demoted(a, b, d)) && Inhabited(Demoted(a, b, d)) && Shaped(Chain("docs", Demoted(a, b, d)))
  {
    hide GoodSeg, Digit, Leaf, Chain, Writes, Inhabited, Shaped;
    WordsAreGood();
    var n := Demoted(a, b, d);
    LeafIsShaped(b);
    TipWrites("content", a, "1");
    assert "1" != "x" by { assert "1"[0] != "x"[0]; }
    assert n.branches.Keys == {"x", "1"};
    TwoAreShaped(n, "x", "1");
    ChainIsShaped("docs", n);
  }

  lemma {:induction false} DemotedEntries(a: Any, b: Any, d: Any)
    ensures UnionOf(BranchWrites(Demoted(a, b, d), "docs" + ".")) ==
            map["docs.x" := b, "docs.1" := Dict(map["content" := a])]
  {
    hide GoodSeg, Digit, Leaf, Chain, UnionOf, Writes, BranchWrites, Inhabited, Shaped;
    WordsAreGood();
    var n := Demoted(a, b, d);
    DemotedShaped(a, b, d);
    TipWrites("content", a, "docs.1");
    LeafWrites(b, "docs.x");
    assert "1" != "x" by { assert "1"[0] != "x"[0]; }
    assert n.branches.Keys == {"x", "1"};
    assert "docs." + "x" == "docs.x" && "docs." + "1" == "docs.1" && "docs" + "." == "docs.";
    TwoEntries(n, "docs.", "x", b, "1", Dict(map["content" := a]));
  }

  lemma {:induction false} DemotedOutput(a: Any, b: Any, d: Any)
    ensures MatRoot(Chain("docs", Demoted(a, b, d))) ==
            map["docs" := d, "docs.x" := b, "docs.1" := Dict(map["content" := a])]
  {
    hide Chain, MatRoot, UnionOf, Writes, BranchWrites, Shaped;
    DemotedShaped(a, b, d);
    DemotedEntries(a, b, d);
    ValuedWrites(Demoted(a, b, d), "docs", d, map["docs.x" := b, "docs.1" := Dict(map["content" := a])]);
    OneBranch("docs", Demoted(a, b, d));
  }

  lemma {:induction false} ValuedWrites(n: Node, k: string, d: Any, entries: map<string, Any>)
    requires n.value == Some(d) && n.indices == map[] && UnionOf(BranchWrites(n, k + ".")) == entries
    ensures Writes(n, k) == map[k := d] + entries
  {
    hide UnionOf, BranchWrites;
    NoIndexWrites(n, k + ".");
  }

  lemma {:induction false} NoIndexWrites(n: Node, prefix: string)
    requires n.indices == map[]
    ensures UnionOf(IndexWrites(n, prefix)) == map[]
  {
    hide Writes;
    forall key: string
      ensures key !in UnionOf(IndexWrites(n, prefix))
    {
      UnionHas(IndexWrites(n, prefix), key);
    }
  }

  /**
   The tracks need not be disjoint: after a branch joins index 1, a further key by way of 1 makes a
   branch of that numeral too, which hides the index. A value at "docs" then demotes the index over
   the branch: its content returns to the output, and what lay in the branch is lost although no key
   ended in a numeral.
   */
  lemma {:induction false} TracksCollide(a: Any, b: Any, c: Any, d: Any)
    requires a != Nil && b != Nil && c != Nil && d != Nil
    ensures var three := [Pair(CONTENT, a), Pair(SIDE, b), Pair(OTHER, c)];
            && !Disjoint(Grown(three)) && !NeverSplits(three)
            && Unflattened(three) == map["docs" := Dict(map["x" := b, "1" := Dict(map["other" := c])])]
    ensures Unflattened([Pair(CONTENT, a), Pair(SIDE, b), Pair(OTHER, c), Pair(DOCS, d)]) ==
            map["docs" := d, "docs.x" := b, "docs.1" := Dict(map["content" := a])]
  {
    hide Grown, Path, Digit, Disjoint, NeverSplits, MatRoot, GoodSeg;
    Paths();
    WordsAreGood();
    SplitGrown(a, b, OTHER, "other", c);
    SplitIsNotDisjoint(a, b, c);
    GrownDisjoint([Pair(CONTENT, a), Pair(SIDE, b), Pair(OTHER, c)]);
    SplitOutput(a, b, "other", c);
    DemotedGrown(a, b, OTHER, "other", c, d);
    DemotedOutput(a, b, d);
  }

  lemma {:induction false} SplitIsNotDisjoint(a: Any, b: Any, c: Any)
    ensures !Disjoint(Chain("docs", SplitDocs(a, b, "other", c)))
  {
    WordsAreGood();
    var docs := SplitDocs(a, b, "other", c);
    assert Itoa(1) == "1";
    assert !Disjoint(docs) by { assert 1 in docs.indices && Itoa(1) in docs.branches; }
    assert Chain("docs", docs).branches["docs"] == docs;
  }

  /**
   A last write that does not win: with docs.1.content repeated in place of docs.1.other, the second
   value is in the output until a value for docs brings the first one back.
   */
  lemma {:induction false} StaleValueReturns(a: Any, b: Any, c: Any, d: Any)
    requires a != Nil && b != Nil && c != Nil && d != Nil
    ensures Unflattened([Pair(CONTENT, a), Pair(SIDE, b), Pair(CONTENT, c)]) ==
            map["docs" := Dict(map["x" := b, "1" := Dict(map["content" := c])])]
    ensures Unflattened([Pair(CONTENT, a), Pair(SIDE, b), Pair(CONTENT, c), Pair(DOCS, d)]) ==
            map["docs" := d, "docs.x" := b, "docs.1" := Dict(map["content" := a])]
  {
    hide Grown, Path, Digit, MatRoot, GoodSeg;
    Paths();
    WordsAreGood();
    SplitGrown(a, b, CONTENT, "content", c);
    SplitOutput(a, b, "content", c);
    DemotedGrown(a, b, CONTENT, "content", c, d);
    DemotedOutput(a, b, d);
  }
}
