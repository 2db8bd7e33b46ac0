/**
 The attribute trie as a value: two tracks of children, demotion on a terminal value, and what one
 added key does to every path already there.
 */
module Trie {
  import opened Prelude
  import opened Text
  import opened Keys

  /** A decoded attribute value; Nil is Go's untyped nil. */
  datatype Any = Nil | Text(s: string) | Whole(n: int) | Float(r: real) | Flag(b: bool)
               | List(items: seq<Any>) | Dict(entries: map<string, Any>)

  datatype Pair = Pair(key: string, value: Any)

  datatype Node = Node(value: Option<Any>, indices: map<nat, Node>, branches: map<string, Node>)

  const NEW := Node(None, map[], map[])

  // ----- setValue and step -----

  lemma {:induction false} ItoaInjective(i: nat, j: nat)
    requires Itoa(i) == Itoa(j)
    ensures i == j
  {
    DigitIsItoa(Itoa(i), i);
    DigitIsItoa(Itoa(j), j);
  }

  lemma {:induction false} NumeralNames(indices: map<nat, Node>, s: string)
    ensures (exists i :: i in indices && Itoa(i) == s) <==> Digit(s).Some? && Digit(s).value in indices
    ensures forall i | i in indices && Itoa(i) == s :: Digit(s) == Some(i)
  {
    forall i | i in indices && Itoa(i) == s
      ensures Digit(s) == Some(i)
    {
      DigitIsItoa(s, i);
    }
    if Digit(s).Some? {
      DigitIsItoa(s, Digit(s).value);
    }
  }

  /** The indices under their numerals: what demotion writes over the branches. */
  function AsBranches(indices: map<nat, Node>): (b: map<string, Node>)
    ensures forall s :: s in b <==> Digit(s).Some? && Digit(s).value in indices
    ensures forall s | s in b :: b[s] == indices[Digit(s).value]
  {
    hide Digit, Itoa;
    assert forall i: nat, j: nat :: Itoa(i) == Itoa(j) ==> i == j by {
      forall i: nat, j: nat | Itoa(i) == Itoa(j)
        ensures i == j
      {
        ItoaInjective(i, j);
      }
    }
    var b := map i | i in indices :: Itoa(i) := indices[i];
    assert forall s :: s in b <==> Digit(s).Some? && Digit(s).value in indices by {
      forall s: string
        ensures s in b <==> Digit(s).Some? && Digit(s).value in indices
      {
        NumeralNames(indices, s);
      }
    }
    assert forall s | s in b :: b[s] == indices[Digit(s).value] by {
      forall s | s in b
        ensures b[s] == indices[Digit(s).value]
      {
        NumeralNames(indices, s);
      }
    }
    b
  }

  function SetValue(n: Node, v: Any): Node {
    Node(Some(v), map[], n.branches + AsBranches(n.indices))
  }

  /** The child a step goes to, a new node where there is none. */
  function Stepped(n: Node, seg: string, last: bool): Node {
    if seg in n.branches then n.branches[seg]
    else if OnIndex(n, seg, last) && Digit(seg).value in n.indices then n.indices[Digit(seg).value]
    else NEW
  }

  /** Whether a step uses the index track. */
  predicate OnIndex(n: Node, seg: string, last: bool) {
    Digit(seg).Some? && !last && n.branches == map[]
  }

  /** The node with the stepped-to child in place of the old one; a terminal digit drops the index of that number. */
  function WithChild(n: Node, seg: string, last: bool, c: Node): Node {
    if OnIndex(n, seg, last) then n.(indices := n.indices[Digit(seg).value := c])
    else if Digit(seg).Some? && last
      then n.(indices := n.indices - {Digit(seg).value}, branches := n.branches[seg := c])
    else n.(branches := n.branches[seg := c])
  }

  /** add, once the key is a path: step along it and set the value at its end. */
  function Add(n: Node, path: seq<string>, v: Any): Node
    decreases |path|
  {
    if path == [] then SetValue(n, v)
    else WithChild(n, path[0], |path| == 1, Add(Stepped(n, path[0], |path| == 1), path[1..], v))
  }

  /** A pair is skipped if its value is nil or its key has no segments. */
  function AddPair(root: Node, p: Pair): Node {
    if p.value == Nil || Path(p.key) == [] then root else Add(root, Path(p.key), p.value)
  }

  function Grown(pairs: seq<Pair>): Node {
    if pairs == [] then NEW else AddPair(Grown(pairs[..|pairs| - 1]), pairs[|pairs| - 1])
  }

  // ----- lookup -----

  function ChildOf(n: Node, seg: string): Option<Node> {
    if seg in n.branches then Some(n.branches[seg])
    else if Digit(seg).Some? && Digit(seg).value in n.indices then Some(n.indices[Digit(seg).value])
    else None
  }

  /** The value a path holds in the trie. */
  function Lookup(n: Node, path: seq<string>): Option<Any>
    decreases |path|
  {
    if path == [] then n.value
    else match ChildOf(n, path[0])
      case None => None
      case Some(c) => Lookup(c, path[1..])
  }

  // ----- the representation invariant -----

  predicate Inhabited(n: Node) {
    n.value.Some? || n.indices != map[] || n.branches != map[]
  }

  /** Index children carry no value, and every child is valued or has children. */
  predicate Shaped(n: Node) {
    && (forall i | i in n.indices :: n.indices[i].value.None? && Inhabited(n.indices[i]) && Shaped(n.indices[i]))
    && (forall s | s in n.branches :: GoodSeg(s) && Inhabited(n.branches[s]) && Shaped(n.branches[s]))
  }

  /** No number is both an index and a branch. */
  predicate Disjoint(n: Node) {
    && (forall i | i in n.indices :: Itoa(i) !in n.branches && Disjoint(n.indices[i]))
    && (forall s | s in n.branches :: Disjoint(n.branches[s]))
  }

  lemma {:induction false} AddInhabits(n: Node, path: seq<string>, v: Any)
    ensures Inhabited(Add(n, path, v))
    ensures path != [] ==> Add(n, path, v).value == n.value
  {
    hide Digit;
    if path != [] {
      var c := Add(Stepped(n, path[0], |path| == 1), path[1..], v);
      var t := WithChild(n, path[0], |path| == 1, c);
      if OnIndex(n, path[0], |path| == 1) {
        assert Digit(path[0]).value in t.indices;
      } else {
        assert path[0] in t.branches;
      }
    }
  }

  lemma {:induction false} SetValueKeepsShape(n: Node, v: Any)
    requires Shaped(n)
    ensures Shaped(SetValue(n, v))
  {
    hide GoodSeg, Digit, Inhabited;
    var b := AsBranches(n.indices);
    forall s | s in b
      ensures GoodSeg(s) && Inhabited(b[s]) && Shaped(b[s])
    {
      var i := Digit(s).value;
      assert b[s] == n.indices[i];
      DigitIsItoa(s, i);
      NumeralIsGood(i);
    }
  }

  lemma {:induction false} WithChildKeepsShape(n: Node, seg: string, last: bool, c: Node)
    requires Shaped(n) && GoodSeg(seg) && Shaped(c) && Inhabited(c)
    requires OnIndex(n, seg, last) ==> c.value.None?
    ensures Shaped(WithChild(n, seg, last, c))
  {
    hide GoodSeg, Digit, Inhabited;
  }

  lemma {:induction false} SteppedIsShaped(n: Node, seg: string, last: bool)
    requires Shaped(n)
    ensures Shaped(Stepped(n, seg, last))
    ensures OnIndex(n, seg, last) ==> Stepped(n, seg, last).value.None?
  {
    hide GoodSeg, Digit, Inhabited;
    assert Shaped(NEW);
  }

  /** Shape is kept by every add, whatever the order of keys. */
  lemma {:induction false} AddKeepsShape(n: Node, path: seq<string>, v: Any)
    requires Shaped(n) && GoodPath(path)
    ensures Shaped(Add(n, path, v))
    decreases |path|
  {
    hide GoodSeg, Shaped, SetValue, Stepped, WithChild, Inhabited;
    if path == [] {
      SetValueKeepsShape(n, v);
    } else {
      var seg, last := path[0], |path| == 1;
      var c := Stepped(n, seg, last);
      SteppedIsShaped(n, seg, last);
      AddKeepsShape(c, path[1..], v);
      AddInhabits(c, path[1..], v);
      WithChildKeepsShape(n, seg, last, Add(c, path[1..], v));
    }
  }

  lemma {:induction false} NumeralIsGood(i: nat)
    ensures GoodSeg(Itoa(i))
  {
    hide Value, Itoa, Trim;
    DigitsHaveNoSpace(Itoa(i));
    ValueOfItoa(i);
  }

  lemma {:induction false} GrownIsShaped(pairs: seq<Pair>)
    ensures Shaped(Grown(pairs)) && Grown(pairs).value.None?
    decreases |pairs|
  {
    hide Add, Path;
    if pairs != [] {
      var p := pairs[|pairs| - 1];
      GrownIsShaped(pairs[..|pairs| - 1]);
      PathIsGood(p.key);
      if p.value != Nil && Path(p.key) != [] {
        AddKeepsShape(Grown(pairs[..|pairs| - 1]), Path(p.key), p.value);
        AddInhabits(Grown(pairs[..|pairs| - 1]), Path(p.key), p.value);
      }
    }
  }

  /**
   The guard of the one branch that breaks disjointness: a non-final numeral, not yet a branch,
   arrives at a node that has some branch, while it already is an index there.
   */
  predicate SplitsHere(n: Node, seg: string, last: bool) {
    Digit(seg).Some? && !last && seg !in n.branches && n.branches != map[] && Digit(seg).value in n.indices
  }

  predicate Splits(n: Node, path: seq<string>)
    decreases |path|
  {
    path != [] &&
    (SplitsHere(n, path[0], |path| == 1) || Splits(Stepped(n, path[0], |path| == 1), path[1..]))
  }

  lemma {:induction false} SetValueKeepsDisjoint(n: Node, v: Any)
    requires Disjoint(n)
    ensures Disjoint(SetValue(n, v))
  {
    hide Digit;
    var b := AsBranches(n.indices);
    forall s | s in b
      ensures Disjoint(b[s])
    {
      assert b[s] == n.indices[Digit(s).value];
    }
  }

  lemma {:induction false} WithChildDisjointIff(n: Node, seg: string, last: bool, c: Node)
    requires Disjoint(n)
    ensures Disjoint(WithChild(n, seg, last, c)) <==> Disjoint(c) && !SplitsHere(n, seg, last)
  {
    hide Digit, Itoa;
    forall i: nat
      ensures Digit(seg) == Some(i) <==> seg == Itoa(i)
      ensures Digit(Itoa(i)) == Some(i)
    {
      DigitIsItoa(seg, i);
    }
    var t := WithChild(n, seg, last, c);
    if OnIndex(n, seg, last) {
      var d := Digit(seg).value;
      assert t.indices[d] == c;
      forall i | i in t.indices && i != d
        ensures Disjoint(t.indices[i])
      {
        assert t.indices[i] == n.indices[i];
      }
    } else {
      assert t.branches[seg] == c;
      if SplitsHere(n, seg, last) {
        assert Digit(seg).value in t.indices;
      }
    }
  }

  lemma {:induction false} SteppedIsDisjoint(n: Node, seg: string, last: bool)
    requires Disjoint(n)
    ensures Disjoint(Stepped(n, seg, last))
  {
    hide Digit, Itoa;
    assert Disjoint(NEW);
  }

  /** An add keeps the tracks disjoint exactly when it does not pass that guard. */
  lemma {:induction false} AddKeepsDisjointIff(n: Node, path: seq<string>, v: Any)
    requires Disjoint(n)
    ensures Disjoint(Add(n, path, v)) <==> !Splits(n, path)
    decreases |path|
  {
    hide Disjoint, SetValue, Stepped, WithChild, SplitsHere;
    if path == [] {
      SetValueKeepsDisjoint(n, v);
    } else {
      var seg, last := path[0], |path| == 1;
      var c := Stepped(n, seg, last);
      SteppedIsDisjoint(n, seg, last);
      AddKeepsDisjointIff(c, path[1..], v);
      WithChildDisjointIff(n, seg, last, Add(c, path[1..], v));
    }
  }

  // ----- what an add does to the paths already there -----

  /**
   Adding `path` takes `other` away: both meet in a numeral held as an index, and the added key
   either ends there, which deletes the index, or splits there, which hides it.
   */
  predicate Disturbs(n: Node, path: seq<string>, other: seq<string>)
    decreases |path|
  {
    path != [] && other != [] && path[0] == other[0] &&
    var seg, last := path[0], |path| == 1;
    if seg !in n.branches && Digit(seg).Some? && Digit(seg).value in n.indices && !OnIndex(n, seg, last) then true
    else Disturbs(Stepped(n, seg, last), path[1..], other[1..])
  }

  lemma {:induction false} SetValueChild(n: Node, v: Any, seg: string)
    requires Disjoint(n)
    ensures ChildOf(SetValue(n, v), seg) == ChildOf(n, seg)
  {
    hide Digit, Disjoint, Itoa;
    if Digit(seg).Some? && Digit(seg).value in n.indices {
      DigitIsItoa(seg, Digit(seg).value);
      DisjointHere(n, Digit(seg).value);
    }
  }

  lemma {:induction false} SetValueLookup(n: Node, v: Any, other: seq<string>)
    requires Disjoint(n) && other != []
    ensures Lookup(SetValue(n, v), other) == Lookup(n, other)
  {
    hide ChildOf, SetValue;
    SetValueChild(n, v, other[0]);
  }

  lemma {:induction false} DisjointHere(n: Node, i: nat)
    requires Disjoint(n) && i in n.indices
    ensures Itoa(i) !in n.branches
  {}

  lemma {:induction false} WithChildLookup(n: Node, seg: string, last: bool, c: Node, s: string)
    requires Disjoint(n)
    ensures ChildOf(WithChild(n, seg, last, c), s) == if s == seg then Some(c) else ChildOf(n, s)
  {
    hide Digit, Disjoint, Itoa;
    if Digit(s).Some? {
      DigitIsItoa(s, Digit(s).value);
      DigitIsItoa(seg, Digit(s).value);
    }
  }

  lemma {:induction false} NewHoldsNothing(path: seq<string>, other: seq<string>)
    ensures Lookup(NEW, other) == None && !Disturbs(NEW, path, other)
    decreases |path|
  {
    hide Digit;
    if path != [] && other != [] {
      NewHoldsNothing(path[1..], other[1..]);
    }
  }

  /** The child an add steps to is the one lookups see, unless it is disturbed. */
  lemma {:induction false} SteppedIsChild(n: Node, seg: string, last: bool)
    ensures var disturbed := seg !in n.branches && Digit(seg).Some? && Digit(seg).value in n.indices &&
            !OnIndex(n, seg, last);
            Stepped(n, seg, last) == if disturbed || ChildOf(n, seg) == None then NEW else ChildOf(n, seg).value
  {}

  /**
   The exact effect of one add on the whole trie, while its tracks are disjoint: the added path
   holds the new value, disturbed paths hold nothing, every other path holds what it held.
   */
  lemma {:induction false} AddLookup(n: Node, path: seq<string>, v: Any, other: seq<string>)
    requires Disjoint(n)
    ensures Lookup(Add(n, path, v), other) ==
            if other == path then Some(v) else if Disturbs(n, path, other) then None else Lookup(n, other)
    decreases |path|
  {
    hide Disjoint, SetValue, Stepped, WithChild, ChildOf, OnIndex, Digit;
    if path == [] {
      if other != [] { SetValueLookup(n, v, other); } else { SetValueHere(n, v); }
    } else {
      var seg, last := path[0], |path| == 1;
      var c := Stepped(n, seg, last);
      SteppedIsDisjoint(n, seg, last);
      if other == [] {
        AddInhabits(n, path, v);
      } else {
        WithChildLookup(n, seg, last, Add(c, path[1..], v), other[0]);
        if other[0] == seg {
          AddLookup(c, path[1..], v, other[1..]);
          SteppedIsChild(n, seg, last);
          NewHoldsNothing(path[1..], other[1..]);
          assert other == path <==> other[1..] == path[1..] by {
            assert other == [seg] + other[1..] && path == [seg] + path[1..];
          }
        }
      }
    }
  }

  lemma {:induction false} SetValueHere(n: Node, v: Any)
    ensures SetValue(n, v).value == Some(v)
  {}
}
