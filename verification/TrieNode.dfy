/**
 The trie as the Go code keeps it: nodes on the heap, changed in place. Every method is proved to do
 to the node graph what module Trie says of the value it stands for.
 */
module TrieNode {
  import opened Prelude
  import opened Text
  import opened Keys
  import opened Trie

  class TrieNode {
    var value: Option<Any>
    var indices: map<nat, TrieNode>
    var branches: map<string, TrieNode>
    /** The value this node and everything below it stands for. */
    ghost var model: Node
    /** This node and everything below it. */
    ghost var repr: set<object>
    /** The children, also those that have been dropped. */
    ghost var kids: set<TrieNode>

    /** Children have valid subgraphs of their own, which do not meet. */
    ghost predicate Separate()
      reads this`repr, this`kids, repr - {this}
      decreases repr, 0
    {
      && this in repr && kids <= repr
      && (forall k | k in kids :: k.repr <= repr && this !in k.repr && k.Valid())
      && (forall k, l | k in kids && l in kids && k != l :: k.repr !! l.repr)
    }

    /** Each child is reached by one key. */
    ghost predicate Injective()
      reads this
    {
      && this !in kids
      && (forall i | i in indices :: indices[i] in kids)
      && (forall s | s in branches :: branches[s] in kids)
      && (forall i, j | i in indices && j in indices && indices[i] == indices[j] :: i == j)
      && (forall s, t | s in branches && t in branches && branches[s] == branches[t] :: s == t)
      && (forall i, s | i in indices && s in branches :: indices[i] != branches[s])
    }

    ghost predicate Models()
      reads this, kids
      requires Injective()
    {
      && model.value == value
      && model.indices.Keys == indices.Keys && (forall i | i in indices :: model.indices[i] == indices[i].model)
      && model.branches.Keys == branches.Keys && (forall s | s in branches :: model.branches[s] == branches[s].model)
    }

    ghost predicate Valid()
      reads this, repr
      decreases repr, 1
      ensures Valid() ==> this in repr
    {
      Separate() && Injective() && Models()
    }

    constructor ()
      ensures Valid() && fresh(repr) && model == NEW && repr == {this}
    {
      value, indices, branches := None, map[], map[];
      model, repr, kids := NEW, {this}, {};
    }

    /** A new child of its own, not yet under any key. */
    method Adopt() returns (c: TrieNode)
      requires Valid()
      modifies this`repr, this`kids
      ensures Valid() && fresh(repr - old(repr)) && fresh(c) && c in kids && c.Valid() && c.model == NEW
      ensures kids == old(kids) + {c}
    {
      c := new TrieNode();
      repr := repr + {c};
      kids := kids + {c};
    }

    method PutIndex(i: nat, c: TrieNode)
      requires Valid() && i !in indices && c in kids && c.model == NEW
      requires (forall j | j in indices :: indices[j] != c) && (forall s | s in branches :: branches[s] != c)
      modifies this`indices, this`model
      ensures Valid() && indices == old(indices)[i := c]
      ensures model == old(model).(indices := old(model).indices[i := NEW])
    {
      hide Separate;
      indices := indices[i := c];
      model := model.(indices := model.indices[i := NEW]);
      assert Injective();
      assert Models();
    }

    method PutBranch(seg: string, c: TrieNode)
      requires Valid() && seg !in branches && c in kids && c.model == NEW
      requires (forall j | j in indices :: indices[j] != c) && (forall s | s in branches :: branches[s] != c)
      modifies this`branches, this`model
      ensures Valid() && branches == old(branches)[seg := c]
      ensures model == old(model).(branches := old(model).branches[seg := NEW])
    {
      hide Separate;
      branches := branches[seg := c];
      model := model.(branches := model.branches[seg := NEW]);
      assert Injective();
      assert Models();
    }

    method NewIndex(i: nat) returns (c: TrieNode)
      requires Valid() && i !in indices
      modifies this
      ensures Valid() && fresh(repr - old(repr)) && fresh(c) && c.Valid() && c.model == NEW
      ensures indices == old(indices)[i := c] && branches == old(branches)
      ensures model == old(model).(indices := old(model).indices[i := NEW])
    {
      hide Valid;
      c := Adopt();
      PutIndex(i, c);
      IndexKid(i);
    }

    method NewBranch(seg: string) returns (c: TrieNode)
      requires Valid() && seg !in branches
      modifies this
      ensures Valid() && fresh(repr - old(repr)) && fresh(c) && c.Valid() && c.model == NEW
      ensures indices == old(indices) && branches == old(branches)[seg := c]
      ensures model == old(model).(branches := old(model).branches[seg := NEW])
    {
      hide Valid;
      c := Adopt();
      PutBranch(seg, c);
      BranchKid(seg);
    }

    method DropIndex(i: nat)
      requires Valid()
      modifies this
      ensures Valid() && repr == old(repr)
      ensures indices == old(indices) - {i} && branches == old(branches)
      ensures model == old(model).(indices := old(model).indices - {i})
    {
      hide Separate;
      indices := indices - {i};
      model := model.(indices := model.indices - {i});
    }

    /** A child stands for the model's child. */
    lemma {:induction false} IndexKid(i: nat)
      requires Valid() && i in indices
      ensures indices[i] in kids && indices[i].Valid() && i in model.indices && indices[i].model == model.indices[i]
    {}

    lemma {:induction false} BranchKid(s: string)
      requires Valid() && s in branches
      ensures branches[s] in kids && branches[s].Valid() && s in model.branches &&
              branches[s].model == model.branches[s]
    {}

    lemma {:induction false} SameKeys()
      requires Valid()
      ensures model.indices.Keys == indices.Keys && model.branches.Keys == branches.Keys && model.value == value
      ensures model.branches == map[] <==> branches == map[]
    {}

    /** The child a step goes to, created where it is missing; a terminal digit drops the index of that number. */
    method Step(seg: string, last: bool) returns (c: TrieNode)
      requires Valid()
      modifies this
      ensures Valid() && fresh(repr - old(repr)) && c in kids && c.Valid()
      ensures c.model == Stepped(old(model), seg, last)
      ensures model == WithChild(old(model), seg, last, c.model)
      ensures if OnIndex(old(model), seg, last)
              then Digit(seg).Some? && Digit(seg).value in indices && indices[Digit(seg).value] == c
              else seg in branches && branches[seg] == c
    {
      hide Digit, Itoa, Valid;
      var idx := ParseDigit(seg);
      SameKeys();
      if idx.Some? && !last && branches == map[] {
        if idx.value in indices {
          c := indices[idx.value];
        } else {
          c := NewIndex(idx.value);
        }
        IndexKid(idx.value);
        return;
      }
      if idx.Some? && last {
        DropIndex(idx.value);
        SameKeys();
      }
      if seg in branches {
        c := branches[seg];
      } else {
        c := NewBranch(seg);
      }
      BranchKid(seg);
    }

    /** What demotion makes of the branches, once the indices in done have been moved over. */
    ghost predicate Moved(b: map<string, TrieNode>, done: set<nat>)
      reads this
    {
      && (forall s :: s in b <==> s in branches || (Digit(s).Some? && Digit(s).value in done))
      && (forall s | s in b :: if Digit(s).Some? && Digit(s).value in done
                                then Digit(s).value in indices && b[s] == indices[Digit(s).value]
                                else s in branches && b[s] == branches[s])
    }

    lemma {:induction false} MovedOne(b: map<string, TrieNode>, done: set<nat>, i: nat)
      requires Moved(b, done) && i in indices && i !in done
      ensures Moved(b[Itoa(i) := indices[i]], done + {i})
    {
      hide Digit, Itoa;
      forall s: string
        ensures Digit(s) == Some(i) <==> s == Itoa(i)
      {
        DigitIsItoa(s, i);
      }
    }

    /** The branches a demotion leaves, the indices taken in any order. */
    method MoveIndices() returns (b: map<string, TrieNode>)
      ensures Moved(b, indices.Keys)
    {
      hide Digit, Itoa;
      b := branches;
      var todo := indices.Keys;
      while todo != {}
        invariant todo <= indices.Keys && Moved(b, indices.Keys - todo)
        decreases |todo|
      {
        var k :| k in todo;
        MovedOne(b, indices.Keys - todo, k);
        b := b[Itoa(k) := indices[k]];
        todo := todo - {k};
        assert indices.Keys - todo == (indices.Keys - todo - {k}) + {k};
      }
      assert indices.Keys - todo == indices.Keys;
    }

    /** setValue: the indices become branches under their numerals, and the node gets its value. */
    method SetValue(v: Any)
      requires Valid()
      modifies this
      ensures Valid() && repr == old(repr) && model == Trie.SetValue(old(model), v)
    {
      hide Valid, Moved, Trie.SetValue;
      var b := MoveIndices();
      Demote(b, v);
    }

    lemma {:induction false} MovedInjective(b: map<string, TrieNode>)
      requires Injective() && Moved(b, indices.Keys)
      ensures forall s | s in b :: b[s] in kids
      ensures forall s, t | s in b && t in b && b[s] == b[t] :: s == t
    {
      hide Digit;
      forall s, t | s in b && t in b && b[s] == b[t]
        ensures s == t
      {
        if Digit(s).Some? && Digit(t).Some? {
          DigitIsItoa(s, Digit(s).value);
          DigitIsItoa(t, Digit(t).value);
        }
      }
    }

    lemma {:induction false} MovedModels(b: map<string, TrieNode>, v: Any)
      requires Injective() && Models() && Moved(b, indices.Keys)
      ensures Trie.SetValue(model, v).branches.Keys == b.Keys
      ensures forall s | s in b :: Trie.SetValue(model, v).branches[s] == b[s].model
    {
      hide Digit;
    }

    static lemma {:induction false} SetValueParts(n: Node, v: Any)
      ensures Trie.SetValue(n, v).indices == map[] && Trie.SetValue(n, v).value == Some(v)
    {}

    method Demote(b: map<string, TrieNode>, v: Any)
      requires Valid() && Moved(b, indices.Keys)
      modifies this`branches, this`indices, this`value, this`model
      ensures Valid() && model == Trie.SetValue(old(model), v)
    {
      hide Separate, Moved, Trie.SetValue;
      MovedInjective(b);
      MovedModels(b, v);
      ghost var m := Trie.SetValue(model, v);
      SetValueParts(model, v);
      branches := b;
      indices := map[];
      value := Some(v);
      model := m;
    }

    // ----- add -----

    /** As Separate, while the subgraph of c has grown beyond what repr knows. */
    ghost predicate SeparateBut(c: TrieNode)
      reads this, kids, set k, o | k in kids && o in k.repr :: o
    {
      && this in repr && kids <= repr && c in kids
      && (forall k | k in kids :: this !in k.repr && k.Valid() && (k != c ==> k.repr <= repr))
      && (forall k, l | k in kids && l in kids && k != l :: k.repr !! l.repr)
    }

    /** As Models, except that c may have changed. */
    ghost predicate ModelsBut(c: TrieNode)
      reads this, kids
      requires Injective()
    {
      && model.value == value
      && model.indices.Keys == indices.Keys
      && (forall i | i in indices && indices[i] != c :: model.indices[i] == indices[i].model)
      && model.branches.Keys == branches.Keys
      && (forall s | s in branches && branches[s] != c :: model.branches[s] == branches[s].model)
    }

    /** Taking in a child whose subgraph has changed. */
    ghost method Absorb(c: TrieNode, m: Node)
      requires SeparateBut(c) && Injective()
      requires m.value == value && m.indices.Keys == indices.Keys && m.branches.Keys == branches.Keys
      requires forall i | i in indices :: m.indices[i] == indices[i].model
      requires forall s | s in branches :: m.branches[s] == branches[s].model
      modifies this`repr, this`model
      ensures Valid() && repr == old(repr) + c.repr && model == m
    {
      hide Separate, SeparateBut;
      AbsorbRepr(c);
      TakeModel(m);
    }

    ghost method TakeModel(m: Node)
      requires Separate() && Injective()
      requires m.value == value && m.indices.Keys == indices.Keys && m.branches.Keys == branches.Keys
      requires forall i | i in indices :: m.indices[i] == indices[i].model
      requires forall s | s in branches :: m.branches[s] == branches[s].model
      modifies this`model
      ensures Valid() && model == m
    {
      hide Separate;
      model := m;
      assert Injective();
      assert Models();
    }

    ghost method AbsorbRepr(c: TrieNode)
      requires SeparateBut(c)
      modifies this`repr
      ensures Separate() && repr == old(repr) + c.repr
    {
      hide Valid, Injective, Models;
      label Before:
      repr := repr + c.repr;
      assert forall k | k in kids :: unchanged@Before(k) && k.Valid();
    }

    /** Adding below one child changes that child's subgraph only. */
    method AddBelow(c: TrieNode, segs: seq<string>, v: Any)
      requires Valid() && c in kids && c.Valid() && c.repr <= repr
      modifies c.repr
      ensures SeparateBut(c) && Injective() && ModelsBut(c)
      ensures unchanged(this) && fresh(c.repr - old(c.repr))
      ensures c.model == Add(old(c.model), segs, v)
      decreases |segs|, 1
    {
      assert this !in c.repr;
      assert forall k | k in kids && k != c :: k.repr !! c.repr;
      label Before:
      c.AddFrom(segs, v);
      hide Injective, Models;
      assert forall k | k in kids && k != c :: unchanged@Before(k) && k.Valid();
    }

    lemma {:induction false} KidInside(c: TrieNode)
      requires Valid() && c in kids
      ensures c.Valid() && c.repr <= repr && this !in c.repr
    {}

    /** With c's model replaced, the model fits the changed child again. */
    lemma {:induction false} FitsAgain(n: Node, seg: string, last: bool, before: Node, c: TrieNode)
      requires Injective() && ModelsBut(c) && model == WithChild(n, seg, last, before)
      requires if OnIndex(n, seg, last)
               then Digit(seg).Some? && Digit(seg).value in indices && indices[Digit(seg).value] == c
               else seg in branches && branches[seg] == c
      ensures var m := WithChild(n, seg, last, c.model);
              && m.value == value && m.indices.Keys == indices.Keys && m.branches.Keys == branches.Keys
              && (forall i | i in indices :: m.indices[i] == indices[i].model)
              && (forall s | s in branches :: m.branches[s] == branches[s].model)
    {
      hide Digit;
    }

    /** add: step along the segments and set the value at the end. */
    method AddFrom(segs: seq<string>, v: Any)
      requires Valid()
      modifies repr
      ensures Valid() && fresh(repr - old(repr)) && model == Add(old(model), segs, v)
      decreases |segs|, 0
    {
      hide Valid, Injective, ModelsBut, SeparateBut, WithChild, Stepped, Digit, Trie.SetValue;
      if segs == [] {
        SetValue(v);
        return;
      }
      var c := Step(segs[0], |segs| == 1);
      ghost var before := c.model;
      KidInside(c);
      AddBelow(c, segs[1..], v);
      FitsAgain(old(model), segs[0], |segs| == 1, before, c);
      Absorb(c, WithChild(old(model), segs[0], |segs| == 1, c.model));
    }
  }
}
