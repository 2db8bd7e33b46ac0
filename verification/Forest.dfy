/**
 The parent links of persisted spans, as a forest over span ids.

 A span's parent is only a name: the parent may arrive later, may live in another trace, or may
 never arrive. A link counts once both ends are persisted in the same trace. All definitions here
 speak of a map from span id to node, so they cannot depend on the order of arrival.
 */
module Forest {
  import opened Prelude

  /** The three cumulative columns of a span row. */
  datatype Counts = Counts(errors: int, prompt: int, completion: int) {
    function Plus(other: Counts): Counts {
      Counts(errors + other.errors, prompt + other.prompt, completion + other.completion)
    }
  }

  const ZERO := Counts(0, 0, 0)

  datatype Node = Node(trace: string, parent: Option<string>, self: Counts)

  type Forest = map<string, Node>

  // ----- climbing parent links -----

  function ParentOf(f: Forest, id: string): (p: Option<string>)
    requires id in f
    ensures p.Some? ==> p.value in f && f[p.value].trace == f[id].trace
  {
    match f[id].parent
    case None => None
    case Some(p) => if p in f && f[p].trace == f[id].trace then Some(p) else None
  }

  /** The span k links above id, if the chain is that long. */
  ghost function Climb(f: Forest, id: string, k: nat): (p: Option<string>)
    requires id in f
    ensures p.Some? ==> p.value in f && f[p.value].trace == f[id].trace
    decreases k
  {
    if k == 0 then Some(id)
    else match ParentOf(f, id)
      case None => None
      case Some(p) => Climb(f, p, k - 1)
  }

  /** id is from, or a proper descendant of it reaching it through persisted links. */
  ghost predicate Reaches(f: Forest, id: string, to: string)
    requires id in f
  {
    exists k: nat :: Climb(f, id, k) == Some(to)
  }

  ghost predicate OnCycle(f: Forest, id: string)
    requires id in f
  {
    exists k: nat :: k > 0 && Climb(f, id, k) == Some(id)
  }

  ghost predicate Acyclic(f: Forest) {
    forall id | id in f :: !OnCycle(f, id)
  }

  ghost predicate ChainEnds(f: Forest, id: string)
    requires id in f
  {
    exists k: nat :: Climb(f, id, k) == None
  }

  lemma {:induction false} ClimbAdd(f: Forest, id: string, j: nat, k: nat)
    requires id in f
    ensures Climb(f, id, j + k) == match Climb(f, id, j) case None => None case Some(p) => Climb(f, p, k)
    decreases j
  {
    if j != 0 && ParentOf(f, id).Some? {
      ClimbAdd(f, ParentOf(f, id).value, j - 1, k);
    }
  }

  lemma {:induction false} ReachesTrans(f: Forest, a: string, b: string, c: string)
    requires a in f && b in f && Reaches(f, a, b) && Reaches(f, b, c)
    ensures Reaches(f, a, c)
  {
    var j: nat :| Climb(f, a, j) == Some(b);
    var k: nat :| Climb(f, b, k) == Some(c);
    ClimbAdd(f, a, j, k);
  }

  /** Two spans on one chain: the lower one reaches the upper one. */
  lemma {:induction false} ChainIsLinear(f: Forest, id: string, a: string, b: string)
    requires id in f && a in f && b in f && Reaches(f, id, a) && Reaches(f, id, b)
    ensures Reaches(f, a, b) || Reaches(f, b, a)
  {
    var j: nat :| Climb(f, id, j) == Some(a);
    var k: nat :| Climb(f, id, k) == Some(b);
    if j <= k {
      ClimbAdd(f, id, j, k - j);
    } else {
      ClimbAdd(f, id, k, j - k);
    }
  }

  /** Without cycles, two distinct spans cannot reach each other. */
  lemma {:induction false} NoMutualReach(f: Forest, a: string, b: string)
    requires a in f && b in f && a != b && Reaches(f, a, b) && Reaches(f, b, a)
    ensures OnCycle(f, a)
  {
    var j: nat :| Climb(f, a, j) == Some(b);
    var k: nat :| Climb(f, b, k) == Some(a);
    ClimbAdd(f, a, j, k);
    assert Climb(f, a, j + k) == Some(a);
  }

  lemma {:induction false} StepReaches(f: Forest, id: string, to: string)
    requires id in f
    ensures Reaches(f, id, to) <==> id == to || (ParentOf(f, id).Some? && Reaches(f, ParentOf(f, id).value, to))
  {
    if Reaches(f, id, to) {
      var k: nat :| Climb(f, id, k) == Some(to);
      if k > 0 {
        assert Climb(f, ParentOf(f, id).value, k - 1) == Some(to);
      }
    }
    if id == to {
      assert Climb(f, id, 0) == Some(to);
    }
    if ParentOf(f, id).Some? && Reaches(f, ParentOf(f, id).value, to) {
      var k: nat :| Climb(f, ParentOf(f, id).value, k) == Some(to);
      assert Climb(f, id, k + 1) == Some(to);
    }
  }

  // ----- when a chain ends -----

  lemma {:induction false} CycleTurns(f: Forest, id: string, k: nat, turns: nat)
    requires id in f && Climb(f, id, k) == Some(id)
    ensures Climb(f, id, turns * k) == Some(id)
    decreases turns
  {
    if turns > 0 {
      CycleTurns(f, id, k, turns - 1);
      ClimbAdd(f, id, (turns - 1) * k, k);
      assert (turns - 1) * k + k == turns * k;
    }
  }

  /** The spans met in the first n steps of a chain. */
  ghost function Visited(f: Forest, id: string, n: nat): set<string>
    requires id in f
  {
    set x | x in f && exists k: nat :: k < n && Climb(f, id, k) == Some(x)
  }

  lemma {:induction false} VisitedGrows(f: Forest, id: string, n: nat)
    requires id in f
    requires forall x | x in f && Reaches(f, id, x) :: !OnCycle(f, x)
    requires forall k: nat | k < n :: Climb(f, id, k).Some?
    ensures |Visited(f, id, n)| == n
    decreases n
  {
    if n > 0 {
      VisitedGrows(f, id, n - 1);
      var top := Climb(f, id, n - 1).value;
      if top in Visited(f, id, n - 1) {
        var k: nat :| k < n - 1 && Climb(f, id, k) == Some(top);
        ClimbAdd(f, id, k, n - 1 - k);
        assert false;
      }
      assert Visited(f, id, n) == Visited(f, id, n - 1) + {top};
    }
  }

  lemma {:induction false} SubsetSize(a: set<string>, b: set<string>)
    requires a <= b
    ensures |a| <= |b|
  {
    assert b == a + (b - a);
  }

  /** A chain runs forever exactly when it runs into a cycle. */
  lemma {:induction false} EndsIffNoCycleAbove(f: Forest, id: string)
    requires id in f
    ensures ChainEnds(f, id) <==> forall x | x in f && Reaches(f, id, x) :: !OnCycle(f, x)
  {
    if ChainEnds(f, id) {
      var end: nat :| Climb(f, id, end) == None;
      forall x | x in f && Reaches(f, id, x)
        ensures !OnCycle(f, x)
      {
        if OnCycle(f, x) {
          var j: nat :| Climb(f, id, j) == Some(x);
          var k: nat :| k > 0 && Climb(f, x, k) == Some(x);
          CycleTurns(f, x, k, end);
          ClimbAdd(f, id, j, end * k);
          assert end * k >= end;
          ClimbAdd(f, id, end, j + end * k - end);
          assert false;
        }
      }
    }
    if forall x | x in f && Reaches(f, id, x) :: !OnCycle(f, x) {
      if !ChainEnds(f, id) {
        VisitedGrows(f, id, |f| + 1);
        SubsetSize(Visited(f, id, |f| + 1), f.Keys);
        assert false;
      }
    }
  }

  // ----- sums over sets of spans -----

  lemma {:induction false} PlusSwap(a: Counts, b: Counts, c: Counts)
    ensures a.Plus(b.Plus(c)) == b.Plus(a.Plus(c))
    ensures a.Plus(b).Plus(c) == a.Plus(b.Plus(c))
  {}

  ghost function SumOf(m: map<string, Counts>, s: set<string>): Counts
    requires s <= m.Keys
  {
    if s == {} then ZERO
    else
      var x :| x in s;
      m[x].Plus(SumOf(m, s - {x}))
  }

  lemma {:induction false} SumTakeOut(m: map<string, Counts>, s: set<string>, x: string)
    requires x in s && s <= m.Keys
    ensures SumOf(m, s) == m[x].Plus(SumOf(m, s - {x}))
    decreases |s|
  {
    var y :| y in s && SumOf(m, s) == m[y].Plus(SumOf(m, s - {y}));
    if y != x {
      SumTakeOut(m, s - {y}, x);
      SumTakeOut(m, s - {x}, y);
      assert s - {y} - {x} == s - {x} - {y};
      PlusSwap(m[x], m[y], SumOf(m, s - {x} - {y}));
    }
  }

  lemma {:induction false} SumUnion(m: map<string, Counts>, a: set<string>, b: set<string>)
    requires a <= m.Keys && b <= m.Keys && a !! b
    ensures SumOf(m, a + b) == SumOf(m, a).Plus(SumOf(m, b))
    decreases |a|
  {
    if a == {} {
      assert a + b == b;
    } else {
      var x :| x in a;
      SumTakeOut(m, a, x);
      SumTakeOut(m, a + b, x);
      SumUnion(m, a - {x}, b);
      assert a + b - {x} == (a - {x}) + b;
      PlusSwap(m[x], SumOf(m, a - {x}), SumOf(m, b));
    }
  }

  lemma {:induction false} SumAgrees(m: map<string, Counts>, n: map<string, Counts>, s: set<string>)
    requires s <= m.Keys && s <= n.Keys
    requires forall x | x in s :: m[x] == n[x]
    ensures SumOf(m, s) == SumOf(n, s)
    decreases |s|
  {
    if s != {} {
      var x :| x in s;
      SumTakeOut(m, s, x);
      SumTakeOut(n, s, x);
      SumAgrees(m, n, s - {x});
    }
  }

  // ----- subtrees -----

  ghost function Selfs(f: Forest): map<string, Counts> {
    map id | id in f :: f[id].self
  }

  /** A span and every persisted span of its trace that reaches it. */
  ghost function Subtree(f: Forest, id: string): set<string> {
    set x | x in f && Reaches(f, x, id)
  }

  /** What the cumulative columns of a span are meant to hold. */
  ghost function SubtreeSum(f: Forest, id: string): Counts {
    SumOf(Selfs(f), Subtree(f, id))
  }

  ghost function SubtreeSums(f: Forest): map<string, Counts> {
    map id | id in f :: SubtreeSum(f, id)
  }

  /** Spans with no persisted parent in their own trace. */
  ghost function Roots(f: Forest): set<string> {
    set id | id in f && ParentOf(f, id) == None
  }

  ghost function Union(f: Forest, tops: set<string>): set<string> {
    set x | x in f && exists t :: t in tops && Reaches(f, x, t)
  }

  lemma {:induction false} RootIsUnique(f: Forest, id: string, a: string, b: string)
    requires id in f && a in Roots(f) && b in Roots(f) && Reaches(f, id, a) && Reaches(f, id, b)
    ensures a == b
  {
    ChainIsLinear(f, id, a, b);
    StepReaches(f, a, b);
    StepReaches(f, b, a);
  }

  /** What lies below some roots is what lies below one of them and, apart from it, below the others. */
  lemma {:induction false} TakeRoot(f: Forest, tops: set<string>, t: string)
    requires tops <= Roots(f) && t in tops
    ensures Subtree(f, t) !! Union(f, tops - {t})
    ensures Union(f, tops) == Subtree(f, t) + Union(f, tops - {t})
  {
    hide Reaches;
    forall x | x in Subtree(f, t) && x in Union(f, tops - {t})
      ensures false
    {
      var u :| u in tops - {t} && Reaches(f, x, u);
      RootIsUnique(f, x, t, u);
    }
    forall x | x in f
      ensures x in Union(f, tops) <==> x in Subtree(f, t) || x in Union(f, tops - {t})
    {
      if x in Union(f, tops) {
        var u :| u in tops && Reaches(f, x, u);
        assert u == t || u in tops - {t};
      }
    }
  }

  /** Summing the subtree sums of some roots sums each span below them once. */
  lemma {:induction false} SumOfRootSums(f: Forest, tops: set<string>)
    requires tops <= Roots(f)
    ensures SumOf(SubtreeSums(f), tops) == SumOf(Selfs(f), Union(f, tops))
    decreases |tops|
  {
    hide Reaches, Subtree, Union, Selfs, Roots;
    if tops == {} {
      NothingBelow(f);
    } else {
      var t :| t in tops;
      RootsAreSpans(f);
      SumTakeOut(SubtreeSums(f), tops, t);
      SumOfRootSums(f, tops - {t});
      TakeRoot(f, tops, t);
      SubtreeIsPart(f, t);
      SumUnion(Selfs(f), Subtree(f, t), Union(f, tops - {t}));
    }
  }

  lemma {:induction false} NothingBelow(f: Forest)
    ensures Union(f, {}) == {}
  {}

  lemma {:induction false} RootsAreSpans(f: Forest)
    ensures Roots(f) <= f.Keys
  {}

  lemma {:induction false} SubtreeIsPart(f: Forest, t: string)
    ensures Selfs(f).Keys == f.Keys && Subtree(f, t) <= f.Keys
    ensures forall tops :: Union(f, tops) <= f.Keys
  {}

  /** A chain that ends, ends at a root. */
  lemma {:induction false} ChainEndsAtRoot(f: Forest, id: string, k: nat) returns (root: string)
    requires id in f && Climb(f, id, k) == None
    ensures root in Roots(f) && f[root].trace == f[id].trace && Reaches(f, id, root)
    decreases k
  {
    match ParentOf(f, id)
    case None =>
      root := id;
      assert Climb(f, id, 0) == Some(id);
    case Some(p) =>
      root := ChainEndsAtRoot(f, p, k - 1);
      StepReaches(f, id, root);
  }

  /** Read side against write side: over one trace, the roots' subtree sums add up to all self counts. */
  lemma {:induction false} RootSumsCoverTrace(f: Forest, trace: string)
    requires Acyclic(f)
    ensures var roots := set id | id in Roots(f) && f[id].trace == trace;
            var all := set id | id in f && f[id].trace == trace;
            SumOf(SubtreeSums(f), roots) == SumOf(Selfs(f), all)
  {
    var roots := set id | id in Roots(f) && f[id].trace == trace;
    var all := set id | id in f && f[id].trace == trace;
    SumOfRootSums(f, roots);
    forall id | id in all
      ensures id in Union(f, roots)
    {
      EndsIffNoCycleAbove(f, id);
      var k: nat :| Climb(f, id, k) == None;
      var root := ChainEndsAtRoot(f, id, k);
    }
    forall id | id in Union(f, roots)
      ensures id in all
    {
      var t :| t in roots && Reaches(f, id, t);
    }
    assert Union(f, roots) == all;
  }

  // ----- adding one span -----

  ghost predicate Extends(f: Forest, g: Forest, n: string) {
    n !in f && n in g && g == f[n := g[n]]
  }

  ghost function ChildrenOf(g: Forest, n: string): set<string> {
    set c | c in g && ParentOf(g, c) == Some(n)
  }

  lemma {:induction false} ClimbKept(f: Forest, g: Forest, id: string, k: nat)
    requires f.Keys <= g.Keys && (forall x | x in f :: f[x] == g[x])
    requires id in f && Climb(f, id, k).Some?
    ensures Climb(g, id, k) == Climb(f, id, k)
    decreases k
  {
    if k > 0 {
      ClimbKept(f, g, ParentOf(f, id).value, k - 1);
    }
  }

  lemma {:induction false} ReachesKept(f: Forest, g: Forest, id: string, to: string)
    requires f.Keys <= g.Keys && (forall x | x in f :: f[x] == g[x])
    requires id in f && Reaches(f, id, to)
    ensures Reaches(g, id, to)
  {
    var k: nat :| Climb(f, id, k) == Some(to);
    ClimbKept(f, g, id, k);
  }

  /** Part of an acyclic forest is acyclic. */
  lemma {:induction false} SubforestAcyclic(f: Forest, g: Forest)
    requires f.Keys <= g.Keys && (forall x | x in f :: f[x] == g[x]) && Acyclic(g)
    ensures Acyclic(f)
  {
    forall id | id in f
      ensures !OnCycle(f, id)
    {
      if OnCycle(f, id) {
        var k: nat :| k > 0 && Climb(f, id, k) == Some(id);
        ClimbKept(f, g, id, k);
        assert OnCycle(g, id);
      }
    }
  }

  ghost predicate PassesWithin(g: Forest, id: string, n: string, k: nat)
    requires id in g
  {
    exists j: nat :: j <= k && Climb(g, id, j) == Some(n)
  }

  /** A chain of the larger forest either stays in the old part or passes the new span. */
  lemma {:induction false} ClimbSplits(f: Forest, g: Forest, n: string, id: string, k: nat)
    requires Extends(f, g, n) && id in f && Climb(g, id, k).Some?
    ensures Climb(f, id, k) == Climb(g, id, k) || PassesWithin(g, id, n, k)
    decreases k
  {
    if k > 0 {
      var p := ParentOf(g, id).value;
      if p == n {
        var one: nat := 1;
        assert Climb(g, n, 0) == Some(n);
        assert Climb(g, id, one) == Some(n);
      } else {
        assert ParentOf(f, id) == Some(p);
        ClimbSplits(f, g, n, p, k - 1);
        if PassesWithin(g, p, n, k - 1) {
          var j: nat :| j <= k - 1 && Climb(g, p, j) == Some(n);
          var i: nat := j + 1;
          assert i <= k && Climb(g, id, i) == Some(n);
        }
      }
    }
  }

  /**
   Inserting a span keeps the forest acyclic exactly when its own chain ends: that is the walk the
   store performs, so every insert that returns keeps the forest acyclic.
   */
  lemma {:induction false} AcyclicIffNewChainEnds(f: Forest, g: Forest, n: string)
    requires Extends(f, g, n) && Acyclic(f)
    ensures Acyclic(g) <==> ChainEnds(g, n)
  {
    EndsIffNoCycleAbove(g, n);
    if ChainEnds(g, n) {
      forall id | id in g
        ensures !OnCycle(g, id)
      {
        if OnCycle(g, id) {
          if Reaches(g, id, n) {
            // the cycle passes through n, so n reaches it
            var j: nat :| Climb(g, id, j) == Some(n);
            var k: nat :| k > 0 && Climb(g, id, k) == Some(id);
            CycleTurns(g, id, k, j + 1);
            assert j <= (j + 1) * k;
            ClimbAdd(g, id, j, (j + 1) * k - j);
          } else {
            var k: nat :| k > 0 && Climb(g, id, k) == Some(id);
            assert id != n by { assert Climb(g, id, 0) == Some(id); }
            ClimbSplits(f, g, n, id, k);
            assert OnCycle(f, id);
          }
          assert false;
        }
      }
    }
  }

  lemma {:induction false} ReachesOldIff(f: Forest, g: Forest, n: string, id: string, to: string)
    requires Extends(f, g, n) && id in f && to in f
    ensures Reaches(g, id, to) <==> Reaches(f, id, to) || (Reaches(g, id, n) && Reaches(g, n, to))
  {
    if Reaches(g, id, to) && !Reaches(f, id, to) {
      var k: nat :| Climb(g, id, k) == Some(to);
      ClimbSplits(f, g, n, id, k);
      var j: nat :| j <= k && Climb(g, id, j) == Some(n);
      ClimbAdd(g, id, j, k - j);
    }
    if Reaches(f, id, to) {
      ReachesKept(f, g, id, to);
    }
    if Reaches(g, id, n) && Reaches(g, n, to) {
      ReachesTrans(g, id, n, to);
    }
  }

  /** Old spans below the new one hang under one of its children, which were roots until now. */
  lemma {:induction false} ReachesNewIff(f: Forest, g: Forest, n: string, id: string)
    requires Extends(f, g, n) && id in f
    ensures Reaches(g, id, n) <==> exists c :: c in ChildrenOf(g, n) - {n} && Reaches(f, id, c)
  {
    if Reaches(g, id, n) {
      var k: nat :| Climb(g, id, k) == Some(n);
      var c := LastBeforeNew(f, g, n, id, k);
    }
    if exists c :: c in ChildrenOf(g, n) - {n} && Reaches(f, id, c) {
      var c :| c in ChildrenOf(g, n) - {n} && Reaches(f, id, c);
      ReachesKept(f, g, id, c);
      assert Climb(g, n, 0) == Some(n);
      StepReaches(g, c, n);
      ReachesTrans(g, id, c, n);
    }
  }

  lemma {:induction false} LastBeforeNew(f: Forest, g: Forest, n: string, id: string, k: nat) returns (c: string)
    requires Extends(f, g, n) && id in f && Climb(g, id, k) == Some(n)
    ensures c in ChildrenOf(g, n) - {n} && Reaches(f, id, c)
    decreases k
  {
    var p := ParentOf(g, id).value;
    if p == n {
      c := id;
      assert Climb(f, id, 0) == Some(id);
    } else {
      c := LastBeforeNew(f, g, n, p, k - 1);
      StepReaches(f, id, c);
    }
  }

  lemma {:induction false} NewSubtree(f: Forest, g: Forest, n: string)
    requires Extends(f, g, n) && Acyclic(g)
    ensures n !in ChildrenOf(g, n) && ChildrenOf(g, n) <= Roots(f)
    ensures Subtree(g, n) == {n} + Union(f, ChildrenOf(g, n))
  {
    if n in ChildrenOf(g, n) {
      assert Climb(g, n, 1) == Some(n) by { assert Climb(g, n, 0) == Some(n); }
      assert OnCycle(g, n);
    }
    forall id | id in f
      ensures Reaches(g, id, n) <==> id in Union(f, ChildrenOf(g, n))
    {
      ReachesNewIff(f, g, n, id);
    }
    assert Climb(g, n, 0) == Some(n);
  }

  lemma {:induction false} OldSubtree(f: Forest, g: Forest, n: string, a: string)
    requires Extends(f, g, n) && Acyclic(g) && a in f
    ensures Subtree(g, a) == if Reaches(g, n, a) then Subtree(f, a) + Subtree(g, n) else Subtree(f, a)
    ensures Reaches(g, n, a) ==> Subtree(f, a) !! Subtree(g, n)
  {
    forall id | id in f
      ensures Reaches(g, id, a) <==> Reaches(f, id, a) || (Reaches(g, id, n) && Reaches(g, n, a))
    {
      ReachesOldIff(f, g, n, id, a);
    }
    assert Climb(g, n, 0) == Some(n);
    if Reaches(g, n, a) {
      forall id | id in Subtree(f, a) && id in Subtree(g, n)
        ensures false
      {
        // id reaches a without passing n, and reaches n: then a lies below n and above it
        var j: nat :| Climb(f, id, j) == Some(a);
        var k: nat :| Climb(g, id, k) == Some(n);
        ClimbKept(f, g, id, j);
        if k < j {
          ClimbAdd(f, id, k, j - k);
          ClimbKept(f, g, id, k);
        } else {
          ClimbAdd(g, id, j, k - j);
          NoMutualReach(g, n, a);
        }
      }
    }
  }

  /**
   The arithmetic of one insert. The new span's subtree sum is its own counts plus its children's
   sums; every span it reaches gains exactly that amount; no other span changes.
   */
  lemma {:induction false} InsertedSums(f: Forest, g: Forest, n: string)
    requires Extends(f, g, n) && Acyclic(g)
    ensures ChildrenOf(g, n) <= f.Keys
    ensures SubtreeSum(g, n) == g[n].self.Plus(SumOf(SubtreeSums(f), ChildrenOf(g, n)))
    ensures forall a | a in f :: SubtreeSum(g, a) ==
                                 if Reaches(g, n, a) then SubtreeSum(f, a).Plus(SubtreeSum(g, n)) else SubtreeSum(f, a)
  {
    NewSubtree(f, g, n);
    var below := Union(f, ChildrenOf(g, n));
    SumOfRootSums(f, ChildrenOf(g, n));
    SumTakeOut(Selfs(g), Subtree(g, n), n);
    assert Subtree(g, n) - {n} == below;
    SumAgrees(Selfs(f), Selfs(g), below);
    forall a | a in f
      ensures SubtreeSum(g, a) ==
              if Reaches(g, n, a) then SubtreeSum(f, a).Plus(SubtreeSum(g, n)) else SubtreeSum(f, a)
    {
      OldSubtree(f, g, n, a);
      SumAgrees(Selfs(f), Selfs(g), Subtree(f, a));
      if Reaches(g, n, a) {
        SumUnion(Selfs(g), Subtree(f, a), Subtree(g, n));
      }
    }
  }
}
