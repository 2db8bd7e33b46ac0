/** What a whole list of pairs leaves in the output, and the only ways a value gets lost. */
module Losses {
  import opened Prelude
  import opened Text
  import opened Keys
  import opened Trie
  import opened Materialize
  import opened Tracks
  import opened Emission

  // ----- any pairs -----

  /** A pair that reaches the trie at all. */
  predicate Counts(p: Pair) {
    p.value != Nil && Path(p.key) != []
  }

  lemma {:induction false} GrownStep(pairs: seq<Pair>)
    requires pairs != []
    ensures var front, last := pairs[..|pairs| - 1], pairs[|pairs| - 1];
            Grown(pairs) == if Counts(last) then Add(Grown(front), Path(last.key), last.value) else Grown(front)
  {}

  lemma {:induction false} CountsHasPath(p: Pair)
    requires Counts(p)
    ensures Path(p.key) != []
  {}

  /** The pair whose value a place of the grown trie holds, followed back through every later add. */
  function Writer(pairs: seq<Pair>, place: seq<Leg>): Option<nat>
    decreases |pairs|
  {
    if pairs == [] then None
    else
      var front, last := pairs[..|pairs| - 1], pairs[|pairs| - 1];
      if !Counts(last) then Writer(front, place)
      else if place == Route(Grown(front), Path(last.key)) then Some(|front|)
      else match Before(Grown(front), Path(last.key), place)
        case None => None
        case Some(u) => Writer(front, u)
  }

  /** A place holds its writer's value, and is spelled like its writer's key. */
  lemma {:induction false} HeldByWriter(pairs: seq<Pair>, place: seq<Leg>)
    ensures match Writer(pairs, place)
            case None => At(Grown(pairs), place) == None
            case Some(i) =>
              && i < |pairs| && Counts(pairs[i])
              && At(Grown(pairs), place) == Some(pairs[i].value) && Names(place) == Path(pairs[i].key)
    decreases |pairs|
  {
    hide Add, Path, Counts, Route, Before, At, Names;
    if pairs == [] {
      AtNew(place);
    } else {
      var front, last := pairs[..|pairs| - 1], pairs[|pairs| - 1];
      GrownStep(pairs);
      if !Counts(last) {
        HeldByWriter(front, place);
      } else {
        AddAt(Grown(front), Path(last.key), last.value, place);
        if place == Route(Grown(front), Path(last.key)) {
          RouteNames(Grown(front), Path(last.key));
        } else if Before(Grown(front), Path(last.key), place).Some? {
          BeforeNames(Grown(front), Path(last.key), place);
          HeldByWriter(front, Before(Grown(front), Path(last.key), place).value);
        }
      }
    }
  }

  /** The place keeps its value in the output: it starts at a root branch and is not gone below it. */
  predicate Surfaces(root: Node, place: seq<Leg>) {
    && place != [] && place[0].Br? && place[0].s in root.branches
    && !Gone(root.branches[place[0].s], place[1..])
  }

  /** A held value has a spot just if its place surfaces, and is then at that spot. */
  lemma {:induction false} SpotOfHeld(pairs: seq<Pair>, place: seq<Leg>, i: nat)
    requires Writer(pairs, place) == Some(i)
    ensures i < |pairs| && place != []
    ensures var root := Grown(pairs);
            && (RootSpot(root, place).Some? ==>
                  Dig(Dict(Unflattened(pairs)), RootSpot(root, place).value) == Some(pairs[i].value))
            && (RootSpot(root, place).Some? <==> Surfaces(root, place))
  {
    hide Path, Shaped, Gone, RootSpot, At, MatRoot, Counts, Writer, Grown;
    HeldByWriter(pairs, place);
    GrownIsShaped(pairs);
    RootSpotIff(Grown(pairs), place);
    if RootSpot(Grown(pairs), place).Some? {
      RootSpotFinds(Grown(pairs), place);
    }
  }

  /** No scalar in the output is invented: each is a pair's value, at the spot of a place that holds it. */
  lemma {:induction false} OutputComesFromPairs(pairs: seq<Pair>, addr: seq<Hop>) returns (place: seq<Leg>, i: nat)
    requires ScalarPairs(pairs)
    requires Dig(Dict(Unflattened(pairs)), addr).Some? && IsScalar(Dig(Dict(Unflattened(pairs)), addr).value)
    ensures Writer(pairs, place) == Some(i) && RootSpot(Grown(pairs), place) == Some(addr)
    ensures i < |pairs| && Names(place) == Path(pairs[i].key)
    ensures Dig(Dict(Unflattened(pairs)), addr) == Some(pairs[i].value)
  {
    hide Path, Shaped, RootSpot, At, MatRoot, Scalars, Grown, Writer, Names, Counts;
    GrownIsShaped(pairs);
    GrownIsScalar(pairs);
    place := LeafOfRoot(Grown(pairs), addr);
    HeldByWriter(pairs, place);
    i := Writer(pairs, place).value;
  }

  ghost predicate Emits(pairs: seq<Pair>, v: Any) {
    exists addr :: Dig(Dict(Unflattened(pairs)), addr) == Some(v)
  }

  /** A scalar that no other pair carries, so that finding it in the output means finding this pair's. */
  predicate OwnValue(pairs: seq<Pair>, i: nat) {
    && i < |pairs| && Counts(pairs[i])
    && forall j | 0 <= j < |pairs| && j != i :: pairs[j].value != pairs[i].value
  }

  /**
   Loss, exactly, for any pairs: a pair's value is in the output if and only if some place that
   surfaces still holds it.
   */
  lemma {:induction false} EmittedIff(pairs: seq<Pair>, i: nat)
    requires ScalarPairs(pairs) && OwnValue(pairs, i)
    ensures Emits(pairs, pairs[i].value) <==>
            exists place :: Writer(pairs, place) == Some(i) && Surfaces(Grown(pairs), place)
  {
    hide Path, Gone, RootSpot, Writer, Grown, Names, Counts, Surfaces, Unflattened;
    if Emits(pairs, pairs[i].value) {
      var addr :| Dig(Dict(Unflattened(pairs)), addr) == Some(pairs[i].value);
      var place, j := OutputComesFromPairs(pairs, addr);
      SpotOfHeld(pairs, place, j);
      assert i == j;
    }
    if exists place :: Writer(pairs, place) == Some(i) && Surfaces(Grown(pairs), place) {
      var place :| Writer(pairs, place) == Some(i) && Surfaces(Grown(pairs), place);
      SpotOfHeld(pairs, place, i);
    }
  }

  predicate ScalarPairs(pairs: seq<Pair>) {
    forall i | 0 <= i < |pairs| :: IsScalar(pairs[i].value)
  }

  lemma {:induction false} AddKeepsScalars(n: Node, path: seq<string>, v: Any)
    requires Scalars(n) && IsScalar(v)
    ensures Scalars(Add(n, path, v))
    decreases |path|
  {
    hide Scalars, SetValue, WithChild, Stepped;
    if path == [] {
      SetValueKeepsScalars(n, v);
    } else {
      var c := Stepped(n, path[0], |path| == 1);
      SteppedIsScalars(n, path[0], |path| == 1);
      AddKeepsScalars(c, path[1..], v);
      WithChildKeepsScalars(n, path[0], |path| == 1, Add(c, path[1..], v));
    }
  }

  lemma {:induction false} SetValueKeepsScalars(n: Node, v: Any)
    requires Scalars(n) && IsScalar(v)
    ensures Scalars(SetValue(n, v))
  {
    hide Digit;
    var b := AsBranches(n.indices);
    forall s | s in b
      ensures Scalars(b[s])
    {
      assert b[s] == n.indices[Digit(s).value];
    }
  }

  lemma {:induction false} WithChildKeepsScalars(n: Node, seg: string, last: bool, c: Node)
    requires Scalars(n) && Scalars(c)
    ensures Scalars(WithChild(n, seg, last, c))
  {
    hide Digit;
  }

  lemma {:induction false} SteppedIsScalars(n: Node, seg: string, last: bool)
    requires Scalars(n)
    ensures Scalars(Stepped(n, seg, last))
  {
    hide Digit;
    assert Scalars(NEW);
  }

  lemma {:induction false} GrownIsScalar(pairs: seq<Pair>)
    requires ScalarPairs(pairs)
    ensures Scalars(Grown(pairs))
    decreases |pairs|
  {
    hide Add, Path, Scalars, IsScalar;
    if pairs == [] {
      NewIsScalar();
    } else {
      var front, last := pairs[..|pairs| - 1], pairs[|pairs| - 1];
      GrownIsScalar(front);
      AddKeepsScalars(Grown(front), Path(last.key), last.value);
    }
  }

  lemma {:induction false} NewIsScalar()
    ensures Scalars(NEW)
  {}

  // ----- as long as nothing splits -----

  /** No add arrives by a numeral at a node holding it as an index beside some branch. */
  predicate NeverSplits(pairs: seq<Pair>) {
    pairs != [] ==>
      var front, last := pairs[..|pairs| - 1], pairs[|pairs| - 1];
      NeverSplits(front) && !(Counts(last) && Splits(Grown(front), Path(last.key)))
  }

  /** The tracks stay disjoint up to the first split, which breaks them. */
  lemma {:induction false} GrownDisjoint(pairs: seq<Pair>)
    ensures NeverSplits(pairs) ==> Disjoint(Grown(pairs))
    ensures pairs != [] && NeverSplits(pairs[..|pairs| - 1]) && !NeverSplits(pairs) ==> !Disjoint(Grown(pairs))
    decreases |pairs|
  {
    hide Add, Path, Splits, Disjoint;
    if pairs == [] {
      NewIsDisjoint();
    } else {
      var front, last := pairs[..|pairs| - 1], pairs[|pairs| - 1];
      GrownDisjoint(front);
      if NeverSplits(front) && Counts(last) {
        AddKeepsDisjointIff(Grown(front), Path(last.key), last.value);
      }
    }
  }

  /** The tracks of the trie are disjoint after every prefix of the pairs if and only if nothing splits. */
  lemma {:induction false} DisjointThroughoutIff(pairs: seq<Pair>)
    ensures (forall k | 0 <= k <= |pairs| :: Disjoint(Grown(pairs[..k]))) <==> NeverSplits(pairs)
    decreases |pairs|
  {
    hide Grown, Path, Splits, Disjoint, Counts;
    assert pairs[..|pairs|] == pairs;
    GrownDisjoint(pairs);
    if pairs != [] {
      var front := pairs[..|pairs| - 1];
      DisjointThroughoutIff(front);
      forall k | 0 <= k <= |front|
        ensures pairs[..k] == front[..k]
      {}
    }
  }

  lemma {:induction false} NewIsDisjoint()
    ensures Disjoint(NEW)
  {}

  /** The place lookups follow a path to: branches first. */
  function Legs(n: Node, path: seq<string>): seq<Leg>
    decreases |path|
  {
    if path == [] then []
    else
      var onIndex := path[0] !in n.branches && Digit(path[0]).Some? && Digit(path[0]).value in n.indices;
      [if onIndex then Ix(Digit(path[0]).value) else Br(path[0])] + Legs(ChildOf(n, path[0]).GetOr(NEW), path[1..])
  }

  lemma {:induction false} LookupAt(n: Node, path: seq<string>)
    ensures Lookup(n, path) == At(n, Legs(n, path))
    decreases |path|
  {
    hide Digit;
    if path != [] {
      var c := ChildOf(n, path[0]).GetOr(NEW);
      LookupAt(c, path[1..]);
      AtStep(n, Legs(n, path)[0], Legs(c, path[1..]));
    }
  }

  /** The path goes by an index at some unvalued node that also has branches. */
  predicate Lost(n: Node, path: seq<string>)
    decreases |path|
  {
    && path != []
    && ((n.value.None? && n.branches != map[] && path[0] !in n.branches) ||
        (ChildOf(n, path[0]).Some? && Lost(ChildOf(n, path[0]).value, path[1..])))
  }

  lemma {:induction false} GoneIsLost(n: Node, path: seq<string>)
    requires Disjoint(n) && Lookup(n, path).Some?
    ensures Gone(n, Legs(n, path)) <==> Lost(n, path)
    decreases |path|
  {
    hide Digit, Itoa, Disjoint;
    if path != [] {
      var c := ChildOf(n, path[0]).value;
      DisjointKid(n, path[0]);
      GoneIsLost(c, path[1..]);
      assert Legs(n, path)[1..] == Legs(c, path[1..]);
    }
  }

  lemma {:induction false} DisjointKid(n: Node, seg: string)
    requires Disjoint(n) && ChildOf(n, seg).Some?
    ensures Disjoint(ChildOf(n, seg).value)
    ensures seg in n.branches ==> !(Digit(seg).Some? && Digit(seg).value in n.indices)
  {
    hide Digit, Itoa;
    if Digit(seg).Some? { DigitIsItoa(seg, Digit(seg).value); }
  }

  ghost function RootAddress(root: Node, path: seq<string>): Option<seq<Hop>> {
    RootSpot(root, Legs(root, path))
  }

  /** The j-th pair deletes the index subtree that `path` runs through. */
  predicate TakesAway(pairs: seq<Pair>, j: nat, path: seq<string>)
    requires j < |pairs|
  {
    Counts(pairs[j]) && Disturbs(Grown(pairs[..j]), Path(pairs[j].key), path)
  }

  /** Without splits, an add takes away only by ending in a numeral on the other path's way. */
  lemma {:induction false} TakingAwayIsEndingInANumeral(n: Node, path: seq<string>, other: seq<string>)
    requires !Splits(n, path) && Disturbs(n, path, other)
    ensures 0 < |path| <= |other| && path == other[..|path|] && Digit(path[|path| - 1]).Some?
    decreases |path|
  {
    hide Digit;
    var seg, last := path[0], |path| == 1;
    if seg !in n.branches && Digit(seg).Some? && Digit(seg).value in n.indices && !OnIndex(n, seg, last) {
      assert path == [seg];
    } else {
      TakingAwayIsEndingInANumeral(Stepped(n, seg, last), path[1..], other[1..]);
      assert path == [seg] + path[1..] && other[..|path|] == [seg] + other[1..][..|path| - 1];
    }
  }

  /** i is the last pair with this path. */
  predicate LastWith(pairs: seq<Pair>, i: nat, path: seq<string>) {
    && i < |pairs| && Counts(pairs[i]) && Path(pairs[i].key) == path
    && forall j | i < j < |pairs| && Counts(pairs[j]) :: Path(pairs[j].key) != path
  }

  predicate TakenAfter(pairs: seq<Pair>, i: nat, path: seq<string>) {
    exists j | i < j < |pairs| :: TakesAway(pairs, j, path)
  }

  lemma {:induction false} TakenStep(pairs: seq<Pair>, i: nat, path: seq<string>)
    requires i + 1 < |pairs|
    ensures TakenAfter(pairs, i, path) <==>
            TakenAfter(pairs[..|pairs| - 1], i, path) || TakesAway(pairs, |pairs| - 1, path)
  {
    hide Counts, Disturbs, Path;
    var front := pairs[..|pairs| - 1];
    forall j | i < j < |front|
      ensures TakesAway(front, j, path) <==> TakesAway(pairs, j, path)
    {
      assert front[..j] == pairs[..j];
    }
  }

  lemma {:induction false} LastWithFront(pairs: seq<Pair>, i: nat, path: seq<string>)
    requires LastWith(pairs, i, path) && i + 1 < |pairs|
    ensures LastWith(pairs[..|pairs| - 1], i, path)
  {
    hide Counts, Path;
  }

  /** The trie keeps each path's last value unless a later pair deletes the index subtree it lies in. */
  lemma {:induction false} LastValueKept(pairs: seq<Pair>, i: nat, path: seq<string>)
    requires NeverSplits(pairs) && LastWith(pairs, i, path)
    ensures Lookup(Grown(pairs), path) == if TakenAfter(pairs, i, path) then None else Some(pairs[i].value)
    decreases |pairs|
  {
    hide Add, Path, Splits, Disjoint, Disturbs, Lookup, Counts;
    var front, last := pairs[..|pairs| - 1], pairs[|pairs| - 1];
    GrownDisjoint(front);
    if Counts(last) {
      AddLookup(Grown(front), Path(last.key), last.value, path);
      CountsHasPath(last);
    }
    GrownStep(pairs);
    if i < |front| {
      LastWithFront(pairs, i, path);
      LastValueKept(front, i, path);
      TakenStep(pairs, i, path);
    } else {
      assert !TakenAfter(pairs, i, path);
    }
  }

  /** Where the last value of a path is found: its address, as long as it has one. */
  lemma {:induction false} LastValueAt(pairs: seq<Pair>, i: nat, path: seq<string>)
    requires NeverSplits(pairs) && LastWith(pairs, i, path)
    ensures var root := Grown(pairs);
            && (RootAddress(root, path).Some? ==>
                  Dig(Dict(Unflattened(pairs)), RootAddress(root, path).value) == Some(pairs[i].value))
            && (RootAddress(root, path).Some? <==>
                  && !TakenAfter(pairs, i, path)
                  && path[0] in root.branches && !Lost(root.branches[path[0]], path[1..]))
  {
    hide Path, Disjoint, Shaped, Lost, TakenAfter, Lookup, NeverSplits, MatRoot, Counts, RootSpot, At, Grown;
    var root := Grown(pairs);
    LastValueKept(pairs, i, path);
    GrownDisjoint(pairs);
    GrownIsShaped(pairs);
    CountsHasPath(pairs[i]);
    LookupAt(root, path);
    if RootAddress(root, path).Some? {
      RootSpotFinds(root, Legs(root, path));
    }
    if Lookup(root, path).Some? {
      LastAddressIff(root, path);
    }
  }

  /**
   The same in terms of keys: a path's last value is in the output if and only if no later key ending
   in a numeral deletes the index subtree it lies in, and it goes neither by an index of the root nor
   by an index beside branches of an unvalued node.
   */
  lemma {:induction false} LastValueEmittedIff(pairs: seq<Pair>, i: nat, path: seq<string>)
    requires NeverSplits(pairs) && LastWith(pairs, i, path) && ScalarPairs(pairs) && OwnValue(pairs, i)
    ensures path != []
    ensures Emits(pairs, pairs[i].value) <==>
            && !TakenAfter(pairs, i, path)
            && path[0] in Grown(pairs).branches && !Lost(Grown(pairs).branches[path[0]], path[1..])
  {
    hide Path, Lost, TakenAfter, NeverSplits, Counts, RootSpot, Grown, Unflattened, Legs, Surfaces, Writer, Names;
    CountsHasPath(pairs[i]);
    LastValueAt(pairs, i, path);
    if Emits(pairs, pairs[i].value) {
      var addr :| Dig(Dict(Unflattened(pairs)), addr) == Some(pairs[i].value);
      var place, j := OutputComesFromPairs(pairs, addr);
      HeldHasAddress(pairs, place);
    }
  }

  /** While nothing splits, a place that holds a value is where lookups of its spelling lead. */
  lemma {:induction false} HeldHasAddress(pairs: seq<Pair>, place: seq<Leg>)
    requires NeverSplits(pairs) && Writer(pairs, place).Some?
    ensures Legs(Grown(pairs), Names(place)) == place
  {
    hide NeverSplits, Writer, Grown, Legs, Names, Disjoint, Shaped, Counts, Path;
    HeldByWriter(pairs, place);
    GrownDisjoint(pairs);
    LegsOfNames(Grown(pairs), place);
  }

  /**
   As long as nothing splits the last write wins: a value overwritten by a later pair of the same path
   is not in the output.
   */
  lemma {:induction false} OverwrittenIsLost(pairs: seq<Pair>, j: nat, i: nat)
    requires NeverSplits(pairs) && ScalarPairs(pairs) && OwnValue(pairs, j) && Overwrites(pairs, j, i)
    ensures !Emits(pairs, pairs[j].value)
  {
    hide Path, NeverSplits, Counts, Grown, Unflattened, Legs, Surfaces, Writer, Names, At, Lookup, TakenAfter, Emits;
    var path := Path(pairs[j].key);
    if Emits(pairs, pairs[j].value) {
      EmittedIff(pairs, j);
      var place :| Writer(pairs, place) == Some(j) && Surfaces(Grown(pairs), place);
      HeldByWriter(pairs, place);
      HeldHasAddress(pairs, place);
      LookupAt(Grown(pairs), path);
      var m := LastOf(pairs, path, i);
      LastValueKept(pairs, m, path);
    }
  }

  /** The last pair of a path, from a given one on. */
  lemma {:induction false} LastOf(pairs: seq<Pair>, path: seq<string>, i: nat) returns (m: nat)
    requires i < |pairs| && Counts(pairs[i]) && Path(pairs[i].key) == path
    ensures m >= i && LastWith(pairs, m, path)
    decreases |pairs| - i
  {
    hide Path, Counts;
    if j: nat :| i < j < |pairs| && Counts(pairs[j]) && Path(pairs[j].key) == path {
      m := LastOf(pairs, path, j);
    } else {
      m := i;
    }
  }

  /** A later pair that reaches the trie writes to the same path. */
  predicate Overwrites(pairs: seq<Pair>, j: nat, i: nat) {
    j < i < |pairs| && Counts(pairs[i]) && Path(pairs[i].key) == Path(pairs[j].key)
  }

  /**
   When an overwritten value is in the output nevertheless: exactly if some place of its path that
   surfaces still holds it, which takes a pair that splits a number over both tracks.
   */
  lemma {:induction false} StaleEmittedIff(pairs: seq<Pair>, j: nat, i: nat)
    requires ScalarPairs(pairs) && OwnValue(pairs, j) && Overwrites(pairs, j, i)
    ensures Emits(pairs, pairs[j].value) <==>
            exists place :: Names(place) == Path(pairs[j].key) && Writer(pairs, place) == Some(j)
                            && Surfaces(Grown(pairs), place)
    ensures Emits(pairs, pairs[j].value) ==> !NeverSplits(pairs)
  {
    hide Path, NeverSplits, Counts, Grown, Surfaces, Writer, Names, Emits, At;
    EmittedIff(pairs, j);
    if NeverSplits(pairs) { OverwrittenIsLost(pairs, j, i); }
    if Emits(pairs, pairs[j].value) {
      var place :| Writer(pairs, place) == Some(j) && Surfaces(Grown(pairs), place);
      HeldByWriter(pairs, place);
    }
  }

  lemma {:induction false} LegsOfNames(n: Node, place: seq<Leg>)
    requires Disjoint(n) && At(n, place).Some?
    ensures Legs(n, Names(place)) == place
    decreases |place|
  {
    hide Digit, Itoa, Disjoint;
    if place != [] {
      var seg := place[0].Name();
      var c := Kid(n, place[0]).value;
      assert Names(place)[1..] == Names(place[1..]);
      LegNames(n, place[0]);
      DisjointKid(n, seg);
      LegsOfNames(c, place[1..]);
    }
  }

  lemma {:induction false} LegNames(n: Node, leg: Leg)
    requires Disjoint(n) && Kid(n, leg).Some?
    ensures ChildOf(n, leg.Name()) == Kid(n, leg)
    ensures leg.Ix? ==> leg.Name() !in n.branches && Digit(leg.Name()) == Some(leg.i)
  {
    hide Digit, Itoa;
    if leg.Ix? { DigitIsItoa(leg.Name(), leg.i); }
  }

  lemma {:induction false} LastAddressIff(root: Node, path: seq<string>)
    requires Disjoint(root) && Shaped(root) && root.value.None? && Lookup(root, path).Some? && path != []
    ensures RootAddress(root, path).Some? <==> path[0] in root.branches && !Lost(root.branches[path[0]], path[1..])
  {
    hide Disjoint, Shaped, Lost, Gone, RootSpot, Digit;
    LookupAt(root, path);
    RootSpotIff(root, Legs(root, path));
    DisjointKid(root, path[0]);
    if path[0] in root.branches {
      GoneIsLost(root.branches[path[0]], path[1..]);
      assert Legs(root, path)[1..] == Legs(root.branches[path[0]], path[1..]);
    }
  }
}
