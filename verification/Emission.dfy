/** Exactly which places of a trie appear in the output, and where. */
module Emission {
  import opened Prelude
  import opened Text
  import opened Keys
  import opened Trie
  import opened Materialize
  import opened Tracks

  /** One step into the output: an entry of a map, an element of an array. */
  datatype Hop = Key(name: string) | Pos(at: nat)

  function Dig(a: Any, addr: seq<Hop>): Option<Any>
    decreases |addr|
  {
    if addr == [] then Some(a)
    else if a.Dict? && addr[0].Key? && addr[0].name in a.entries then Dig(a.entries[addr[0].name], addr[1..])
    else if a.List? && addr[0].Pos? && addr[0].at < |a.items| then Dig(a.items[addr[0].at], addr[1..])
    else None
  }

  /**
   Where the value of a place below n is found, when n is materialized into a map under key k. An
   index of a valued node overwrites the entry of the branch of its number.
   */
  ghost function Spot(n: Node, k: string, place: seq<Leg>): Option<seq<Hop>>
    decreases |place|, 1
  {
    if n.value.Some? then
      if place == [] then Some([Key(k)])
      else match Kid(n, place[0])
        case None => None
        case Some(c) =>
          var inner := k + "." + place[0].Name();
          match Spot(c, inner, place[1..]) {
            case None => None
            case Some(a) => if Shadowed(n, place[0]) && a != [] && a[0] == Key(inner) then None else Some(a)
          }
    else if place == [] then None
    else match Inside(n, place)
      case None => None
      case Some(a) => Some([Key(k)] + a)
  }

  /** The same inside the map or array an unvalued node becomes; an index beside branches is not there. */
  ghost function Inside(n: Node, place: seq<Leg>): Option<seq<Hop>>
    requires place != []
    decreases |place|, 0
  {
    match place[0]
    case Ix(i) =>
      if IsArray(n) && i in n.indices && |place| > 1 then
        match Inside(n.indices[i], place[1..]) {
          case None => None
          case Some(a) => Some([Pos(Rank(n.indices.Keys, i))] + a)
        }
      else None
    case Br(s) =>
      if s in n.branches then Spot(n.branches[s], s, place[1..]) else None
  }

  /** A branch of a number that is an index too. */
  predicate Shadowed(n: Node, leg: Leg) {
    leg.Br? && Digit(leg.s).Some? && Digit(leg.s).value in n.indices
  }

  ghost function RootSpot(root: Node, place: seq<Leg>): Option<seq<Hop>> {
    if place != [] && place[0].Br? && place[0].s in root.branches
    then Spot(root.branches[place[0].s], place[0].s, place[1..]) else None
  }

  // ----- what a spot holds -----

  lemma {:induction false} KidParts(n: Node, leg: Leg)
    requires Shaped(n) && Kid(n, leg).Some?
    ensures Shaped(Kid(n, leg).value) && Free(leg.Name(), '.') && leg.Name() != ""
    ensures leg.Ix? ==> Kid(n, leg).value.value.None?
    ensures n decreases to Kid(n, leg).value
  {
    hide Shaped, Digit, Itoa, GoodSeg;
    match leg {
      case Ix(i) =>
        ShapedIndex(n, i);
        NumeralNotEmpty(i);
      case Br(s) =>
        ShapedBranch(n, s);
    }
  }

  lemma {:induction false} NumeralNotEmpty(i: nat)
    ensures Itoa(i) != ""
  {}

  lemma {:induction false} DigKey(m: map<string, Any>, addr: seq<Hop>)
    requires addr != [] && addr[0].Key?
    ensures Dig(Dict(m), addr) == if addr[0].name in m then Dig(m[addr[0].name], addr[1..]) else None
  {}

  /** An entry of a valued node's child is an entry of the node, unless an index overwrites it. */
  lemma {:induction false} ValuedEntry(n: Node, k: string, leg: Leg, key: string)
    requires Shaped(n) && n.value.Some? && Kid(n, leg).Some? && Under(k + "." + leg.Name(), key)
    requires !(Shadowed(n, leg) && key == k + "." + leg.Name())
    ensures var c := Writes(Kid(n, leg).value, k + "." + leg.Name());
            key in c ==> key in Writes(n, k) && Writes(n, k)[key] == c[key]
  {
    hide Shaped, Digit, Itoa, GoodSeg, Under, UnionOf, Shadowed, MatValue;
    KidParts(n, leg);
    LongerKey(k, leg.Name(), key);
    match leg {
      case Ix(i) =>
        IndexUnionAt(n, k + ".", i, key);
      case Br(s) =>
        BranchUnionAt(n, k + ".", s, key);
        NotInIndexUnion(n, k + ".", s, key);
    }
  }

  lemma {:induction false} LongerKey(k: string, seg: string, key: string)
    requires Under(k + "." + seg, key)
    ensures key != k
  {}

  /** An index child writes one entry: its key. */
  lemma {:induction false} NotInIndexUnion(n: Node, prefix: string, seg: string, key: string)
    requires Shaped(n) && Free(seg, '.') && Under(prefix + seg, key)
    requires !(Shadowed(n, Br(seg)) && key == prefix + seg)
    ensures key !in UnionOf(IndexWrites(n, prefix))
  {
    hide Shaped, Itoa, Digit, Under, MatValue, GoodSeg;
    UnionHas(IndexWrites(n, prefix), key);
    forall i | i in n.indices && key in Writes(n.indices[i], prefix + Itoa(i))
      ensures false
    {
      ShapedIndex(n, i);
      WritesUnder(n.indices[i], prefix + Itoa(i), key);
      UnderTwo(prefix, seg, Itoa(i), key);
      DigitIsItoa(seg, i);
    }
  }

  /** The first hop of an address names an entry the node writes. */
  ghost predicate StartsUnder(k: string, addr: seq<Hop>) {
    addr != [] && addr[0].Key? && Under(k, addr[0].name)
  }

  lemma {:induction false} SpotFinds(n: Node, k: string, place: seq<Leg>)
    requires Shaped(n) && Spot(n, k, place).Some?
    ensures StartsUnder(k, Spot(n, k, place).value)
    ensures At(n, place).Some? && Dig(Dict(Writes(n, k)), Spot(n, k, place).value) == At(n, place)
    decreases |place|, 1
  {
    hide Shaped, Digit, Itoa, Under, Kid, Shadowed, Inside, MatValue, UnionOf;
    var addr := Spot(n, k, place).value;
    if n.value.Some? {
      if place == [] {
        UnderSelf(k);
        OwnEntry(n, k);
      } else {
        var c, inner := Kid(n, place[0]).value, k + "." + place[0].Name();
        KidParts(n, place[0]);
        SpotFinds(c, inner, place[1..]);
        ValuedEntry(n, k, place[0], addr[0].name);
        UnderTrans(k, place[0].Name(), addr[0].name);
        DigKey(Writes(n, k), addr);
        DigKey(Writes(c, inner), addr);
      }
    } else {
      UnderSelf(k);
      InsideFinds(n, place);
      assert addr[1..] == Inside(n, place).value;
    }
  }

  lemma {:induction false} OwnEntry(n: Node, k: string)
    requires Shaped(n) && n.value.Some?
    ensures k in Writes(n, k) && Writes(n, k)[k] == n.value.value
  {
    hide Shaped, Under, UnionOf, Itoa, GoodSeg;
    UnionHas(BranchWrites(n, k + "."), k);
    UnionHas(IndexWrites(n, k + "."), k);
    forall s | s in n.branches && k in Writes(n.branches[s], k + "." + s)
      ensures false
    {
      ShapedBranch(n, s);
      WritesUnder(n.branches[s], k + "." + s, k);
      LongerKey(k, s, k);
    }
    forall i | i in n.indices && k in Writes(n.indices[i], k + "." + Itoa(i))
      ensures false
    {
      ShapedIndex(n, i);
      WritesUnder(n.indices[i], k + "." + Itoa(i), k);
      LongerKey(k, Itoa(i), k);
    }
  }

  lemma {:induction false} InsideFinds(n: Node, place: seq<Leg>)
    requires Shaped(n) && place != [] && Inside(n, place).Some?
    ensures At(n, place).Some? && Dig(MatValue(n), Inside(n, place).value) == At(n, place)
    decreases |place|, 0
  {
    hide Shaped, Digit, Itoa, Under, UnionOf, Rank, SortedKeys, Spot, Writes;
    var addr := Inside(n, place).value;
    KidParts(n, place[0]);
    match place[0] {
      case Ix(i) =>
        InsideFinds(n.indices[i], place[1..]);
        SortedKeysAt(n.indices.Keys, i);
        assert addr[1..] == Inside(n.indices[i], place[1..]).value;
      case Br(s) =>
        SpotFinds(n.branches[s], s, place[1..]);
        assert "" + s == s;
        BranchUnionAt(n, "", s, addr[0].name);
        DigKey(UnionOf(BranchWrites(n, "")), addr);
        DigKey(Writes(n.branches[s], s), addr);
    }
  }

  /** Every place with a spot is emitted there with the value it holds. */
  lemma {:induction false} RootSpotFinds(root: Node, place: seq<Leg>)
    requires Shaped(root) && RootSpot(root, place).Some?
    ensures At(root, place).Some? && Dig(Dict(MatRoot(root)), RootSpot(root, place).value) == At(root, place)
  {
    hide Shaped, Under, UnionOf, Spot, Writes;
    var addr := RootSpot(root, place).value;
    var s := place[0].s;
    KidParts(root, place[0]);
    SpotFinds(root.branches[s], s, place[1..]);
    assert "" + s == s;
    BranchUnionAt(root, "", s, addr[0].name);
    DigKey(MatRoot(root), addr);
    DigKey(Writes(root.branches[s], s), addr);
  }

  // ----- which places have a spot -----

  /**
   The place goes by an index at some unvalued node that also has branches, or by a branch whose
   number is an index of a valued node, to the one entry that this index writes.
   */
  predicate Gone(n: Node, place: seq<Leg>)
    decreases |place|
  {
    place != [] && Kid(n, place[0]).Some? &&
    var c := Kid(n, place[0]).value;
    || (n.value.None? && n.branches != map[] && place[0].Ix?)
    || (n.value.Some? && Shadowed(n, place[0]) && (|place| == 1 || c.value.None?))
    || Gone(c, place[1..])
  }

  lemma {:induction false} SpotIff(n: Node, k: string, place: seq<Leg>)
    requires Shaped(n) && At(n, place).Some?
    ensures Spot(n, k, place).Some? <==> !Gone(n, place)
    decreases |place|, 1
  {
    hide Shaped, Digit, Itoa, Kid, Inside, Shadowed;
    if place != [] {
      var c, inner := Kid(n, place[0]).value, k + "." + place[0].Name();
      KidParts(n, place[0]);
      if n.value.Some? {
        SpotIff(c, inner, place[1..]);
        FirstHop(c, inner, place[1..]);
      } else {
        InsideIff(n, place);
      }
    }
  }

  /** A spot starts with the node's own key just if the node is unvalued or the place ends there. */
  lemma {:induction false} FirstHop(n: Node, k: string, place: seq<Leg>)
    requires Shaped(n)
    ensures Spot(n, k, place).Some? ==>
              var a := Spot(n, k, place).value; a != [] && (a[0] == Key(k) <==> place == [] || n.value.None?)
  {
    hide Shaped, Digit, Itoa, Kid, Inside, Shadowed, Under;
    if Spot(n, k, place).Some? && n.value.Some? && place != [] {
      var c, inner := Kid(n, place[0]).value, k + "." + place[0].Name();
      KidParts(n, place[0]);
      SpotFinds(c, inner, place[1..]);
      LongerKey(k, place[0].Name(), Spot(n, k, place).value[0].name);
    }
  }

  lemma {:induction false} InsideIff(n: Node, place: seq<Leg>)
    requires Shaped(n) && n.value.None? && place != [] && At(n, place).Some?
    ensures Inside(n, place).Some? <==> !Gone(n, place)
    decreases |place|, 0
  {
    hide Shaped, Digit, Itoa, Rank, Spot, Shadowed;
    var c := Kid(n, place[0]).value;
    KidParts(n, place[0]);
    match place[0] {
      case Ix(i) =>
        if IsArray(n) && |place| > 1 {
          InsideIff(c, place[1..]);
        }
      case Br(s) =>
        SpotIff(c, s, place[1..]);
    }
  }

  /** A place that holds a value is emitted exactly when it starts at a root branch and is not gone below it. */
  lemma {:induction false} RootSpotIff(root: Node, place: seq<Leg>)
    requires Shaped(root) && root.value.None? && At(root, place).Some?
    ensures place != []
    ensures RootSpot(root, place).Some? <==>
            place[0].Br? && place[0].s in root.branches && !Gone(root.branches[place[0].s], place[1..])
  {
    hide Shaped, Spot, Gone;
    if place[0].Br? && place[0].s in root.branches {
      KidParts(root, place[0]);
      SpotIff(root.branches[place[0].s], place[0].s, place[1..]);
    }
  }

  // ----- nothing else is emitted -----

  predicate IsScalar(a: Any) {
    !a.List? && !a.Dict?
  }

  predicate Scalars(n: Node) {
    && (n.value.Some? ==> IsScalar(n.value.value))
    && (forall i | i in n.indices :: Scalars(n.indices[i]))
    && (forall s | s in n.branches :: Scalars(n.branches[s]))
  }

  lemma {:induction false} DigStep(a: Any, addr: seq<Hop>)
    requires Dig(a, addr).Some? && IsScalar(Dig(a, addr).value)
    ensures IsScalar(a) ==> addr == []
    ensures a.Dict? ==> addr != [] && addr[0].Key? && addr[0].name in a.entries
    ensures a.List? ==> addr != [] && addr[0].Pos? && addr[0].at < |a.items|
  {}

  /** The place whose value an output leaf is: the leaf is at that place's spot. */
  lemma {:induction false} LeafOfWrites(n: Node, k: string, addr: seq<Hop>) returns (place: seq<Leg>)
    requires Shaped(n) && Scalars(n)
    requires Dig(Dict(Writes(n, k)), addr).Some? && IsScalar(Dig(Dict(Writes(n, k)), addr).value)
    ensures Spot(n, k, place) == Some(addr)
    decreases n, 2
  {
    hide Shaped, Digit, Itoa, Under, UnionOf, Scalars, MatValue, Inside, Kid, Shadowed;
    DigStep(Dict(Writes(n, k)), addr);
    DigKey(Writes(n, k), addr);
    var key := addr[0].name;
    if n.value.None? {
      place := LeafOfValue(n, addr[1..]);
      assert addr == [Key(k)] + addr[1..];
    } else if key == k {
      place := [];
      OwnEntry(n, k);
      ScalarValue(n);
      DigStep(n.value.value, addr[1..]);
      assert addr == [Key(k)];
    } else {
      var leg := EntryLeg(n, k, key);
      var c, inner := Kid(n, leg).value, k + "." + leg.Name();
      KidParts(n, leg);
      ScalarKid(n, leg);
      ValuedEntry(n, k, leg, key);
      DigKey(Writes(c, inner), addr);
      var rest := LeafOfWrites(c, inner, addr);
      place := [leg] + rest;
      assert place[1..] == rest;
    }
  }

  lemma {:induction false} ScalarValue(n: Node)
    requires Scalars(n) && n.value.Some?
    ensures IsScalar(n.value.value)
  {}

  lemma {:induction false} ScalarKid(n: Node, leg: Leg)
    requires Scalars(n) && Kid(n, leg).Some?
    ensures Scalars(Kid(n, leg).value)
  {}

  /** The child a further entry of a valued node comes from. */
  lemma {:induction false} EntryLeg(n: Node, k: string, key: string) returns (leg: Leg)
    requires Shaped(n) && n.value.Some? && key in Writes(n, k) && key != k
    ensures Kid(n, leg).Some? && Under(k + "." + leg.Name(), key) &&
            key in Writes(Kid(n, leg).value, k + "." + leg.Name())
    ensures !(Shadowed(n, leg) && key == k + "." + leg.Name())
  {
    hide Shaped, Itoa, Digit, Under, UnionOf;
    UnionHas(BranchWrites(n, k + "."), key);
    UnionHas(IndexWrites(n, k + "."), key);
    if key in UnionOf(IndexWrites(n, k + ".")) {
      var i :| i in n.indices && key in Writes(n.indices[i], k + "." + Itoa(i));
      ShapedIndex(n, i);
      WritesUnder(n.indices[i], k + "." + Itoa(i), key);
      leg := Ix(i);
    } else {
      var s :| s in n.branches && key in Writes(n.branches[s], k + "." + s);
      ShapedBranch(n, s);
      WritesUnder(n.branches[s], k + "." + s, key);
      leg := Br(s);
      if Digit(s).Some? && Digit(s).value in n.indices {
        ShadowEntry(n, k + ".", s);
      }
    }
  }

  /** An index writes an entry under its number. */
  lemma {:induction false} ShadowEntry(n: Node, prefix: string, s: string)
    requires Shaped(n) && Digit(s).Some? && Digit(s).value in n.indices
    ensures prefix + s in UnionOf(IndexWrites(n, prefix))
  {
    hide Shaped, Itoa, Digit, UnionOf, MatValue;
    var i := Digit(s).value;
    DigitIsItoa(s, i);
    ShapedIndex(n, i);
    UnionHas(IndexWrites(n, prefix), prefix + s);
    assert prefix + s in Writes(n.indices[i], prefix + Itoa(i));
    assert i in IndexWrites(n, prefix) && prefix + s in IndexWrites(n, prefix)[i];
  }

  lemma {:induction false} LeafOfValue(n: Node, addr: seq<Hop>) returns (place: seq<Leg>)
    requires Shaped(n) && Scalars(n)
    requires Dig(MatValue(n), addr).Some? && IsScalar(Dig(MatValue(n), addr).value)
    ensures place != [] && Inside(n, place) == Some(addr)
    decreases n, 1
  {
    hide Shaped, Digit, Itoa, Under, UnionOf, Scalars, SortedKeys, Rank, Spot, Writes;
    DigStep(MatValue(n), addr);
    if IsArray(n) {
      var keys := SortedKeys(n.indices.Keys);
      var i := keys[addr[0].at];
      assert i in keys;
      RankOfKey(n.indices.Keys, addr[0].at);
      KidParts(n, Ix(i));
      ScalarKid(n, Ix(i));
      var rest := LeafOfValue(n.indices[i], addr[1..]);
      place := [Ix(i)] + rest;
      assert place[1..] == rest;
      assert addr == [Pos(addr[0].at)] + addr[1..];
    } else {
      place := LeafOfBranches(n, addr);
    }
  }

  lemma {:induction false} LeafOfBranches(n: Node, addr: seq<Hop>) returns (place: seq<Leg>)
    requires Shaped(n) && Scalars(n)
    requires var out := Dict(UnionOf(BranchWrites(n, "")));
             Dig(out, addr).Some? && IsScalar(Dig(out, addr).value)
    ensures place != [] && place[0].Br? && place[0].s in n.branches
    ensures Spot(n.branches[place[0].s], place[0].s, place[1..]) == Some(addr)
    decreases n, 0
  {
    hide Shaped, Digit, Itoa, Under, UnionOf, Scalars, Spot, Writes;
    var out := UnionOf(BranchWrites(n, ""));
    DigStep(Dict(out), addr);
    DigKey(out, addr);
    var key := addr[0].name;
    UnionHas(BranchWrites(n, ""), key);
    var s :| s in n.branches && key in Writes(n.branches[s], "" + s);
    assert "" + s == s;
    KidParts(n, Br(s));
    ScalarKid(n, Br(s));
    WritesUnder(n.branches[s], s, key);
    BranchUnionAt(n, "", s, key);
    DigKey(Writes(n.branches[s], s), addr);
    var rest := LeafOfWrites(n.branches[s], s, addr);
    place := [Br(s)] + rest;
    assert place[1..] == rest;
  }

  /** Every scalar in the output is the value of a place, at that place's spot. */
  lemma {:induction false} LeafOfRoot(root: Node, addr: seq<Hop>) returns (place: seq<Leg>)
    requires Shaped(root) && Scalars(root)
    requires Dig(Dict(MatRoot(root)), addr).Some? && IsScalar(Dig(Dict(MatRoot(root)), addr).value)
    ensures RootSpot(root, place) == Some(addr) && At(root, place) == Dig(Dict(MatRoot(root)), addr)
  {
    hide Shaped, Scalars, Spot, BranchWrites;
    place := LeafOfBranches(root, addr);
    RootSpotFinds(root, place);
  }
}
