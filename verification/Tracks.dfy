/** Paths by track: exactly what an add does to every place of a trie, also where tracks share a number. */
module Tracks {
  import opened Prelude
  import opened Text
  import opened Keys
  import opened Trie

  /** One step down the trie on a given track. */
  datatype Leg = Ix(i: nat) | Br(s: string) {
    function Name(): string {
      match this
      case Ix(i) => Itoa(i)
      case Br(s) => s
    }
  }

  function Kid(n: Node, leg: Leg): Option<Node> {
    match leg
    case Ix(i) => if i in n.indices then Some(n.indices[i]) else None
    case Br(s) => if s in n.branches then Some(n.branches[s]) else None
  }

  /** The value at a place. */
  function At(n: Node, place: seq<Leg>): Option<Any>
    decreases |place|
  {
    if place == [] then n.value
    else match Kid(n, place[0])
      case None => None
      case Some(c) => At(c, place[1..])
  }

  /** The key of a place, segment by segment. */
  function Names(place: seq<Leg>): seq<string> {
    if place == [] then [] else [place[0].Name()] + Names(place[1..])
  }

  // ----- adding -----

  function LegOf(n: Node, seg: string, last: bool): Leg {
    if OnIndex(n, seg, last) then Ix(Digit(seg).value) else Br(seg)
  }

  /** The place a key's value goes to. */
  function Route(n: Node, path: seq<string>): seq<Leg>
    decreases |path|
  {
    if path == [] then []
    else [LegOf(n, path[0], |path| == 1)] + Route(Stepped(n, path[0], |path| == 1), path[1..])
  }

  /** What a value put at n does to the places below: indices move over the branches. */
  function BeforeValue(n: Node, place: seq<Leg>): Option<seq<Leg>> {
    if place == [] || place[0].Ix? then None
    else if Digit(place[0].s).Some? && Digit(place[0].s).value in n.indices
      then Some([Ix(Digit(place[0].s).value)] + place[1..])
    else Some(place)
  }

  /** Where a place's value was before the add, for every place but the one added to. */
  function Before(n: Node, path: seq<string>, place: seq<Leg>): Option<seq<Leg>>
    decreases |path|
  {
    if path == [] then BeforeValue(n, place)
    else if place == [] then Some([])
    else
      var seg, last := path[0], |path| == 1;
      if place[0] == LegOf(n, seg, last) then
        match Before(Stepped(n, seg, last), path[1..], place[1..])
        case None => None
        case Some(rest) => Some([place[0]] + rest)
      else if last && place[0].Ix? && Digit(seg) == Some(place[0].i) then None
      else Some(place)
  }

  lemma {:induction false} AtNew(place: seq<Leg>)
    ensures At(NEW, place) == None
  {}

  lemma {:induction false} AtStep(n: Node, leg: Leg, rest: seq<Leg>)
    ensures At(n, [leg] + rest) == match Kid(n, leg) case None => None case Some(c) => At(c, rest)
  {
    assert ([leg] + rest)[1..] == rest;
  }

  lemma {:induction false} SetValueAt(n: Node, v: Any, place: seq<Leg>)
    requires place != []
    ensures At(SetValue(n, v), place) == match BeforeValue(n, place) case None => None case Some(u) => At(n, u)
  {
    hide Digit;
    var m := SetValue(n, v);
    if place[0].Br? {
      var s := place[0].s;
      if Digit(s).Some? && Digit(s).value in n.indices {
        AtStep(n, Ix(Digit(s).value), place[1..]);
        assert m.branches[s] == n.indices[Digit(s).value];
      } else {
        assert s in m.branches <==> s in n.branches;
        assert s in n.branches ==> m.branches[s] == n.branches[s];
      }
    }
  }

  /** The leg of a step leads to the stepped-to child, then and before. */
  lemma {:induction false} WithChildKid(n: Node, seg: string, last: bool, c: Node, leg: Leg)
    ensures Kid(WithChild(n, seg, last, c), leg) ==
            if leg == LegOf(n, seg, last) then Some(c)
            else if last && leg.Ix? && Digit(seg) == Some(leg.i) then None
            else Kid(n, leg)
  {
    hide Digit;
  }

  lemma {:induction false} SteppedKid(n: Node, seg: string, last: bool)
    ensures Stepped(n, seg, last) == Kid(n, LegOf(n, seg, last)).GetOr(NEW)
  {
    hide Digit;
  }

  /** The exact effect of one add on every place of the trie. */
  lemma {:induction false} AddAt(n: Node, path: seq<string>, v: Any, place: seq<Leg>)
    ensures At(Add(n, path, v), place) ==
            if place == Route(n, path) then Some(v)
            else match Before(n, path, place) case None => None case Some(u) => At(n, u)
    decreases |path|
  {
    hide SetValue, Stepped, WithChild, LegOf, Kid, BeforeValue, Digit;
    if path == [] {
      if place != [] { SetValueAt(n, v, place); } else { SetValueHere(n, v); }
    } else if place == [] {
      AddInhabits(n, path, v);
    } else {
      var seg, last := path[0], |path| == 1;
      var c := Stepped(n, seg, last);
      WithChildKid(n, seg, last, Add(c, path[1..], v), place[0]);
      SteppedKid(n, seg, last);
      if place[0] == LegOf(n, seg, last) {
        AddAt(c, path[1..], v, place[1..]);
        assert place == [place[0]] + place[1..];
        var before := Before(c, path[1..], place[1..]);
        if before.Some? {
          AtStep(n, place[0], before.value);
          AtNew(before.value);
        }
      }
    }
  }

  // ----- names -----

  lemma {:induction false} NamesStep(leg: Leg, rest: seq<Leg>)
    ensures Names([leg] + rest) == [leg.Name()] + Names(rest)
  {
    assert ([leg] + rest)[1..] == rest;
  }

  lemma {:induction false} RouteNames(n: Node, path: seq<string>)
    ensures Names(Route(n, path)) == path
    decreases |path|
  {
    hide Digit, Stepped, Itoa;
    if path != [] {
      var seg, last := path[0], |path| == 1;
      RouteNames(Stepped(n, seg, last), path[1..]);
      NamesStep(LegOf(n, seg, last), Route(Stepped(n, seg, last), path[1..]));
      if Digit(seg).Some? { DigitIsItoa(seg, Digit(seg).value); }
      assert path == [seg] + path[1..];
    }
  }

  /** Values move between tracks, never to another key. */
  lemma {:induction false} BeforeNames(n: Node, path: seq<string>, place: seq<Leg>)
    requires Before(n, path, place).Some?
    ensures Names(Before(n, path, place).value) == Names(place)
    decreases |path|
  {
    hide Digit, Stepped, Itoa, LegOf;
    if path == [] {
      var s := place[0].s;
      if Digit(s).Some? && Digit(s).value in n.indices {
        DigitIsItoa(s, Digit(s).value);
        NamesStep(Ix(Digit(s).value), place[1..]);
      }
    } else if place != [] {
      var seg, last := path[0], |path| == 1;
      if place[0] == LegOf(n, seg, last) {
        var c := Stepped(n, seg, last);
        BeforeNames(c, path[1..], place[1..]);
        NamesStep(place[0], Before(c, path[1..], place[1..]).value);
      }
    }
  }
}
