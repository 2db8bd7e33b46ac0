/** Attribute keys: splitting a dotted key into trimmed, canonical segments, and joining them again. */
module Keys {
  import opened Prelude
  import opened Text

  // ----- trimming -----

  /** unicode.IsSpace */
  predicate IsSpace(c: char) {
    || '\t' <= c <= '\r' || c == ' ' || c == '\U{85}' || c == '\U{A0}' || c == '\U{1680}'
    || '\U{2000}' <= c <= '\U{200A}' || c == '\U{2028}' || c == '\U{2029}' || c == '\U{202F}'
    || c == '\U{205F}' || c == '\U{3000}'
  }

  /** strings.TrimSpace */
  function Trim(s: string): string {
    if s != "" && IsSpace(s[0]) then Trim(s[1..])
    else if s != "" && IsSpace(s[|s| - 1]) then Trim(s[..|s| - 1])
    else s
  }

  predicate Free(s: string, c: char) {
    forall i | 0 <= i < |s| :: s[i] != c
  }

  lemma {:induction false} TrimProperties(s: string)
    ensures Trim(Trim(s)) == Trim(s)
    ensures Free(s, '.') ==> Free(Trim(s), '.')
    decreases |s|
  {
    if s != "" && IsSpace(s[0]) {
      TrimProperties(s[1..]);
    } else if s != "" && IsSpace(s[|s| - 1]) {
      TrimProperties(s[..|s| - 1]);
    }
  }

  predicate Blank(s: string) {
    forall i | 0 <= i < |s| :: IsSpace(s[i])
  }

  /** t is s without some spaces before it and some after it. */
  ghost predicate Strips(s: string, t: string) {
    exists front, back :: s == front + t + back && Blank(front) && Blank(back)
  }

  lemma {:induction false} StripsMore(front: string, s: string, back: string, t: string)
    requires Strips(s, t) && Blank(front) && Blank(back)
    ensures Strips(front + s + back, t)
  {
    hide IsSpace, Blank;
    var f, b :| s == f + t + b && Blank(f) && Blank(b);
    BlankConcat(front, f);
    BlankConcat(b, back);
    Regroup(front, f, t, b, back);
  }

  lemma {:induction false} Regroup(a: string, b: string, c: string, d: string, e: string)
    ensures a + (b + c + d) + e == (a + b) + c + (d + e)
  {}

  lemma {:induction false} BlankConcat(a: string, b: string)
    requires Blank(a) && Blank(b)
    ensures Blank(a + b)
  {
    hide IsSpace;
  }

  lemma {:induction false} TrimStep(s: string)
    ensures Trim(s) == if s != "" && IsSpace(s[0]) then Trim(s[1..])
                       else if s != "" && IsSpace(s[|s| - 1]) then Trim(s[..|s| - 1])
                       else s
  {
    hide IsSpace;
  }

  /** Trimming cuts off the spaces on both sides, all of them, and nothing else. */
  lemma {:induction false} TrimMeaning(s: string)
    ensures Strips(s, Trim(s))
    ensures Trim(s) != "" ==> !IsSpace(Trim(s)[0]) && !IsSpace(Trim(s)[|Trim(s)| - 1])
    decreases |s|
  {
    hide IsSpace, Strips, Trim;
    TrimStep(s);
    if s != "" && IsSpace(s[0]) {
      TrimMeaning(s[1..]);
      StripsMore([s[0]], s[1..], "", Trim(s));
      assert [s[0]] + s[1..] + "" == s;
    } else if s != "" && IsSpace(s[|s| - 1]) {
      TrimMeaning(s[..|s| - 1]);
      StripsMore("", s[..|s| - 1], [s[|s| - 1]], Trim(s));
      assert "" + s[..|s| - 1] + [s[|s| - 1]] == s;
    } else {
      StripsItself(s);
    }
  }

  lemma {:induction false} StripsItself(s: string)
    ensures Strips(s, s)
  {
    assert s == "" + s + "" && Blank("");
  }

  // ----- numerals as segments -----

  /** plainInt: all digits, leading zeros allowed. */
  function PlainInt(s: string): Option<nat> {
    if s != "" && AllDigits(s) then Some(Value(s)) else None
  }

  /** digitValue: a canonical numeral. */
  function Digit(s: string): Option<nat> {
    if Canonical(s) then Some(Value(s)) else None
  }

  method ParsePlainInt(s: string) returns (r: Option<nat>)
    ensures r == PlainInt(s)
  {
    if s == "" {
      return None;
    }
    var n := 0;
    for i := 0 to |s|
      invariant AllDigits(s[..i]) && n == Value(s[..i])
    {
      if s[i] < '0' || s[i] > '9' {
        return None;
      }
      assert s[..i + 1][..i] == s[..i];
      n := n * 10 + (s[i] - '0') as nat;
    }
    assert s[..|s|] == s;
    return Some(n);
  }

  method ParseDigit(s: string) returns (r: Option<nat>)
    ensures r == Digit(s)
  {
    if s == "" || (|s| > 1 && s[0] == '0') {
      return None;
    }
    var n := 0;
    for i := 0 to |s|
      invariant AllDigits(s[..i]) && n == Value(s[..i])
    {
      if s[i] < '0' || s[i] > '9' {
        return None;
      }
      assert s[..i + 1][..i] == s[..i];
      n := n * 10 + (s[i] - '0') as nat;
    }
    assert s[..|s|] == s;
    return Some(n);
  }

  /** canonicalSeg: leading zeros go. */
  function CanonicalSeg(s: string): string {
    match PlainInt(s)
    case Some(n) => Itoa(n)
    case None => s
  }

  lemma {:induction false} CanonicalSegIsCanonical(s: string)
    ensures CanonicalSeg(CanonicalSeg(s)) == CanonicalSeg(s)
    ensures PlainInt(CanonicalSeg(s)).Some? ==> Digit(CanonicalSeg(s)).Some?
  {
    hide Value, Itoa;
    if PlainInt(s).Some? {
      ValueOfItoa(PlainInt(s).value);
    }
  }

  /** Normalizing a digit string keeps its value, and leaves every other segment alone. */
  lemma {:induction false} CanonicalSegValue(s: string)
    ensures PlainInt(s).Some? ==> Digit(CanonicalSeg(s)) == PlainInt(s)
    ensures PlainInt(s).None? ==> CanonicalSeg(s) == s
  {
    hide Value, Itoa;
    if PlainInt(s).Some? {
      ValueOfItoa(PlainInt(s).value);
    }
  }

  lemma {:induction false} DigitsHaveNoSpace(s: string)
    requires AllDigits(s)
    ensures Trim(s) == s && Free(s, '.')
  {}

  /** Numerals and their numbers name each other. */
  lemma {:induction false} DigitIsItoa(s: string, n: nat)
    ensures Digit(Itoa(n)) == Some(n)
    ensures Digit(s) == Some(n) <==> s == Itoa(n)
  {
    hide Value, Itoa;
    ValueOfItoa(n);
    if Digit(s).Some? {
      ItoaOfValue(s);
    }
  }

  // ----- paths -----

  /** A segment as the trie stores it. */
  predicate GoodSeg(s: string) {
    s != "" && Free(s, '.') && Trim(s) == s && CanonicalSeg(s) == s
  }

  predicate GoodPath(p: seq<string>) {
    forall i | 0 <= i < |p| :: GoodSeg(p[i])
  }

  /** strings.Split at every dot. */
  function Split(s: string): (parts: seq<string>)
    ensures |parts| > 0
  {
    if s == "" then [""]
    else
      var rest := Split(s[1..]);
      if s[0] == '.' then [""] + rest else [[s[0]] + rest[0]] + rest[1..]
  }

  lemma {:induction false} SplitIsFree(s: string)
    ensures forall i | 0 <= i < |Split(s)| :: Free(Split(s)[i], '.')
    decreases |s|
  {
    if s != "" {
      SplitIsFree(s[1..]);
    }
  }

  function Segments(parts: seq<string>): seq<string> {
    if parts == [] then []
    else
      var rest := Segments(parts[..|parts| - 1]);
      var p := Trim(parts[|parts| - 1]);
      if p != "" then rest + [CanonicalSeg(p)] else rest
  }

  /** The canonical path a key denotes: split, trimmed, empties dropped, numerals normalized. */
  function Path(key: string): seq<string> {
    Segments(Split(key))
  }

  method SegmentsOf(key: string) returns (segs: seq<string>)
    ensures segs == Path(key)
  {
    var parts := Split(key);
    segs := [];
    for i := 0 to |parts|
      invariant segs == Segments(parts[..i])
    {
      assert parts[..i + 1][..i] == parts[..i];
      var p := Trim(parts[i]);
      if p != "" {
        segs := segs + [CanonicalSeg(p)];
      }
    }
    assert parts[..|parts|] == parts;
  }

  lemma {:induction false} CanonicalIsGood(p: string)
    requires p != "" && Free(p, '.') && Trim(p) == p
    ensures GoodSeg(CanonicalSeg(p))
  {
    hide Value, Itoa, Trim;
    CanonicalSegIsCanonical(p);
    if PlainInt(p).Some? {
      DigitsHaveNoSpace(Itoa(PlainInt(p).value));
    }
  }

  lemma {:induction false} SegmentsAreGood(parts: seq<string>)
    requires forall i | 0 <= i < |parts| :: Free(parts[i], '.')
    ensures GoodPath(Segments(parts))
    decreases |parts|
  {
    if parts != [] {
      hide CanonicalSeg, GoodSeg;
      SegmentsAreGood(parts[..|parts| - 1]);
      var p := parts[|parts| - 1];
      TrimProperties(p);
      if Trim(p) != "" {
        CanonicalIsGood(Trim(p));
      }
    }
  }

  lemma {:induction false} PathIsGood(key: string)
    ensures GoodPath(Path(key))
  {
    SplitIsFree(key);
    SegmentsAreGood(Split(key));
  }

  /** The dotted spelling of a path. */
  function Join(p: seq<string>): string {
    if p == [] then ""
    else if |p| == 1 then p[0]
    else p[0] + "." + Join(p[1..])
  }

  /** The parts of a key are what stands between its dots. */
  lemma {:induction false} JoinOfSplit(s: string)
    ensures Join(Split(s)) == s
    decreases |s|
  {
    if s != "" {
      JoinOfSplit(s[1..]);
      var rest := Split(s[1..]);
      if s[0] == '.' {
        assert ([""] + rest)[1..] == rest;
      } else if |rest| > 1 {
        assert Split(s)[1..] == rest[1..];
      }
    }
  }

  /** Part by part: a blank part is dropped, any other gives its trimmed and normalized form. */
  lemma {:induction false} SegmentsOfParts(a: seq<string>, p: string, b: seq<string>)
    ensures Segments(a + [p] + b) == Segments(a) + Segments([p]) + Segments(b)
    ensures Segments([p]) == if Trim(p) == "" then [] else [CanonicalSeg(Trim(p))]
    decreases |b|
  {
    hide Trim, CanonicalSeg;
    var all := a + [p] + b;
    assert [p][..0] == [];
    if b == [] {
      assert all[..|all| - 1] == a;
    } else {
      SegmentsOfParts(a, p, b[..|b| - 1]);
      assert all[..|all| - 1] == a + [p] + b[..|b| - 1];
    }
  }

  lemma {:induction false} SplitAtDot(s: string, t: string)
    requires Free(s, '.')
    ensures Split(s + "." + t) == [s] + Split(t)
    ensures Split(s) == [s]
    decreases |s|
  {
    if s == "" {
      assert s + "." + t == "." + t;
      assert ("." + t)[1..] == t;
    } else {
      SplitAtDot(s[1..], t);
      assert (s + "." + t)[1..] == s[1..] + "." + t;
      assert s == [s[0]] + s[1..];
      assert ([s[1..]] + Split(t))[1..] == Split(t);
      assert [s[1..]][1..] == [];
    }
  }

  lemma {:induction false} SplitOfJoin(p: seq<string>)
    requires p != [] && GoodPath(p)
    ensures Split(Join(p)) == p
    decreases |p|
  {
    hide Split, GoodSeg;
    GoodIsFree(p[0]);
    if |p| == 1 {
      SplitAtDot(p[0], "");
    } else {
      SplitAtDot(p[0], Join(p[1..]));
      SplitOfJoin(p[1..]);
      assert p == [p[0]] + p[1..];
    }
  }

  lemma {:induction false} GoodIsFree(s: string)
    requires GoodSeg(s)
    ensures Free(s, '.') && s != ""
  {}

  lemma {:induction false} SegmentsOfGood(parts: seq<string>)
    requires GoodPath(parts)
    ensures Segments(parts) == parts
    decreases |parts|
  {
    if parts != [] {
      hide Trim, CanonicalSeg;
      var front := parts[..|parts| - 1];
      SegmentsOfGood(front);
      assert GoodSeg(parts[|parts| - 1]);
      assert parts == front + [parts[|parts| - 1]];
    }
  }

  /** The dotted spelling of a canonical path denotes that path: distinct paths are spelled apart. */
  lemma {:induction false} PathOfJoin(p: seq<string>)
    requires p != [] && GoodPath(p)
    ensures Path(Join(p)) == p
  {
    SplitOfJoin(p);
    SegmentsOfGood(p);
  }

  lemma {:induction false} PlainWord(s: string)
    requires s != "" && Free(s, '.') && !IsSpace(s[0]) && !IsSpace(s[|s| - 1]) && !IsDigit(s[0])
    ensures GoodSeg(s) && Digit(s) == None
  {}
}
