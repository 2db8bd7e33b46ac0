/** From attribute pairs to extraction: unflattening, synthesis, merging and reading together. */
module Pipeline {
  import opened Prelude
  import opened Text
  import opened Keys
  import opened Trie
  import opened Materialize
  import opened UniformKeys
  import opened RoundTrip
  import opened Unflatten
  import opened Words
  import opened WordWalk
  import opened Semconv
  import opened ReadKeys

  // ----- what extraction reads -----

  predicate SameRead(a: Attrs, b: Attrs, k: string) {
    Str(a, k) == Str(b, k) && AsInt(a, k) == AsInt(b, k)
  }

  /** Extraction depends on what is read under these keys and on nothing else. */
  lemma {:induction false} ExtractReads(a: Attrs, b: Attrs)
    requires forall k | k in READ_KEYS :: SameRead(a, b, k)
    ensures Extract(a) == Extract(b)
  {
    hide Str, AsInt;
    assert SameRead(a, b, PROMPT) && SameRead(a, b, COMPLETION) && SameRead(a, b, TOTAL);
    assert SameRead(a, b, CACHE_READ) && SameRead(a, b, CACHE_WRITE) && SameRead(a, b, MODEL);
    assert SameRead(a, b, SESSION) && SameRead(a, b, USER) && SameRead(a, b, PARAMS);
  }

  // ----- the pipeline -----

  /** What flattening may put under a path's spelling: its last value, an array, or what a map above holds there. */
  ghost predicate Written(s: Content, p: seq<string>, v: Any) {
    || (if p in s then !s[p].Dict? && v == s[p] else ArrayAt(s, p) && v.List?)
    || SomeMapReaches(s, p, 1, v)
  }

  ghost predicate KeyIsRead(s: Content, explicit: Attrs, k: string) {
    && (k in explicit <==> exists v :: Written(s, Path(k), v))
    && (k in explicit ==> Written(s, Path(k), explicit[k]))
  }

  ghost predicate Reading(s: Content, explicit: Attrs) {
    forall k | k in READ_KEYS :: KeyIsRead(s, explicit, k)
  }

  lemma {:induction false} FoundWritten(pairs: seq<Pair>, p: seq<string>, v: Any)
    requires Wordy(p) && p != []
    ensures Found(pairs, p, v) ==> Written(LastWrites(pairs), p, v)
    ensures Written(LastWrites(pairs), p, v) ==> exists w :: Found(pairs, p, w)
  {
    hide Wordy, LastWrites, Grown, MatValue, SomeMapReaches, NodeAt, OnlyIndexed, Extended, IsArray;
    GrownFits(pairs, p);
    if NodeAt(Grown(pairs), p).Some? {
      MatKind(NodeAt(Grown(pairs), p).value);
      ArrayNode(pairs, p);
      assert ArrayAt(LastWrites(pairs), p) ==> Found(pairs, p, MatValue(NodeAt(Grown(pairs), p).value));
    }
    assert SomeMapReaches(LastWrites(pairs), p, 1, v) ==> Found(pairs, p, v);
    if p in LastWrites(pairs) && !LastWrites(pairs)[p].Dict? {
      assert Found(pairs, p, LastWrites(pairs)[p]);
    }
  }

  lemma {:induction false} ArrayNode(pairs: seq<Pair>, p: seq<string>)
    requires Wordy(p) && p != [] && NodeAt(Grown(pairs), p).Some?
    ensures ArrayAt(LastWrites(pairs), p) ==> IsArray(NodeAt(Grown(pairs), p).value)
  {
    hide Wordy, LastWrites, Grown, NodeAt, OnlyIndexed, Extended;
    GrownFits(pairs, p);
  }

  lemma {:induction false} FlattenReads(pairs: seq<Pair>, out: Attrs)
    requires Flattens(Unflattened(pairs), out)
    ensures Reading(LastWrites(pairs), out)
  {
    hide Wordy, LastWrites, Unflattened, WalkWrites, Path, Written, Join, GoodPath, Found;
    ReadKeysAreWords();
    forall k | k in READ_KEYS
      ensures KeyIsRead(LastWrites(pairs), out, k)
    {
      PathIsGood(k);
      var p := Path(k);
      if k in out {
        WordFound(pairs, p, out[k]);
        FoundWritten(pairs, p, out[k]);
      }
      if exists v :: Written(LastWrites(pairs), p, v) {
        var v :| Written(LastWrites(pairs), p, v);
        FoundWritten(pairs, p, v);
        var w :| Found(pairs, p, w);
        WordFound(pairs, p, w);
      }
    }
  }

  /** No map written above the path reaches its spelling. */
  ghost predicate Clear(s: Content, p: seq<string>) {
    forall v :: !SomeMapReaches(s, p, 1, v)
  }

  ghost predicate AllClear(s: Content) {
    forall k | k in READ_KEYS :: Clear(s, Path(k))
  }

  /** What then stands under a path's spelling, arrays up to their items: these are never read. */
  function Seen(s: Content, p: seq<string>): Option<Any> {
    if p in s then if s[p].Dict? then None else Some(s[p])
    else if ArrayAt(s, p) then Some(List([])) else None
  }

  /** The canonical explicit map, as far as extraction reads it. */
  function Explicit(s: Content): Attrs {
    map k | k in READ_KEYS && Seen(s, Path(k)).Some? :: Seen(s, Path(k)).value
  }

  lemma {:induction false} ClearReading(s: Content, syn: Attrs, out: Attrs)
    requires Reading(s, out) && AllClear(s)
    ensures Extract(syn + out) == Extract(syn + Explicit(s))
  {
    hide Path, Written, Seen, Clear, Extract, Trim, ParseInt;
    forall k | k in READ_KEYS
      ensures SameRead(syn + out, syn + Explicit(s), k)
    {
      assert KeyIsRead(s, out, k) && Clear(s, Path(k));
      ClearWritten(s, Path(k));
    }
    ExtractReads(syn + out, syn + Explicit(s));
  }

  lemma {:induction false} ClearWritten(s: Content, p: seq<string>)
    requires Clear(s, p)
    ensures (exists v :: Written(s, p, v)) <==> Seen(s, p).Some?
    ensures forall v | Written(s, p, v) ::
            Seen(s, p) == Some(v) || (v.List? && Seen(s, p).Some? && Seen(s, p).value.List?)
  {
    hide SomeMapReaches, ArrayAt;
    if Seen(s, p).Some? {
      assert Written(s, p, Seen(s, p).value);
    }
  }

  /** What of it can be read without descending: the values below values only. */
  function Shown(s: Content): Attrs {
    map k | k in READ_KEYS && Path(k) in s && PrefixesIn(s, Path(k), 1) :: s[Path(k)]
  }

  lemma {:induction false} ShownReads(pairs: seq<Pair>)
    ensures Extract(Unflattened(pairs)) == Extract(Shown(LastWrites(pairs)))
  {
    hide Wordy, LastWrites, Unflattened, Path, Extract, Join, PrefixesIn, Extended, GoodPath, Trim, ParseInt;
    ReadKeysAreWords();
    forall k | k in READ_KEYS
      ensures SameRead(Unflattened(pairs), Shown(LastWrites(pairs)), k)
    {
      PathIsGood(k);
      WordTops(pairs, Path(k));
    }
    ExtractReads(Unflattened(pairs), Shown(LastWrites(pairs)));
  }

  /** What the pipeline answers, in terms of the last writes. */
  ghost predicate Answers(s: Content, flat: Attrs, lower: string -> string, e: Extracted) {
    exists syn :: Synthesized(flat, lower, syn) &&
                  if syn == map[] then e == Extract(Shown(s))
                  else exists explicit :: Reading(s, explicit) && e == Extract(syn + explicit)
  }

  /** The same where no map reaches a key that is read: then there is one answer. */
  ghost predicate AnswersClearly(s: Content, flat: Attrs, lower: string -> string, e: Extracted) {
    exists syn :: Synthesized(flat, lower, syn) &&
                  e == Extract(if syn == map[] then Shown(s) else syn + Explicit(s))
  }

  /**
   Through the whole pipeline, for any pairs: with a synthesis, extraction reads it overlaid with what
   the last writes put under the keys it reads, and with this alone below values if there is none.
   */
  method ExtractPairs(pairs: seq<Pair>, flat: Attrs, lower: string -> string) returns (e: Extracted)
    ensures Answers(LastWrites(pairs), flat, lower, e)
    ensures AllClear(LastWrites(pairs)) ==> AnswersClearly(LastWrites(pairs), flat, lower, e)
  {
    hide Merged, Answers, AnswersClearly, AllClear, LastWrites, Unflattened;
    var nested := UnflattenPairs(pairs);
    e := Merge(nested, flat, lower);
    MergedAnswers(pairs, flat, lower, e);
    if AllClear(LastWrites(pairs)) {
      ClearAnswer(LastWrites(pairs), flat, lower, e);
    }
  }

  lemma {:induction false} MergedAnswers(pairs: seq<Pair>, flat: Attrs, lower: string -> string, e: Extracted)
    requires Merged(Unflattened(pairs), flat, lower, e)
    ensures Answers(LastWrites(pairs), flat, lower, e)
  {
    hide Synthesized, Extract, LastWrites, Unflattened, Flattens, Shown, Reading;
    var nested, s := Unflattened(pairs), LastWrites(pairs);
    var syn :| Synthesized(flat, lower, syn) && if syn == map[] then e == Extract(nested) else Overlaid(nested, syn, e);
    if syn == map[] {
      ShownReads(pairs);
    } else {
      var explicit :| Flattens(nested, explicit) && e == Extract(syn + explicit);
      FlattenReads(pairs, explicit);
    }
  }

  lemma {:induction false} ClearAnswer(s: Content, flat: Attrs, lower: string -> string, e: Extracted)
    requires Answers(s, flat, lower, e) && AllClear(s)
    ensures AnswersClearly(s, flat, lower, e)
  {
    hide Synthesized, Extract, Shown, Reading, Explicit, AllClear;
    var syn :| Synthesized(flat, lower, syn) &&
               if syn == map[] then e == Extract(Shown(s))
               else exists explicit :: Reading(s, explicit) && e == Extract(syn + explicit);
    if syn != map[] {
      var explicit :| Reading(s, explicit) && e == Extract(syn + explicit);
      ClearReading(s, syn, explicit);
    }
  }

  /**
   The order in which the attribute map yields its pairs does not reach the extraction, even where it
   changes the output, as long as no map reaches a key that is read, or nothing was synthesized.
   */
  lemma {:induction false} MapOrderDoesNotMatter(
    a: seq<Pair>, b: seq<Pair>, flat: Attrs, lower: string -> string, e: Extracted, f: Extracted)
    requires multiset(a) == multiset(b) && DistinctPaths(a) && DistinctPaths(b)
    requires AllClear(LastWrites(a)) || Synthesized(flat, lower, map[])
    requires Merged(Unflattened(a), flat, lower, e) && Merged(Unflattened(b), flat, lower, f)
    ensures e == f
  {
    hide Synthesized, Extract, LastWrites, Unflattened, DistinctPaths, Merged, Shown, Reading, Explicit, AllClear;
    SameLastWrites(a, b);
    MergedAnswers(a, flat, lower, e);
    MergedAnswers(b, flat, lower, f);
    OneAnswer(LastWrites(a), flat, lower, e, f);
  }

  lemma {:induction false} OneAnswer(s: Content, flat: Attrs, lower: string -> string, e: Extracted, f: Extracted)
    requires Answers(s, flat, lower, e) && Answers(s, flat, lower, f)
    requires AllClear(s) || Synthesized(flat, lower, map[])
    ensures e == f
  {
    hide Synthesized, Extract, Shown, Reading, Explicit, AllClear, Answers;
    if AllClear(s) {
      ClearAnswer(s, flat, lower, e);
      ClearAnswer(s, flat, lower, f);
      var syn :| Synthesized(flat, lower, syn) && e == Extract(if syn == map[] then Shown(s) else syn + Explicit(s));
      var tyn :| Synthesized(flat, lower, tyn) && f == Extract(if tyn == map[] then Shown(s) else tyn + Explicit(s));
      SynthesisIsUnique(flat, lower, syn, tyn);
    } else {
      Unsynthesized(s, flat, lower, e);
      Unsynthesized(s, flat, lower, f);
    }
  }

  lemma {:induction false} Unsynthesized(s: Content, flat: Attrs, lower: string -> string, e: Extracted)
    requires Answers(s, flat, lower, e) && Synthesized(flat, lower, map[])
    ensures e == Extract(Shown(s))
  {
    hide Synthesized, Extract, Shown, Reading;
    var syn :| Synthesized(flat, lower, syn) &&
               if syn == map[] then e == Extract(Shown(s))
               else exists explicit :: Reading(s, explicit) && e == Extract(syn + explicit);
    SynthesisIsUnique(flat, lower, syn, map[]);
  }

  // ----- where the explicit map is not what was written -----

  /**
   Without synthesis, for any pairs: a word key reads as its last value does exactly if all its prefixes
   were written, or that value reads as nothing anyway.
   */
  lemma {:induction false} UnsynthesizedReadsIff(pairs: seq<Pair>, k: string)
    requires IsWordKey(k)
    ensures var s := LastWrites(pairs);
            var last: Attrs := if Path(k) in s then map[k := s[Path(k)]] else map[];
            && (Str(Unflattened(pairs), k) == Str(last, k) <==> Str(last, k) == None || PrefixesIn(s, Path(k), 1))
            && (AsInt(Unflattened(pairs), k) == AsInt(last, k) <==> AsInt(last, k) == None || PrefixesIn(s, Path(k), 1))
  {
    hide Wordy, LastWrites, Unflattened, Path, Join, PrefixesIn, Extended, GoodPath, Trim, ParseInt;
    PathIsGood(k);
    WordTops(pairs, Path(k));
  }

  /**
   A key below the prompt count that goes on by a number makes the count a list: it hides the gen_ai
   count and cannot be read, while the synthesized total stays.
   */
  lemma {:induction false} ListHidesCount(v: Any, lower: string -> string, e: Extracted)
    requires v != Nil
    requires Merged(Unflattened([Pair("llm.token_count.prompt.0.x", v)]),
                    map[GENAI_INPUT := Whole(5), GENAI_OUTPUT := Whole(7)], lower, e)
    ensures e.usage == Some(Tables.TokenUsage(0, 7, 12, 0, 0))
  {
    hide Merged, Unflattened, LastWrites, Answers, AllClear;
    var pairs := [Pair("llm.token_count.prompt.0.x", v)];
    ListContent(v);
    MergedAnswers(pairs, map[GENAI_INPUT := Whole(5), GENAI_OUTPUT := Whole(7)], lower, e);
    ListClear(v);
    ClearAnswer(LastWrites(pairs), map[GENAI_INPUT := Whole(5), GENAI_OUTPUT := Whole(7)], lower, e);
    ListUsage(v, lower, e);
  }

  const LIST_PATH := ["llm", "token_count", "prompt", "0", "x"]

  lemma {:induction false} ListContent(v: Any)
    requires v != Nil
    ensures LastWrites([Pair("llm.token_count.prompt.0.x", v)]) == map[LIST_PATH := v]
  {
    hide Path;
    ListKey();
    var pairs := [Pair("llm.token_count.prompt.0.x", v)];
    assert pairs[..0] == [];
  }

  lemma {:induction false} ListKey()
    ensures Path("llm.token_count.prompt.0.x") == LIST_PATH
  {
    hide GoodSeg, Digit, Path;
    PlainWord("llm");
    PlainWord("token_count");
    PlainWord("prompt");
    PlainWord("x");
    NumeralIsGood(0);
    assert Itoa(0) == "0";
    ListSpelling();
    PathOfJoin(LIST_PATH);
  }

  lemma {:induction false} ListSpelling()
    ensures Join(LIST_PATH) == "llm.token_count.prompt.0.x"
  {
    hide Join;
    var tail := ["0"] + ["x"];
    InFront("0", ["x"]);
    InFront("prompt", tail);
    InFront("token_count", ["prompt"] + tail);
    InFront("llm", ["token_count"] + (["prompt"] + tail));
    assert ["llm"] + (["token_count"] + (["prompt"] + tail)) == LIST_PATH;
    JoinOne("x");
    assert "0" + "." + "x" == "0.x" && "prompt" + "." + "0.x" == "prompt.0.x";
    assert "token_count" + "." + "prompt.0.x" == "token_count.prompt.0.x";
    assert "llm" + "." + "token_count.prompt.0.x" == "llm.token_count.prompt.0.x";
  }

  /** No word path goes as far as the number. */
  lemma {:induction false} WordsEndBefore(p: seq<string>)
    requires Wordy(p)
    ensures LIST_PATH <= p ==> false
    ensures p <= LIST_PATH ==> |p| <= 3
  {
    hide Digit;
    assert Digit("0") == Some(0) by {
      assert Itoa(0) == "0";
      DigitIsItoa("0", 0);
    }
    assert LIST_PATH[3] == "0";
  }

  lemma {:induction false} ListClear(v: Any)
    ensures AllClear(map[LIST_PATH := v])
    ensures Explicit(map[LIST_PATH := v]) == map[PROMPT := List([])]
  {
    hide IsWordKey, Path, Digit, Seen, WalkWrites, Wordy;
    ReadKeysAreWords();
    var s: Content := map[LIST_PATH := v];
    forall k | k in READ_KEYS
      ensures Clear(s, Path(k)) && Seen(s, Path(k)) == if k == PROMPT then Some(List([])) else None
    {
      WordKeyPath(k);
      NothingAbove(v, Path(k));
      CountKeysAreWords();
      if k == PROMPT {
        SeenAsList(v);
      } else {
        NotOnTheWay(k);
        NothingSeen(v, Path(k));
      }
    }
  }

  lemma {:induction false} WordKeyPath(k: string)
    requires IsWordKey(k)
    ensures Wordy(Path(k)) && Path(k) != [] && Join(Path(k)) == k
  {}

  lemma {:induction false} NothingAbove(v: Any, p: seq<string>)
    requires Wordy(p)
    ensures Clear(map[LIST_PATH := v], p)
  {
    hide WalkWrites, Digit, Join;
    WordsEndBefore(p);
    forall w, j: nat | j < |p|
      ensures !MapReaches(map[LIST_PATH := v], p, j, w)
    {
      assert p[..j] <= p;
    }
  }

  lemma {:induction false} SeenAsList(v: Any)
    ensures Seen(map[LIST_PATH := v], ["llm", "token_count", "prompt"]) == Some(List([]))
  {
    hide Digit;
    assert Digit("0") == Some(0) by {
      assert Itoa(0) == "0";
      DigitIsItoa("0", 0);
    }
    var p := ["llm", "token_count", "prompt"];
    assert p < LIST_PATH && LIST_PATH[3] == "0" && LIST_PATH in map[LIST_PATH := v];
  }

  lemma {:induction false} NothingSeen(v: Any, p: seq<string>)
    requires Wordy(p) && !(p <= LIST_PATH)
    ensures Seen(map[LIST_PATH := v], p) == None
  {
    hide Digit, Indexes;
  }

  /** Of the keys that are read only the prompt count lies on the way to that key. */
  lemma {:induction false} NotOnTheWay(k: string)
    requires k in READ_KEYS && k != PROMPT && Wordy(Path(k)) && Path(k) != [] && Join(Path(k)) == k
    ensures !(Path(k) <= LIST_PATH)
  {
    hide Path, Digit, Join, Wordy;
    var p := Path(k);
    ConventionKeysDiffer();
    OtherKeyLengths();
    if p <= LIST_PATH {
      WordsEndBefore(p);
      assert p == LIST_PATH[..|p|];
      FirstSpellings();
    }
  }

  lemma {:induction false} OtherKeyLengths()
    ensures |SESSION| == 10 && |USER| == 7 && |PARAMS| == 25
  {}

  lemma {:induction false} FirstSpellings()
    ensures |Join(LIST_PATH[..1])| == 3 && |Join(LIST_PATH[..2])| == 15 && Join(LIST_PATH[..3]) == PROMPT
  {
    hide Path;
    assert LIST_PATH[..1] == ["llm"] && LIST_PATH[..2] == ["llm"] + ["token_count"];
    assert LIST_PATH[..3] == ["llm", "token_count", "prompt"];
    InFront("llm", ["token_count"]);
    CountKeysAreWords();
    WordKeyPath(PROMPT);
  }

  lemma {:induction false} ListUsage(v: Any, lower: string -> string, e: Extracted)
    requires AnswersClearly(map[LIST_PATH := v], map[GENAI_INPUT := Whole(5), GENAI_OUTPUT := Whole(7)], lower, e)
    ensures e.usage == Some(Tables.TokenUsage(0, 7, 12, 0, 0))
  {
    hide Synthesized, Shown, Explicit, Stands;
    var flat: Attrs := map[GENAI_INPUT := Whole(5), GENAI_OUTPUT := Whole(7)];
    var s: Content := map[LIST_PATH := v];
    var syn :| Synthesized(flat, lower, syn) && e == Extract(if syn == map[] then Shown(s) else syn + Explicit(s));
    ListClear(v);
    SomethingSynthesized(lower, syn);
    ListOverCounts(lower, syn);
  }

  lemma {:induction false} SomethingSynthesized(lower: string -> string, syn: Attrs)
    requires Synthesized(map[GENAI_INPUT := Whole(5), GENAI_OUTPUT := Whole(7)], lower, syn)
    ensures syn != map[]
  {
    hide Synthesized, Stands, AsInt, Str;
    var flat: Attrs := map[GENAI_INPUT := Whole(5), GENAI_OUTPUT := Whole(7)];
    TwoCounts();
    StandsEach(flat, lower);
    SynthesizedAt(flat, lower, syn, PROMPT);
  }

  lemma {:induction false} ListOverCounts(lower: string -> string, syn: Attrs)
    requires Synthesized(map[GENAI_INPUT := Whole(5), GENAI_OUTPUT := Whole(7)], lower, syn)
    ensures ExtractUsage(syn + map[PROMPT := List([])]) == Some(Tables.TokenUsage(0, 7, 12, 0, 0))
  {
    hide Synthesized;
    var flat: Attrs, explicit: Attrs := map[GENAI_INPUT := Whole(5), GENAI_OUTPUT := Whole(7)], map[PROMPT := List([])];
    TwoCounts();
    IntegersDecided(flat, lower, syn, explicit);
    ConventionKeysDiffer();
    hide AsInt;
  }
}
