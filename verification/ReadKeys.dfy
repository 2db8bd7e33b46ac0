/** The keys that extraction reads: each spells its path, and no path has a numeral. */
module ReadKeys {
  import opened Prelude
  import opened Keys
  import opened WordWalk
  import opened Words
  import opened Semconv

  const READ_KEYS := {MODEL, PARAMS, PROMPT, COMPLETION, TOTAL, CACHE_READ, CACHE_WRITE, SESSION, USER}

  /** A key that spells its path, which has no numerals. */
  predicate IsWordKey(k: string) {
    Path(k) != [] && Wordy(Path(k)) && Join(Path(k)) == k
  }

  lemma {:induction false} SpelledWords(p: seq<string>, k: string)
    requires p != [] && Join(p) == k && forall i | 0 <= i < |p| :: GoodSeg(p[i]) && Digit(p[i]) == None
    ensures IsWordKey(k) && Path(k) == p
  {
    hide GoodSeg, Digit, Path, Join;
    PathOfJoin(p);
  }

  /** One more segment in front of a spelled path. */
  lemma {:induction false} InFront(a: string, rest: seq<string>)
    requires rest != []
    ensures Join([a] + rest) == a + "." + Join(rest)
  {
    assert ([a] + rest)[1..] == rest;
  }

  lemma {:induction false} PairKey(a: string, b: string)
    requires GoodSeg(a) && Digit(a) == None && GoodSeg(b) && Digit(b) == None
    ensures IsWordKey(a + "." + b) && Path(a + "." + b) == [a, b]
  {
    hide GoodSeg, Digit, IsWordKey, Path;
    InFront(a, [b]);
    assert [a] + [b] == [a, b];
    SpelledWords([a, b], a + "." + b);
  }

  lemma {:induction false} CountKey(w: string)
    requires GoodSeg(w) && Digit(w) == None
    ensures IsWordKey("llm.token_count." + w) && Path("llm.token_count." + w) == ["llm", "token_count", w]
  {
    hide GoodSeg, Digit, IsWordKey, Path, Join;
    PlainWord("llm");
    PlainWord("token_count");
    CountSpelling(w);
    SpelledWords(["llm", "token_count", w], "llm.token_count." + w);
  }

  lemma {:induction false} CountSpelling(w: string)
    ensures Join(["llm", "token_count", w]) == "llm.token_count." + w
  {
    hide Join;
    InFront("token_count", [w]);
    InFront("llm", ["token_count"] + [w]);
    JoinOne(w);
    assert ["llm"] + (["token_count"] + [w]) == ["llm", "token_count", w];
    assert "llm" + "." + ("token_count" + "." + w) == "llm.token_count." + w;
  }

  lemma {:induction false} DetailKey(w: string)
    requires GoodSeg(w) && Digit(w) == None
    ensures IsWordKey("llm.token_count." + ("prompt_details." + w))
  {
    hide GoodSeg, Digit, IsWordKey, Path, Join;
    PlainWord("llm");
    PlainWord("token_count");
    PlainWord("prompt_details");
    var details := ["prompt_details"] + [w];
    DetailSpelling(w);
    SpelledWords(["llm"] + (["token_count"] + details), "llm.token_count." + ("prompt_details." + w));
  }

  lemma {:induction false} DetailSpelling(w: string)
    ensures Join(["llm"] + (["token_count"] + (["prompt_details"] + [w]))) ==
            "llm.token_count." + ("prompt_details." + w)
  {
    hide Join;
    var details := ["prompt_details"] + [w];
    InFront("prompt_details", [w]);
    InFront("token_count", details);
    InFront("llm", ["token_count"] + details);
    JoinOne(w);
    assert "prompt_details" + "." + w == "prompt_details." + w;
    assert "llm" + "." + ("token_count" + "." + ("prompt_details." + w)) ==
      "llm.token_count." + ("prompt_details." + w);
  }

  lemma {:induction false} ModelIsWord()
    ensures IsWordKey(MODEL)
  {
    hide GoodSeg, Digit, IsWordKey, Path;
    PlainWord("llm");
    PlainWord("model_name");
    PairKey("llm", "model_name");
    assert "llm" + "." + "model_name" == MODEL;
  }

  lemma {:induction false} ParamsIsWord()
    ensures IsWordKey(PARAMS)
  {
    hide GoodSeg, Digit, IsWordKey, Path;
    PlainWord("llm");
    ParametersWord();
    PairKey("llm", "invocation_parameters");
    ParamsSpelling();
  }

  lemma {:induction false} ParametersWord()
    ensures GoodSeg("invocation_parameters") && Digit("invocation_parameters") == None
  {
    hide GoodSeg, Digit;
    PlainWord("invocation_parameters");
  }

  lemma {:induction false} ParamsSpelling()
    ensures "llm" + "." + "invocation_parameters" == PARAMS
  {}

  lemma {:induction false} IdKeysAreWords()
    ensures IsWordKey(SESSION) && IsWordKey(USER)
  {
    hide GoodSeg, Digit, IsWordKey, Path;
    PlainWord("id");
    PlainWord("session");
    PlainWord("user");
    PairKey("session", "id");
    PairKey("user", "id");
    assert "session" + "." + "id" == SESSION && "user" + "." + "id" == USER;
  }

  lemma {:induction false} CountKeysAreWords()
    ensures IsWordKey(PROMPT) && IsWordKey(COMPLETION) && IsWordKey(TOTAL)
    ensures Path(PROMPT) == ["llm", "token_count", "prompt"]
  {
    hide GoodSeg, Digit, IsWordKey, Path;
    PlainWord("prompt");
    PlainWord("completion");
    PlainWord("total");
    CountKey("prompt");
    CountKey("completion");
    CountKey("total");
    assert "llm.token_count." + "prompt" == PROMPT && "llm.token_count." + "completion" == COMPLETION;
    assert "llm.token_count." + "total" == TOTAL;
  }

  lemma {:induction false} CacheReadIsWord()
    ensures IsWordKey(CACHE_READ)
  {
    hide GoodSeg, Digit, IsWordKey;
    PlainWord("cache_read");
    DetailKey("cache_read");
    CacheReadSpelling();
  }

  lemma {:induction false} CacheWriteIsWord()
    ensures IsWordKey(CACHE_WRITE)
  {
    hide GoodSeg, Digit, IsWordKey;
    PlainWord("cache_write");
    DetailKey("cache_write");
    CacheWriteSpelling();
  }

  lemma {:induction false} CacheReadSpelling()
    ensures "llm.token_count." + ("prompt_details." + "cache_read") == CACHE_READ
  {}

  lemma {:induction false} CacheWriteSpelling()
    ensures "llm.token_count." + ("prompt_details." + "cache_write") == CACHE_WRITE
  {}

  lemma {:induction false} ReadKeysAreWords()
    ensures forall k | k in READ_KEYS :: IsWordKey(k)
  {
    hide IsWordKey, Path;
    ModelIsWord();
    ParamsIsWord();
    IdKeysAreWords();
    CountKeysAreWords();
    CacheReadIsWord();
    CacheWriteIsWord();
    forall k | k in READ_KEYS
      ensures IsWordKey(k)
    {
      assert k == MODEL || k == PARAMS || k == SESSION || k == USER || k == PROMPT || k == COMPLETION || k == TOTAL
          || k == CACHE_READ || k == CACHE_WRITE;
    }
  }
}
