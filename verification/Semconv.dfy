/** Token usage, model and identities read off the attributes, with gen_ai.* attributes filling in. */
module Semconv {
  import opened Prelude
  import opened Text
  import opened Keys
  import opened Trie
  import opened RoundTrip
  import opened Unflatten
  import Tables

  type Attrs = map<string, Any>

  const SPAN_KIND := "openinference.span.kind"
  const MODEL := "llm.model_name"
  const PARAMS := "llm.invocation_parameters"
  const PROMPT := "llm.token_count.prompt"
  const COMPLETION := "llm.token_count.completion"
  const TOTAL := "llm.token_count.total"
  const CACHE_READ := "llm.token_count.prompt_details.cache_read"
  const CACHE_WRITE := "llm.token_count.prompt_details.cache_write"
  const SESSION := "session.id"
  const USER := "user.id"

  const GENAI := "gen_ai."
  const GENAI_OPERATION := "gen_ai.operation.name"
  const GENAI_REQUEST_MODEL := "gen_ai.request.model"
  const GENAI_RESPONSE_MODEL := "gen_ai.response.model"
  const GENAI_INPUT := "gen_ai.usage.input_tokens"
  const GENAI_OUTPUT := "gen_ai.usage.output_tokens"
  const GENAI_CACHE_READ := "gen_ai.usage.cache_read.input_tokens"
  const GENAI_CACHE_WRITE := "gen_ai.usage.cache_creation.input_tokens"

  // ----- reading -----

  /** The string at a top-level key. */
  function Str(m: Attrs, key: string): Option<string> {
    if key in m && m[key].Text? then Some(m[key].s) else None
  }

  /** Conversion of a float to an int cuts the fraction off, towards zero. */
  function Truncate(r: real): int {
    if r >= 0.0 then r.Floor else -(-r).Floor
  }

  /** asInt: the integer a value at a top-level key can be taken for. */
  function AsInt(m: Attrs, key: string): Option<int> {
    if key !in m then None
    else match m[key]
      case Whole(n) => Some(n)
      case Float(r) => Some(Truncate(r))
      case Text(s) => ParseInt(Trim(s))
      case _ => None
  }

  datatype Extracted = Extracted(
    usage: Option<Tables.TokenUsage>, model: string, session: string, user: string, params: string)

  function ExtractUsage(m: Attrs): Option<Tables.TokenUsage> {
    UsageOf(AsInt(m, PROMPT), AsInt(m, COMPLETION), AsInt(m, TOTAL), AsInt(m, CACHE_READ), AsInt(m, CACHE_WRITE))
  }

  /** The accounting made of what could be read; a missing total is derived from the sides there are. */
  function UsageOf(
    prompt: Option<int>, completion: Option<int>, total: Option<int>, cacheRead: Option<int>, cacheWrite: Option<int>)
    : Option<Tables.TokenUsage>
  {
    if prompt.None? && completion.None? && total.None? && cacheRead.GetOr(0) == 0 && cacheWrite.GetOr(0) == 0 then None
    else Some(Tables.TokenUsage(
                prompt.GetOr(0), completion.GetOr(0),
                if total.Some? then total.value
                else if prompt.Some? && completion.Some? then prompt.value + completion.value
                else if prompt.Some? then prompt.value
                else completion.GetOr(0),
                cacheRead.GetOr(0), cacheWrite.GetOr(0)))
  }

  function Extract(m: Attrs): Extracted {
    Extracted(ExtractUsage(m), Str(m, MODEL).GetOr(""), Str(m, SESSION).GetOr(""), Str(m, USER).GetOr(""),
      Str(m, PARAMS).GetOr(""))
  }

  // ----- what is read -----

  /** n is r without its fraction, cut off towards zero. */
  predicate CutTo(r: real, n: int) {
    if r >= 0.0 then n >= 0 && n as real <= r < n as real + 1.0
    else n <= 0 && n as real - 1.0 < r <= n as real
  }

  /** n can be taken from a value: an integer itself, a float cut off, a 64-bit numeral between spaces. */
  ghost predicate Reads(v: Any, n: int) {
    match v
    case Whole(w) => n == w
    case Float(r) => CutTo(r, n)
    case Text(s) => Spells(Trim(s), n) && -INT64_MAX - 1 <= n <= INT64_MAX
    case _ => false
  }

  lemma {:induction false} AsIntIff(m: Attrs, key: string, n: int)
    ensures AsInt(m, key) == Some(n) <==> key in m && Reads(m[key], n)
  {
    hide Trim, ParseInt, Spells;
    if key in m && m[key].Text? {
      ParseIntIff(Trim(m[key].s), n);
    }
  }

  /** The text at a key, or nothing where there is none or another kind of value. */
  predicate TextAt(m: Attrs, key: string, s: string) {
    if key in m && m[key].Text? then s == m[key].s else s == ""
  }

  /**
   The usage made of the counts that could be read: none without any, otherwise each count or zero, and
   a missing total is the sum of both sides, or the one side there is.
   */
  predicate Accounts(
    usage: Option<Tables.TokenUsage>, prompt: Option<int>, completion: Option<int>, total: Option<int>,
    cacheRead: Option<int>, cacheWrite: Option<int>)
  {
    && (usage.None? <==> prompt.None? && completion.None? && total.None?
                         && cacheRead.GetOr(0) == 0 && cacheWrite.GetOr(0) == 0)
    && (usage.Some? ==>
          && usage.value.prompt == prompt.GetOr(0) && usage.value.completion == completion.GetOr(0)
          && usage.value.cacheRead == cacheRead.GetOr(0) && usage.value.cacheWrite == cacheWrite.GetOr(0)
          && (total.Some? ==> usage.value.total == total.value)
          && (total.None? ==> usage.value.total == usage.value.prompt + usage.value.completion))
  }

  /** What extraction takes from where. */
  lemma {:induction false} ExtractReads(m: Attrs)
    ensures Accounts(Extract(m).usage, AsInt(m, "llm.token_count.prompt"), AsInt(m, "llm.token_count.completion"),
                     AsInt(m, "llm.token_count.total"), AsInt(m, "llm.token_count.prompt_details.cache_read"),
                     AsInt(m, "llm.token_count.prompt_details.cache_write"))
    ensures TextAt(m, "llm.model_name", Extract(m).model)
    ensures TextAt(m, "session.id", Extract(m).session) && TextAt(m, "user.id", Extract(m).user)
    ensures TextAt(m, "llm.invocation_parameters", Extract(m).params)
  {
    hide AsInt;
  }

  // ----- synthesis -----

  function SpanKind(operation: string): Option<string> {
    match operation
    case "chat" => Some("LLM")
    case "text_completion" => Some("LLM")
    case "embeddings" => Some("EMBEDDING")
    case "execute_tool" => Some("TOOL")
    case "create_agent" => Some("AGENT")
    case "invoke_agent" => Some("AGENT")
    case "retrieval" => Some("RETRIEVER")
    case _ => None
  }

  function OptText(s: Option<string>): Option<Any> {
    if s.Some? then Some(Text(s.value)) else None
  }

  function OptWhole(n: Option<int>): Option<Any> {
    if n.Some? then Some(Whole(n.value)) else None
  }

  /** The value gen_ai attributes stand for under a convention key; `lower` is strings.ToLower. */
  function Stands(flat: Attrs, lower: string -> string, key: string): Option<Any> {
    if key == SPAN_KIND then
      match Str(flat, GENAI_OPERATION) {
        case Some(op) => OptText(SpanKind(lower(op)))
        case None => None
      }
    else if key == MODEL then
      if Str(flat, GENAI_REQUEST_MODEL).Some? then OptText(Str(flat, GENAI_REQUEST_MODEL))
      else OptText(Str(flat, GENAI_RESPONSE_MODEL))
    else if key == PROMPT then OptWhole(AsInt(flat, GENAI_INPUT))
    else if key == COMPLETION then OptWhole(AsInt(flat, GENAI_OUTPUT))
    else if key == TOTAL then
      if AsInt(flat, GENAI_INPUT).Some? && AsInt(flat, GENAI_OUTPUT).Some?
      then Some(Whole(AsInt(flat, GENAI_INPUT).value + AsInt(flat, GENAI_OUTPUT).value))
      else None
    else if key == CACHE_READ then OptWhole(AsInt(flat, GENAI_CACHE_READ))
    else if key == CACHE_WRITE then OptWhole(AsInt(flat, GENAI_CACHE_WRITE))
    else None
  }

  /** Which operations stand for which kind of span. */
  predicate NamesKind(operation: string, kind: string) {
    || (operation in {"chat", "text_completion"} && kind == "LLM")
    || (operation in {"create_agent", "invoke_agent"} && kind == "AGENT")
    || (operation == "embeddings" && kind == "EMBEDDING")
    || (operation == "execute_tool" && kind == "TOOL")
    || (operation == "retrieval" && kind == "RETRIEVER")
  }

  lemma {:induction false} SpanKindIff(operation: string, kind: string)
    ensures SpanKind(operation) == Some(kind) <==> NamesKind(operation, kind)
  {}

  /** Synthesized keys and nothing else, each with what it stands for. */
  ghost predicate Synthesized(flat: Attrs, lower: string -> string, syn: Attrs) {
    forall key :: (if key in syn then Some(syn[key]) else None) == Stands(flat, lower, key)
  }

  /** The span kind synthesized is the one the operation stands for, in whatever case it is written. */
  lemma {:induction false} KindIsSynthesized(flat: Attrs, lower: string -> string, syn: Attrs, kind: string)
    requires Synthesized(flat, lower, syn)
    ensures SPAN_KIND in syn && syn[SPAN_KIND] == Text(kind) <==>
            && "gen_ai.operation.name" in flat && flat["gen_ai.operation.name"].Text?
            && NamesKind(lower(flat["gen_ai.operation.name"].s), kind)
  {
    hide Synthesized, SpanKind, NamesKind, Stands;
    SynthesizedAt(flat, lower, syn, SPAN_KIND);
    StandsEach(flat, lower);
    if Str(flat, GENAI_OPERATION).Some? {
      SpanKindIff(lower(Str(flat, GENAI_OPERATION).value), kind);
    }
  }

  lemma {:induction false} SynthesisIsUnique(flat: Attrs, lower: string -> string, a: Attrs, b: Attrs)
    requires Synthesized(flat, lower, a) && Synthesized(flat, lower, b)
    ensures a == b
  {
    hide Stands;
    forall key: string
      ensures key in a <==> key in b
      ensures key in a && key in b ==> a[key] == b[key]
    {
      assert (if key in a then Some(a[key]) else None) == Stands(flat, lower, key);
      assert (if key in b then Some(b[key]) else None) == Stands(flat, lower, key);
    }
  }

  predicate HasPrefix(s: string, prefix: string) {
    |prefix| <= |s| && s[..|prefix|] == prefix
  }

  lemma {:induction false} ConventionKeysDiffer()
    ensures |SPAN_KIND| == 23 && |MODEL| == 14 && |PROMPT| == 22 && |COMPLETION| == 26 && |TOTAL| == 21
    ensures |CACHE_READ| == 41 && |CACHE_WRITE| == 42
  {}

  lemma {:induction false} SourcesHavePrefix()
    ensures HasPrefix(GENAI_OPERATION, GENAI) && HasPrefix(GENAI_REQUEST_MODEL, GENAI) &&
            HasPrefix(GENAI_RESPONSE_MODEL, GENAI)
    ensures HasPrefix(GENAI_INPUT, GENAI) && HasPrefix(GENAI_OUTPUT, GENAI)
    ensures HasPrefix(GENAI_CACHE_READ, GENAI) && HasPrefix(GENAI_CACHE_WRITE, GENAI)
  {}

  /** The early exit gives what the full synthesis would. */
  lemma {:induction false} NothingToSynthesize(flat: Attrs, lower: string -> string)
    requires forall k | k in flat :: !HasPrefix(k, GENAI)
    ensures Synthesized(flat, lower, map[])
  {
    hide HasPrefix, Trim, ParseInt, SpanKind;
    SourcesHavePrefix();
    assert GENAI_OPERATION !in flat && GENAI_REQUEST_MODEL !in flat && GENAI_RESPONSE_MODEL !in flat;
    assert GENAI_INPUT !in flat && GENAI_OUTPUT !in flat && GENAI_CACHE_READ !in flat && GENAI_CACHE_WRITE !in flat;
    forall key: string
      ensures Stands(flat, lower, key) == None
    {}
  }

  method SynthesizeFromGenAI(flat: Attrs, lower: string -> string) returns (syn: Attrs)
    ensures Synthesized(flat, lower, syn)
  {
    hide AsInt, HasPrefix, SpanKind;
    var has := false;
    var todo := flat.Keys;
    while todo != {} && !has
      invariant todo <= flat.Keys
      invariant !has ==> forall k | k in flat && k !in todo :: !HasPrefix(k, GENAI)
      decreases |todo|
    {
      var k :| k in todo;
      has := HasPrefix(k, GENAI);
      todo := todo - {k};
    }
    if !has {
      NothingToSynthesize(flat, lower);
      return map[];
    }
    syn := Synthesize(flat, lower);
  }

  /** Filled in so far: the keys in done. */
  ghost predicate FilledIn(flat: Attrs, lower: string -> string, done: set<string>, syn: Attrs) {
    syn.Keys <= done && forall key | key in done ::
      (if key in syn then Some(syn[key]) else None) == Stands(flat, lower, key)
  }

  lemma {:induction false} FillNext(
    flat: Attrs, lower: string -> string, done: set<string>, before: Attrs, key: string, syn: Attrs)
    requires FilledIn(flat, lower, done, before)
    requires match Stands(flat, lower, key) case Some(v) => syn == before[key := v] case None => syn == before
    ensures FilledIn(flat, lower, done + {key}, syn)
  {
    hide Stands;
  }

  lemma {:induction false} AllFilledIn(flat: Attrs, lower: string -> string, done: set<string>, syn: Attrs)
    requires FilledIn(flat, lower, done, syn)
    requires done == {SPAN_KIND} + {MODEL} + {PROMPT} + {COMPLETION} + {TOTAL} + {CACHE_READ} + {CACHE_WRITE}
    ensures Synthesized(flat, lower, syn)
  {
    hide AsInt, SpanKind, Str;
    forall key: string
      ensures key !in done ==> Stands(flat, lower, key) == None
    {}
  }

  lemma {:induction false} StandsEach(flat: Attrs, lower: string -> string)
    ensures Stands(flat, lower, SPAN_KIND) ==
            if Str(flat, GENAI_OPERATION).Some?
              then OptText(SpanKind(lower(Str(flat, GENAI_OPERATION).value))) else None
    ensures Stands(flat, lower, MODEL) ==
            OptText(if Str(flat, GENAI_REQUEST_MODEL).Some?
              then Str(flat, GENAI_REQUEST_MODEL) else Str(flat, GENAI_RESPONSE_MODEL))
    ensures Stands(flat, lower, PROMPT) == OptWhole(AsInt(flat, GENAI_INPUT))
    ensures Stands(flat, lower, COMPLETION) == OptWhole(AsInt(flat, GENAI_OUTPUT))
    ensures Stands(flat, lower, TOTAL) ==
            if AsInt(flat, GENAI_INPUT).Some? && AsInt(flat, GENAI_OUTPUT).Some?
            then Some(Whole(AsInt(flat, GENAI_INPUT).value + AsInt(flat, GENAI_OUTPUT).value)) else None
    ensures Stands(flat, lower, CACHE_READ) == OptWhole(AsInt(flat, GENAI_CACHE_READ))
    ensures Stands(flat, lower, CACHE_WRITE) == OptWhole(AsInt(flat, GENAI_CACHE_WRITE))
  {
    hide AsInt, SpanKind, Str;
    ConventionKeysDiffer();
  }

  /** The entries, filled in one by one. */
  method Synthesize(flat: Attrs, lower: string -> string) returns (syn: Attrs)
    ensures Synthesized(flat, lower, syn)
  {
    hide AsInt, SpanKind, Str, Stands, FilledIn, Synthesized;
    StandsEach(flat, lower);
    syn := map[];
    ghost var before, done := syn, {};
    NothingFilledIn(flat, lower);
    var operation := Str(flat, GENAI_OPERATION);
    if operation.Some? {
      var mapped := SpanKind(lower(operation.value));
      if mapped.Some? {
        syn := syn[SPAN_KIND := Text(mapped.value)];
      }
    }
    FillNext(flat, lower, done, before, SPAN_KIND, syn);
    before, done := syn, done + {SPAN_KIND};
    var request, response := Str(flat, GENAI_REQUEST_MODEL), Str(flat, GENAI_RESPONSE_MODEL);
    if request.Some? {
      syn := syn[MODEL := Text(request.value)];
    } else if response.Some? {
      syn := syn[MODEL := Text(response.value)];
    }
    FillNext(flat, lower, done, before, MODEL, syn);
    before, done := syn, done + {MODEL};
    var prompt, completion := AsInt(flat, GENAI_INPUT), AsInt(flat, GENAI_OUTPUT);
    if prompt.Some? {
      syn := syn[PROMPT := Whole(prompt.value)];
    }
    FillNext(flat, lower, done, before, PROMPT, syn);
    before, done := syn, done + {PROMPT};
    if completion.Some? {
      syn := syn[COMPLETION := Whole(completion.value)];
    }
    FillNext(flat, lower, done, before, COMPLETION, syn);
    before, done := syn, done + {COMPLETION};
    if prompt.Some? && completion.Some? {
      syn := syn[TOTAL := Whole(prompt.value + completion.value)];
    }
    FillNext(flat, lower, done, before, TOTAL, syn);
    before, done := syn, done + {TOTAL};
    var cacheRead, cacheWrite := AsInt(flat, GENAI_CACHE_READ), AsInt(flat, GENAI_CACHE_WRITE);
    if cacheRead.Some? {
      syn := syn[CACHE_READ := Whole(cacheRead.value)];
    }
    FillNext(flat, lower, done, before, CACHE_READ, syn);
    before, done := syn, done + {CACHE_READ};
    if cacheWrite.Some? {
      syn := syn[CACHE_WRITE := Whole(cacheWrite.value)];
    }
    FillNext(flat, lower, done, before, CACHE_WRITE, syn);
    AllFilledIn(flat, lower, done + {CACHE_WRITE}, syn);
  }

  lemma {:induction false} NothingFilledIn(flat: Attrs, lower: string -> string)
    ensures FilledIn(flat, lower, {}, map[])
  {}

  // ----- merging -----

  /** The loop that lays one map over another, entry by entry. */
  method LayOver(base: Attrs, top: Attrs) returns (merged: Attrs)
    ensures merged == base + top
  {
    merged := base;
    var todo := top.Keys;
    while todo != {}
      invariant todo <= top.Keys
      invariant merged == base + Only(top, top.Keys - todo)
      decreases |todo|
    {
      var k :| k in todo;
      LayOne(base, top, top.Keys - todo, k);
      merged := merged[k := top[k]];
      assert top.Keys - (todo - {k}) == top.Keys - todo + {k};
      todo := todo - {k};
    }
    assert top.Keys - todo == top.Keys;
    assert Only(top, top.Keys) == top;
  }

  lemma {:induction false} LayOne(base: Attrs, top: Attrs, done: set<string>, k: string)
    requires k in top
    ensures base + Only(top, done + {k}) == (base + Only(top, done))[k := top[k]]
  {}

  /** Extraction from the flattened attributes laid over a synthesis: clashing flattened keys leave a choice. */
  ghost predicate Overlaid(nested: Attrs, syn: Attrs, e: Extracted) {
    exists explicit :: Flattens(nested, explicit) && e == Extract(syn + explicit)
  }

  /** What Merge answers. */
  ghost predicate Merged(nested: Attrs, flat: Attrs, lower: string -> string, e: Extracted) {
    exists syn :: Synthesized(flat, lower, syn) && if syn == map[]
      then e == Extract(nested) else Overlaid(nested, syn, e)
  }

  method Merge(nested: Attrs, flat: Attrs, lower: string -> string) returns (e: Extracted)
    ensures Merged(nested, flat, lower, e)
  {
    hide Flattens, Synthesized, Extract, Overlaid;
    var syn := SynthesizeFromGenAI(flat, lower);
    if |syn| == 0 {
      e := Extract(nested);
    } else {
      e := ExtractMerged(nested, syn);
    }
  }

  method ExtractMerged(nested: Attrs, syn: Attrs) returns (e: Extracted)
    ensures Overlaid(nested, syn, e)
  {
    hide Flattens, Extract;
    var merged := LayOver(map[], syn);
    assert merged == syn;
    var explicit := FlattenTopLevel(nested);
    merged := LayOver(merged, explicit);
    e := Extract(merged);
  }

  // ----- what wins -----

  /** The integer read under a key: the explicit one if the key is there, coercible or not. */
  function Decided(explicit: Attrs, key: string, synthesized: Option<int>): Option<int> {
    if key in explicit then AsInt(explicit, key) else synthesized
  }

  /** The total that two gen_ai counts synthesize. */
  function Both(input: Option<int>, output: Option<int>): Option<int> {
    if input.Some? && output.Some? then Some(input.value + output.value) else None
  }

  lemma {:induction false} IntegersDecided(flat: Attrs, lower: string -> string, syn: Attrs, explicit: Attrs)
    requires Synthesized(flat, lower, syn)
    ensures var m := syn + explicit;
            && AsInt(m, PROMPT) == Decided(explicit, PROMPT, AsInt(flat, GENAI_INPUT))
            && AsInt(m, COMPLETION) == Decided(explicit, COMPLETION, AsInt(flat, GENAI_OUTPUT))
            && AsInt(m, TOTAL) == Decided(explicit, TOTAL, Both(AsInt(flat, GENAI_INPUT), AsInt(flat, GENAI_OUTPUT)))
            && AsInt(m, CACHE_READ) == Decided(explicit, CACHE_READ, AsInt(flat, GENAI_CACHE_READ))
            && AsInt(m, CACHE_WRITE) == Decided(explicit, CACHE_WRITE, AsInt(flat, GENAI_CACHE_WRITE))
  {
    hide Synthesized, Stands;
    StandsEach(flat, lower);
    IntegerDecided(flat, lower, syn, explicit, PROMPT, AsInt(flat, GENAI_INPUT));
    IntegerDecided(flat, lower, syn, explicit, COMPLETION, AsInt(flat, GENAI_OUTPUT));
    IntegerDecided(flat, lower, syn, explicit, TOTAL, Both(AsInt(flat, GENAI_INPUT), AsInt(flat, GENAI_OUTPUT)));
    IntegerDecided(flat, lower, syn, explicit, CACHE_READ, AsInt(flat, GENAI_CACHE_READ));
    IntegerDecided(flat, lower, syn, explicit, CACHE_WRITE, AsInt(flat, GENAI_CACHE_WRITE));
  }

  lemma {:induction false} IntegerDecided(
    flat: Attrs, lower: string -> string, syn: Attrs, explicit: Attrs, key: string, n: Option<int>)
    requires Synthesized(flat, lower, syn) && Stands(flat, lower, key) == OptWhole(n)
    ensures AsInt(syn + explicit, key) == Decided(explicit, key, n)
  {
    hide Stands, Trim, ParseInt, Synthesized;
    SynthesizedAt(flat, lower, syn, key);
  }

  /**
   An explicit key decides by being there, coercible or not; gen_ai attributes are read only where it
   is missing. Session, user and parameters are never synthesized.
   */
  lemma {:induction false} ExplicitKeysDecide(flat: Attrs, lower: string -> string, syn: Attrs, explicit: Attrs)
    requires Synthesized(flat, lower, syn)
    ensures var e, input, output := Extract(syn + explicit), AsInt(flat, "gen_ai.usage.input_tokens"),
            AsInt(flat, "gen_ai.usage.output_tokens");
            && Accounts(
                 e.usage, Decided(explicit, PROMPT, input), Decided(explicit, COMPLETION, output),
                 Decided(explicit, TOTAL, Both(input, output)),
                 Decided(explicit, CACHE_READ, AsInt(flat, "gen_ai.usage.cache_read.input_tokens")),
                 Decided(explicit, CACHE_WRITE, AsInt(flat, "gen_ai.usage.cache_creation.input_tokens")))
            && TextAt(explicit, SESSION, e.session)
            && TextAt(explicit, USER, e.user)
            && TextAt(explicit, PARAMS, e.params)
            && e.model == (
                 if MODEL in explicit then Str(explicit, MODEL).GetOr("")
                 else Str(flat, "gen_ai.request.model").GetOr(Str(flat, "gen_ai.response.model").GetOr("")))
  {
    hide AsInt, SpanKind, Synthesized, UsageOf, Accounts, Decided, Both;
    ExtractReads(syn + explicit);
    IntegersDecided(flat, lower, syn, explicit);
    ConventionKeysDiffer();
    SynthesizedAt(flat, lower, syn, MODEL);
    assert |SESSION| == 10 && |USER| == 7 && |PARAMS| == 25;
    SynthesizedAt(flat, lower, syn, SESSION);
    SynthesizedAt(flat, lower, syn, USER);
    SynthesizedAt(flat, lower, syn, PARAMS);
  }

  lemma {:induction false} SynthesizedAt(flat: Attrs, lower: string -> string, syn: Attrs, key: string)
    requires Synthesized(flat, lower, syn)
    ensures (if key in syn then Some(syn[key]) else None) == Stands(flat, lower, key)
  {}

  /**
   With both gen_ai counts given the total is theirs unless given explicitly, also when an explicit
   prompt or completion replaces one of them. Then it is the sum of the two counts reported only if
   that one agrees with the count it replaces, or the two together make up the same sum.
   */
  lemma {:induction false} TotalIsTheSumIff(flat: Attrs, lower: string -> string, syn: Attrs, explicit: Attrs)
    requires Synthesized(flat, lower, syn) && TOTAL !in explicit
    requires AsInt(flat, GENAI_INPUT).Some? && AsInt(flat, GENAI_OUTPUT).Some?
    ensures ExtractUsage(syn + explicit).Some?
    ensures var u := ExtractUsage(syn + explicit).value;
            var input, output := AsInt(flat, GENAI_INPUT).value, AsInt(flat, GENAI_OUTPUT).value;
            var prompt, completion := AsInt(explicit, PROMPT).GetOr(0), AsInt(explicit, COMPLETION).GetOr(0);
            && u.total == input + output
            && (PROMPT !in explicit && COMPLETION !in explicit ==> u.total == u.prompt + u.completion)
            && (PROMPT in explicit && COMPLETION !in explicit ==>
                  (u.total == u.prompt + u.completion <==> prompt == input))
            && (PROMPT !in explicit && COMPLETION in explicit ==>
                  (u.total == u.prompt + u.completion <==> completion == output))
            && (PROMPT in explicit && COMPLETION in explicit ==>
                  (u.total == u.prompt + u.completion <==> prompt + completion == input + output))
  {
    IntegersDecided(flat, lower, syn, explicit);
    hide AsInt, Synthesized;
  }

  /** An explicit prompt of 10 over gen_ai counts of 5 and 7: the total reported is 12, the counts are 10 and 7. */
  lemma {:induction false} TotalIsNotTheSum(lower: string -> string, syn: Attrs)
    requires Synthesized(map[GENAI_INPUT := Whole(5), GENAI_OUTPUT := Whole(7)], lower, syn)
    ensures ExtractUsage(syn + map[PROMPT := Whole(10)]) == Some(Tables.TokenUsage(10, 7, 12, 0, 0))
  {
    hide Synthesized;
    var flat: Attrs, explicit: Attrs := map[GENAI_INPUT := Whole(5), GENAI_OUTPUT := Whole(7)],
      map[PROMPT := Whole(10)];
    TwoCounts();
    IntegersDecided(flat, lower, syn, explicit);
    ConventionKeysDiffer();
    hide AsInt;
  }

  lemma {:induction false} TwoCounts()
    ensures var flat: Attrs := map[GENAI_INPUT := Whole(5), GENAI_OUTPUT := Whole(7)];
            && AsInt(flat, GENAI_INPUT) == Some(5) && AsInt(flat, GENAI_OUTPUT) == Some(7)
            && AsInt(flat, GENAI_CACHE_READ) == None && AsInt(flat, GENAI_CACHE_WRITE) == None
  {
    SourceKeysDiffer();
  }

  lemma {:induction false} SourceKeysDiffer()
    ensures |GENAI_INPUT| == 25 && |GENAI_OUTPUT| == 26 && |GENAI_CACHE_READ| == 36 && |GENAI_CACHE_WRITE| == 40
  {}
}
