/** The host-side caches and the optimized path: python/src/lib.rs:50-131, and the corresponding
    parts of go/evaluate.go:66-118, go/evaluator.go:302-335 and src/lib.rs:559-660. */
module Hosts {
  import opened Common
  import opened Json
  import opened Flags
  import opened Engine
  import Rules
  import Text
  import Keys

  // ---------------------------------------------------------------------------
  // The tables.
  // ---------------------------------------------------------------------------

  datatype Tables = Tables(
    preEvaluated: map<string, Evaluation>, required: map<string, set<string>>, indices: map<string, nat>)

  const NO_TABLES: Tables := Tables(map[], map[], map[])

  function KeySets(m: map<string, seq<string>>): map<string, set<string>> {
    map k | k in m :: set x | x in m[k]
  }

  /** What a host keeps of a response; a missing table becomes an empty one. */
  function TablesOf(r: Response): Tables {
    Tables(r.preEvaluated.GetOr(map[]), KeySets(r.requiredContextKeys.GetOr(map[])), r.flagIndices.GetOr(map[]))
  }

  /** The tables that belong to a loaded flag set. */
  ghost function TablesFor(s: FlagSet, sv: Services): Tables {
    Tables(
      PreEvaluated(s, sv),
      map k | k in s.flags && HasRequiredKeys(s.flags[k]) :: Rules.RequiredKeys(s.flags[k].compiled.value).value,
      IndexTable(IndexToKey(s)))
  }

  /** Tables that can be used with a state: its own, or none at all. */
  ghost predicate Fit(t: Tables, s: State, sv: Services) {
    t == NO_TABLES || (s.loaded.Some? && t == TablesFor(s.loaded.value, sv))
  }

  lemma AcceptedTables(old_: Option<FlagSet>, new_: FlagSet, sv: Services)
    ensures TablesOf(AcceptedResponse(old_, new_, sv)) == TablesFor(new_, sv)
    ensures TablesOf(REJECTED) == NO_TABLES
  {
    hide Rules.RequiredKeys, Keys.Sorted, EvaluateCore, PreEvaluated, IndexTable;
    var t := KeySets(RequiredTable(new_));
    forall k | k in t
      ensures t[k] == Rules.RequiredKeys(new_.flags[k].compiled.value).value
    {
    }
    assert t == TablesFor(new_, sv).required;
    assert KeySets(NonEmpty(RequiredTable(new_)).GetOr(map[])) == t;
  }

  /** After an update, the tables taken from its response fit the new state. */
  lemma UpdateFits(s: State, text: string, strict: bool, sv: Services)
    ensures var (after, r) := Update(s, text, strict, sv); Fit(TablesOf(r), after, sv)
  {
    if Load(text, strict, sv).Some? {
      AcceptedTables(s.loaded, Load(text, strict, sv).value, sv);
    }
  }

  /** If hosts filter for the flag, its rule shows its variables, and 32 bits number the flags. */
  ghost predicate Admissible(s: State, key: string) {
    s.loaded.Some? && key in s.loaded.value.flags && HasRequiredKeys(s.loaded.value.flags[key]) ==>
      && |s.loaded.value.flags| <= TWO_32
      && Rules.Static(s.loaded.value.flags[key].compiled.value)
  }

  // ---------------------------------------------------------------------------
  // Python.
  // ---------------------------------------------------------------------------

  function Optimized(t: Tables, s: State, key: string, context: Json, now: int, sv: Services): Evaluation {
    if key in t.preEvaluated then t.preEvaluated[key]
    else if key in t.required then
      var filtered := Obj(Filtered(key, context, t.required[key], now));
      if key in t.indices then EvaluateByIndex(s, t.indices[key], filtered, now, sv)
      else EvaluatePreEnriched(s, key, filtered, now, sv)
    else EvaluateFlag(s, key, context, now, sv)
  }

  lemma RequiredFlag(t: Tables, s: State, key: string, sv: Services)
    requires Fit(t, s, sv) && Consistent(s, sv) && Admissible(s, key) && key in t.required
    ensures s.loaded.Some? && key in s.loaded.value.flags && t.indices == IndexTable(s.index)
    ensures |s.loaded.value.flags| <= TWO_32
    ensures var flag := s.loaded.value.flags[key];
            && flag.targeting.Some? && flag.compiled.Some? && Rules.Static(flag.compiled.value)
            && Rules.RequiredKeys(flag.compiled.value) == Some(t.required[key])
  {
  }

  /** Evaluation on an agreeing, pre-enriched context, whichever way the flag is addressed. */
  lemma PreEnrichedIsSimple(
    t: Tables, s: State, key: string, context: Json, f: map<string, Json>, now: int, sv: Services)
    requires Fit(t, s, sv) && Consistent(s, sv) && Admissible(s, key) && key in t.required
    requires Agree(key, context, f, t.required[key], now) && "$flagd" in f
    ensures EvaluatePreEnriched(s, key, Obj(f), now, sv) == EvaluateFlag(s, key, context, now, sv)
    ensures key in t.indices
        && EvaluateByIndex(s, t.indices[key], Obj(f), now, sv) == EvaluateFlag(s, key, context, now, sv)
  {
    hide Rules.RequiredKeys, Rules.Static, Rules.Agree, Enriched, EvaluateCore, IndexTable;
    RequiredFlag(t, s, key, sv);
    ByIndexIsByKey(s, key, Obj(f), now, sv);
    AgreeingContextKeepsResult(
      s.loaded.value.flags[key], key, context, f, t.required[key], s.loaded.value.metadata, now, sv);
  }

  predicate Agree(key: string, context: Json, f: map<string, Json>, required: set<string>, now: int) {
    Rules.Agree(Enriched(key, context, now), f, required)
  }

  /** The optimized path gives the answer of the simple one. */
  lemma OptimizedIsSimple(t: Tables, s: State, key: string, context: Json, now: int, sv: Services)
    requires Fit(t, s, sv) && Consistent(s, sv) && Admissible(s, key) && PlainContext(context)
    ensures Optimized(t, s, key, context, now, sv) == EvaluateFlag(s, key, context, now, sv)
  {
    hide Rules.RequiredKeys, Rules.Static, Rules.Agree, Enriched, EvaluateCore, IndexTable;
    if key in t.preEvaluated {
      PreEvaluatedIsFull(s, key, context, now, sv);
    } else if key in t.required {
      FilteredAgrees(key, context, t.required[key], now);
      PreEnrichedIsSimple(t, s, key, context, Filtered(key, context, t.required[key], now), now, sv);
    }
  }

  method BuildFilteredContext(key: string, context: Json, required: set<string>, now: int) returns (r: Json)
    ensures r == Obj(Filtered(key, context, required, now))
  {
    var filtered: map<string, Json> := map[];
    if context.Obj? {
      var todo := required;
      while todo != {}
        invariant todo <= required
        invariant filtered == map k | k in required && k !in todo && !Rules.IsReserved(k)
            && k in context.members :: context.members[k]
      {
        var k :| k in todo;
        if !Rules.IsReserved(k) && k in context.members {
          filtered := filtered[k := context.members[k]];
        }
        todo := todo - {k};
      }
    }
    if "targetingKey" !in filtered {
      filtered := filtered["targetingKey" := context.Get("targetingKey").GetOr(Str(""))];
    }
    filtered := filtered["$flagd" := FlagdProperties(key, now)];
    assert filtered == Filtered(key, context, required, now);
    return Obj(filtered);
  }

  /** python/src/lib.rs: the engine and the caches kept beside it. */
  class PythonEvaluator {
    const inner: FlagEvaluator
    const yamlToJson: string -> Option<string>
    var preEvaluatedCache: map<string, Evaluation>
    var requiredContextKeys: map<string, set<string>>
    var flagIndices: map<string, nat>
    var flagSetMetadata: map<string, Json>

    constructor (strict: bool, sv: Services, yamlToJson: string -> Option<string>)
      ensures fresh(inner) && Valid() && inner.Abstract() == EMPTY && inner.strict == strict && inner.sv == sv
      ensures this.yamlToJson == yamlToJson
    {
      inner := new FlagEvaluator(strict, sv);
      this.yamlToJson := yamlToJson;
      preEvaluatedCache, requiredContextKeys, flagIndices, flagSetMetadata := map[], map[], map[], map[];
    }

    function Caches(): Tables
      reads this
    {
      Tables(preEvaluatedCache, requiredContextKeys, flagIndices)
    }

    ghost predicate Valid()
      reads this, inner
    {
      Consistent(inner.Abstract(), inner.sv) && Fit(Caches(), inner.Abstract(), inner.sv)
    }

    method UpdateCachesFromResponse(r: Response)
      modifies this
      ensures Caches() == TablesOf(r)
    {
      preEvaluatedCache := r.preEvaluated.GetOr(map[]);
      requiredContextKeys := match r.requiredContextKeys
        case Some(keysMap) => KeySets(keysMap)
        case None => map[];
      flagIndices := r.flagIndices.GetOr(map[]);
    }

    /** Text that does not look like JSON is converted from YAML first; if that fails nothing changes. */
    method UpdateState(config: string, looksLikeJson: bool) returns (r: Option<Response>)
      requires Valid()
      modifies this, inner
      ensures Valid()
      ensures var text := if looksLikeJson then Some(config) else yamlToJson(config);
              match text
              case None => r.None? && inner.Abstract() == old(inner.Abstract()) && Caches() == old(Caches())
              case Some(json) =>
                && r.Some? && (inner.Abstract(), r.value) == Update(old(inner.Abstract()), json, inner.strict, inner.sv)
                && Caches() == TablesOf(r.value) && flagSetMetadata == r.value.flagSetMetadata.GetOr(map[])
      ensures inner.strict == old(inner.strict)
    {
      hide Consistent, Fit, Update, Load;
      var json := config;
      if !looksLikeJson {
        var converted := yamlToJson(config);
        if converted.None? {
          return None;
        }
        json := converted.value;
      }
      UpdateFits(inner.Abstract(), json, inner.strict, inner.sv);
      UpdateIsConsistent(inner.Abstract(), json, inner.strict, inner.sv);
      var response := inner.UpdateState(json);
      UpdateCachesFromResponse(response);
      flagSetMetadata := response.flagSetMetadata.GetOr(map[]);
      return Some(response);
    }

    /** evaluate_optimized: cached result, else filtered context by index, else the full path. */
    method EvaluateOptimized(key: string, context: Json, now: int) returns (r: Evaluation)
      ensures r == Optimized(Caches(), inner.Abstract(), key, context, now, inner.sv)
      ensures Valid() && Admissible(inner.Abstract(), key) && PlainContext(context) ==>
        r == EvaluateFlag(inner.Abstract(), key, context, now, inner.sv)
    {
      hide Consistent, Fit, Admissible, EvaluateIn, Filtered, EvaluateByIndex;
      if Valid() && Admissible(inner.Abstract(), key) && PlainContext(context) {
        OptimizedIsSimple(Caches(), inner.Abstract(), key, context, now, inner.sv);
      }
      if key in preEvaluatedCache {
        return preEvaluatedCache[key];
      }
      if key in requiredContextKeys {
        var filtered := BuildFilteredContext(key, context, requiredContextKeys[key], now);
        if key in flagIndices {
          return EvaluateByIndex(inner.Abstract(), flagIndices[key], filtered, now, inner.sv);
        }
        return EvaluatePreEnriched(inner.Abstract(), key, filtered, now, inner.sv);
      }
      return EvaluateFlag(inner.Abstract(), key, context, now, inner.sv);
    }
  }

  lemma UpdateIsConsistent(s: State, text: string, strict: bool, sv: Services)
    requires Consistent(s, sv)
    ensures Consistent(Update(s, text, strict, sv).0, sv)
  {
    LoadIsWellFormed(text, strict, sv);
  }

  /** The engine and the caches after any sequence of update calls; `None` is YAML that does not convert. */
  ghost function RunUpdates(configs: seq<Option<string>>, strict: bool, sv: Services): (State, Tables) {
    if configs == [] then (EMPTY, NO_TABLES)
    else
      var (s, t) := RunUpdates(configs[..|configs| - 1], strict, sv);
      match configs[|configs| - 1]
      case None => (s, t)
      case Some(text) =>
        var (after, r) := Update(s, text, strict, sv);
        (after, TablesOf(r))
  }

  lemma {:induction false} RunUpdatesFits(configs: seq<Option<string>>, strict: bool, sv: Services)
    ensures var (s, t) := RunUpdates(configs, strict, sv); Consistent(s, sv) && Fit(t, s, sv)
  {
    hide Update, Fit, Consistent, TablesOf;
    if configs == [] {
      EmptyFits(sv);
    } else {
      RunUpdatesFits(configs[..|configs| - 1], strict, sv);
      var last := configs[|configs| - 1];
      if last.Some? {
        var s := RunUpdates(configs[..|configs| - 1], strict, sv).0;
        UpdateFits(s, last.value, strict, sv);
        UpdateIsConsistent(s, last.value, strict, sv);
      }
    }
  }

  lemma EmptyFits(sv: Services)
    ensures Consistent(EMPTY, sv) && Fit(NO_TABLES, EMPTY, sv)
  {
  }

  /** After every run of accepted, rejected and failed updates, the optimized path answers every key
      and context as the simple path does. */
  lemma OptimizedRefinesSimple(
    configs: seq<Option<string>>, strict: bool, sv: Services, key: string, context: Json, now: int)
    requires Admissible(RunUpdates(configs, strict, sv).0, key) && PlainContext(context)
    ensures var (s, t) := RunUpdates(configs, strict, sv);
            Optimized(t, s, key, context, now, sv) == EvaluateFlag(s, key, context, now, sv)
  {
    hide Update, Fit, Consistent, TablesOf, Admissible, Optimized, EvaluateFlag;
    RunUpdatesFits(configs, strict, sv);
    var (s, t) := RunUpdates(configs, strict, sv);
    OptimizedIsSimple(t, s, key, context, now, sv);
  }

  // ---------------------------------------------------------------------------
  // Hosts that call a WASM instance.
  // ---------------------------------------------------------------------------

  function NotInitialized(): Evaluation { Failure(NotFound, "Flag state not initialized. Call update_state first.") }

  /** evaluate_reusable: the simple path of an instance. A rule-less flag's context is not even parsed. */
  function WasmEvaluate(s: State, key: string, context: Json, now: int, sv: Services): Evaluation {
    if s.loaded.None? then NotInitialized()
    else
      var flags := s.loaded.value.flags;
      EvaluateFlag(s, key, if key in flags && flags[key].targeting.None? then Null else context, now, sv)
  }

  function WasmByIndex(s: State, index: nat, context: Json, now: int, sv: Services): Evaluation {
    if s.loaded.None? then NotInitialized() else EvaluateByIndex(s, index, context, now, sv)
  }

  /** How a host leaves reserved keys out: Go and .NET name three of them, Java skips the prefix. */
  function Skips(byPrefix: bool, k: string): bool {
    if byPrefix then Rules.IsReserved(k) else k == "targetingKey" || k == "$flagd.flagKey" || k == "$flagd.timestamp"
  }

  /** serializeFilteredContext, as the object that the bytes denote. */
  function HostFiltered(
    byPrefix: bool, key: string, context: map<string, Json>, required: set<string>, now: int): map<string, Json> {
    var kept := map k | k in required && k in context && !Skips(byPrefix, k) :: context[k];
    kept["targetingKey" := Obj(context).Get("targetingKey").GetOr(Str(""))]["$flagd" := FlagdProperties(key, now)]
  }

  lemma HostFilteredAgrees(byPrefix: bool, key: string, context: map<string, Json>, required: set<string>, now: int)
    requires PlainContext(Obj(context))
    ensures Agree(key, Obj(context), HostFiltered(byPrefix, key, context, required, now), required, now)
  {
    var e, f := Enriched(key, Obj(context), now), HostFiltered(byPrefix, key, context, required, now);
    TargetingKeyIsNotReserved();
    assert Rules.IsReserved("$flagd.flagKey") && Rules.IsReserved("$flagd.timestamp");
    forall k
      ensures Rules.IsSegment(k) && (k in required || (k in e.Keys + f.Keys && Rules.IsReserved(k))) ==>
          Obj(e).Get(k) == Obj(f).Get(k)
    {
    }
  }

  /** Either host's filter is right for every static rule exactly when the context is plain. */
  lemma HostFilteringIsRightIffPlain(
    byPrefix: bool, key: string, context: map<string, Json>, now: int, lib: Rules.Library)
    ensures (forall n, required :: Rules.Static(n) && Rules.RequiredKeys(n) == Some(required) ==>
               Rules.Eval(n, Obj(Enriched(key, Obj(context), now)), lib)
                   == Rules.Eval(n, Obj(HostFiltered(byPrefix, key, context, required, now)), lib))
       <==> PlainContext(Obj(context))
  {
    hide Rules.Static, Rules.RequiredKeys, Rules.Eval, Rules.Agree;
    var e := Enriched(key, Obj(context), now);
    if PlainContext(Obj(context)) {
      forall n, required | Rules.Static(n) && Rules.RequiredKeys(n) == Some(required)
        ensures Rules.Eval(n, Obj(e), lib)
             == Rules.Eval(n, Obj(HostFiltered(byPrefix, key, context, required, now)), lib)
      {
        HostFilteredAgrees(byPrefix, key, context, required, now);
        Rules.RequiredKeysSuffice(n, required, e, HostFiltered(byPrefix, key, context, required, now), lib);
      }
    } else {
      var k :| k in context && Rules.IsSegment(k) && Rules.IsReserved(k) && k != "$flagd";
      ReservedIsNotReported(k);
      TargetingKeyIsNotReserved();
      ExistsTells(k, e, HostFiltered(byPrefix, key, context, {"targetingKey"}, now), lib);
    }
  }

  /** The context an evaluator sends: filtered if it knows the keys, nothing for an empty one. */
  function SentContext(
    byPrefix: bool, required: Option<set<string>>, key: string, context: map<string, Json>, now: int): Json {
    if context == map[] then Null
    else if required.Some? then Obj(HostFiltered(byPrefix, key, context, required.value, now))
    else Obj(context)
  }

  function RequiredFor(t: Tables, key: string): Option<set<string>> {
    if key in t.required then Some(t.required[key]) else None
  }

  /** The instance call: by index when index and required keys are known, else by flag key. */
  function CallInstance(
    t: Tables, s: State, key: string, sent: Json, hasByIndex: bool, now: int, sv: Services): Evaluation {
    if key in t.indices && hasByIndex && key in t.required then WasmByIndex(s, t.indices[key], sent, now, sv)
    else WasmEvaluate(s, key, sent, now, sv)
  }

  /** The answer of an instance to the unoptimized call. */
  function Simple(s: State, key: string, context: map<string, Json>, now: int, sv: Services): Evaluation {
    WasmEvaluate(s, key, Obj(context), now, sv)
  }

  /** That is the engine's evaluation, or an error before anything is loaded. */
  lemma SimpleIsEngine(s: State, key: string, context: map<string, Json>, now: int, sv: Services)
    ensures s.loaded.Some? ==> Simple(s, key, context, now, sv) == EvaluateFlag(s, key, Obj(context), now, sv)
    ensures s.loaded.None? ==>
      Simple(s, key, context, now, sv).reason == Error && Simple(s, key, context, now, sv).value == Null
  {
  }

  /** A cached result is what the instance would answer. */
  lemma CachedIsSimple(t: Tables, s: State, key: string, context: map<string, Json>, now: int, sv: Services)
    requires Fit(t, s, sv) && key in t.preEvaluated
    ensures t.preEvaluated[key] == Simple(s, key, context, now, sv)
  {
    PreEvaluatedIsFull(s, key, Obj(context), now, sv);
    PreEvaluatedIsFull(s, key, Null, now, sv);
  }

  /** Enriching a context that is already filtered and enriched changes nothing. */
  lemma EnrichedTwice(byPrefix: bool, key: string, context: map<string, Json>, required: set<string>, now: int)
    ensures var f := HostFiltered(byPrefix, key, context, required, now);
            "$flagd" in f && Enriched(key, Obj(f), now) == f
  {
  }

  lemma EmptyContextIsNull(s: State, key: string, now: int, sv: Services)
    ensures EvaluateFlag(s, key, Null, now, sv) == EvaluateFlag(s, key, Obj(map[]), now, sv)
    ensures EvaluatePreEnriched(s, key, Null, now, sv) == EvaluateFlag(s, key, Obj(map[]), now, sv)
  {
    assert Enriched(key, Null, now) == Enriched(key, Obj(map[]), now);
  }

  lemma EnrichedIsPreEnriched(s: State, key: string, f: map<string, Json>, now: int, sv: Services)
    requires "$flagd" in f && Enriched(key, Obj(f), now) == f
    ensures EvaluateFlag(s, key, Obj(f), now, sv) == EvaluatePreEnriched(s, key, Obj(f), now, sv)
  {
  }

  /** Every way of asking an instance with fitting tables gives the answer of the simple call. */
  lemma SentIsSimple(
    byPrefix: bool, t: Tables, s: State, key: string, context: map<string, Json>, hasByIndex: bool, now: int,
    sv: Services)
    requires Fit(t, s, sv) && Consistent(s, sv) && Admissible(s, key) && PlainContext(Obj(context))
    ensures CallInstance(t, s, key, SentContext(byPrefix, RequiredFor(t, key), key, context, now), hasByIndex, now, sv)
         == Simple(s, key, context, now, sv)
  {
    hide Rules.RequiredKeys, Rules.Static, Agree, Enriched, EvaluateIn, EvaluateByIndex, IndexTable, HostFiltered, Fit,
      Consistent, Admissible;
    EmptyContextIsNull(s, key, now, sv);
    if key in t.required {
      RequiredFlag(t, s, key, sv);
      if context == map[] {
        ByIndexIsByKey(s, key, Null, now, sv);
      } else {
        var f := HostFiltered(byPrefix, key, context, t.required[key], now);
        HostFilteredAgrees(byPrefix, key, context, t.required[key], now);
        EnrichedTwice(byPrefix, key, context, t.required[key], now);
        PreEnrichedIsSimple(t, s, key, Obj(context), f, now, sv);
        EnrichedIsPreEnriched(s, key, f, now, sv);
      }
    }
  }

  /** What a host answers with a snapshot's tables and an instance in state `s`. */
  function Answer(
    byPrefix: bool, t: Tables, s: State, key: string, context: map<string, Json>, hasByIndex: bool, now: int,
    sv: Services): Evaluation
  {
    if key in t.preEvaluated then t.preEvaluated[key]
    else CallInstance(t, s, key, SentContext(byPrefix, RequiredFor(t, key), key, context, now), hasByIndex, now, sv)
  }

  lemma HitIsAnswer(
    byPrefix: bool, t: Tables, s: State, key: string, context: map<string, Json>, hasByIndex: bool, now: int,
    sv: Services)
    requires key in t.preEvaluated
    ensures Answer(byPrefix, t, s, key, context, hasByIndex, now, sv) == t.preEvaluated[key]
  {
  }

  lemma AnswerIsSimple(
    byPrefix: bool, t: Tables, s: State, key: string, context: map<string, Json>, hasByIndex: bool, now: int,
    sv: Services)
    requires Fit(t, s, sv) && Consistent(s, sv) && Admissible(s, key) && PlainContext(Obj(context))
    ensures Answer(byPrefix, t, s, key, context, hasByIndex, now, sv) == Simple(s, key, context, now, sv)
  {
    hide Fit, Consistent, Admissible, Simple, CallInstance, SentContext;
    SentIsSimple(byPrefix, t, s, key, context, hasByIndex, now, sv);
    if key in t.preEvaluated {
      CachedIsSimple(t, s, key, context, now, sv);
    }
  }

  /** A rejected update cannot be observed: Go then answers with no tables at all and .NET with the
      old ones, and both answer what the instance answered before. */
  lemma RejectionIsUnobservable(
    byPrefix: bool, t: Tables, s: State, text: string, strict: bool, key: string, context: map<string, Json>,
    hasByIndex: bool, now: int, sv: Services)
    requires Fit(t, s, sv) && Consistent(s, sv) && Admissible(s, key) && PlainContext(Obj(context))
    requires !Update(s, text, strict, sv).1.success
    ensures var (after, r) := Update(s, text, strict, sv);
            && Answer(byPrefix, TablesOf(r), after, key, context, hasByIndex, now, sv)
               == Simple(s, key, context, now, sv)
            && Answer(byPrefix, t, after, key, context, hasByIndex, now, sv) == Simple(s, key, context, now, sv)
  {
    hide Fit, Consistent, Admissible, Load, Simple, CallInstance, SentContext, Answer;
    RejectedUpdateChangesNothing(s, text, strict, sv);
    UpdateFits(s, text, strict, sv);
    AnswerIsSimple(byPrefix, t, s, key, context, hasByIndex, now, sv);
    AnswerIsSimple(byPrefix, NO_TABLES, s, key, context, hasByIndex, now, sv);
  }

  // ---------------------------------------------------------------------------
  // A context serialized with the keys of an older snapshot (Java).
  // ---------------------------------------------------------------------------

  /** The context was filtered with keys that include the ones needed now (the targeting key is always
      sent), or it was sent whole and holds no `$flagd` member that would pass for an enriched one. */
  predicate Covers(required: Option<set<string>>, t: Tables, key: string, context: map<string, Json>) {
    if required.Some? then key in t.required && t.required[key] <= required.value + {"targetingKey"}
    else "$flagd" !in context
  }

  lemma TargetingKeyIsAlwaysSent(
    byPrefix: bool, key: string, context: map<string, Json>, required: set<string>, now: int)
    ensures HostFiltered(byPrefix, key, context, required + {"targetingKey"}, now)
        == HostFiltered(byPrefix, key, context, required, now)
  {
  }

  lemma WiderFilterAgrees(
    byPrefix: bool, key: string, context: map<string, Json>, wide: set<string>, narrow: set<string>, now: int)
    requires PlainContext(Obj(context)) && narrow <= wide + {"targetingKey"}
    ensures Agree(key, Obj(context), HostFiltered(byPrefix, key, context, wide, now), narrow, now)
  {
    HostFilteredAgrees(byPrefix, key, context, wide + {"targetingKey"}, now);
    TargetingKeyIsAlwaysSent(byPrefix, key, context, wide, now);
  }

  /** A context without `$flagd` is enriched on either path. */
  lemma BareContextIsEnriched(s: State, key: string, context: map<string, Json>, now: int, sv: Services)
    requires "$flagd" !in context
    ensures EvaluatePreEnriched(s, key, Obj(context), now, sv) == EvaluateFlag(s, key, Obj(context), now, sv)
  {
  }

  /** The answer is right, even if the keys are those of an older snapshot, as long as they cover. */
  lemma CoveredIsSimple(
    byPrefix: bool, required: Option<set<string>>, t: Tables, s: State, key: string, context: map<string, Json>,
    hasByIndex: bool, now: int, sv: Services)
    requires Fit(t, s, sv) && Consistent(s, sv) && Admissible(s, key) && PlainContext(Obj(context))
    requires Covers(required, t, key, context)
    ensures CallInstance(t, s, key, SentContext(byPrefix, required, key, context, now), hasByIndex, now, sv)
         == Simple(s, key, context, now, sv)
  {
    hide Rules.RequiredKeys, Rules.Static, Agree, Enriched, EvaluateIn, EvaluateByIndex, IndexTable, HostFiltered, Fit,
      Consistent, Admissible;
    EmptyContextIsNull(s, key, now, sv);
    if key in t.required {
      RequiredFlag(t, s, key, sv);
      if context == map[] {
        ByIndexIsByKey(s, key, Null, now, sv);
      } else if required.Some? {
        var f := HostFiltered(byPrefix, key, context, required.value, now);
        WiderFilterAgrees(byPrefix, key, context, required.value, t.required[key], now);
        EnrichedTwice(byPrefix, key, context, required.value, now);
        PreEnrichedIsSimple(t, s, key, Obj(context), f, now, sv);
        EnrichedIsPreEnriched(s, key, f, now, sv);
      } else {
        ByIndexIsByKey(s, key, Obj(context), now, sv);
        BareContextIsEnriched(s, key, context, now, sv);
      }
    }
  }

  /** What an instance answers to a context that was filtered with the keys `required`. */
  function FilteredAnswer(
    byPrefix: bool, required: set<string>, t: Tables, s: State, key: string, context: map<string, Json>,
    hasByIndex: bool, now: int, sv: Services): Evaluation
  {
    CallInstance(t, s, key, SentContext(byPrefix, Some(required), key, context, now), hasByIndex, now, sv)
  }

  /** An enabled flag whose rule reads the top-level variable `k`, with a variant to choose. */
  ghost predicate Reads(flag: Flag, k: string) {
    && !IsStatic(flag) && flag.compiled == Some(Rules.CompiledVar([Rules.Field(k)], None))
    && k != "" && '.' !in k && !Rules.IsReserved(k)
    && exists v :: v in flag.variants && v != ""
  }

  lemma KeysOfVariable(k: string)
    requires '.' !in k && !Rules.IsReserved(k)
    ensures Rules.RequiredKeys(Rules.CompiledVar([Rules.Field(k)], None)).Some? ==>
      Rules.RequiredKeys(Rules.CompiledVar([Rules.Field(k)], None)).value == {"targetingKey", k}
  {
    var segments := [Rules.Field(k)];
    assert Rules.SegmentNames(segments) == [k];
    Text.SplitJoinFirst([k], '.');
  }

  /** A variable with the name of a variant selects it; one that is missing never does. */
  lemma VariableSelects(
    flag: Flag, key: string, k: string, v: string, f: map<string, Json>, metadata: map<string, Json>, now: int,
    sv: Services)
    requires Reads(flag, k) && v in flag.variants && v != ""
    ensures k in f && f[k] == Str(v) ==>
        EvaluateCore(flag, key, Obj(f), false, metadata, now, sv).reason == TargetingMatch
    ensures k !in f ==> EvaluateCore(flag, key, Obj(f), false, metadata, now, sv).reason != TargetingMatch
  {
    var segments := [Rules.Field(k)];
    assert Rules.NavigateSegments(Obj(f), segments) == if k in f then Some(f[k]) else None by {
      assert segments[1..] == [];
      assert Rules.StepSegment(Obj(f), segments[0]) == Obj(f).Get(k);
    }
  }

  /** With the variable set to a variant's name, the simple answer is that variant. */
  lemma VariableDecides(
    s: State, key: string, context: map<string, Json>, k: string, v: string, now: int, sv: Services)
    requires s.loaded.Some? && key in s.loaded.value.flags && Reads(s.loaded.value.flags[key], k)
    requires v in s.loaded.value.flags[key].variants && v != "" && k in context && context[k] == Str(v)
    requires s.loaded.value.flags[key].targeting.Some?
    ensures Simple(s, key, context, now, sv).reason == TargetingMatch
  {
    hide EvaluateCore, Reads, IsStatic, Rules.Eval;
    var flag, metadata := s.loaded.value.flags[key], s.loaded.value.metadata;
    ReadsIsPlain(flag, k);
    TargetingKeyIsNotReserved();
    VariableSelects(flag, key, k, v, Enriched(key, Obj(context), now), metadata, now, sv);
    EnrichedCore(flag, key, Obj(context), metadata, now, sv);
  }

  /** Without the variable in the filter, the variable is lost. */
  lemma StaleFilterLosesVariable(
    byPrefix: bool, required: set<string>, t: Tables, s: State, key: string, context: map<string, Json>, k: string,
    hasByIndex: bool, now: int, sv: Services)
    requires Fit(t, s, sv) && Consistent(s, sv) && Admissible(s, key) && key in t.required
    requires s.loaded.Some? && key in s.loaded.value.flags && Reads(s.loaded.value.flags[key], k)
    requires k !in required && k != "targetingKey" && context != map[]
    ensures FilteredAnswer(byPrefix, required, t, s, key, context, hasByIndex, now, sv).reason != TargetingMatch
  {
    hide Rules.RequiredKeys, Rules.Static, EvaluateCore, EvaluateByIndex, IndexTable, Fit, Consistent, Admissible,
      Reads, IsStatic;
    RequiredFlag(t, s, key, sv);
    var flag, metadata := s.loaded.value.flags[key], s.loaded.value.metadata;
    var f := HostFiltered(byPrefix, key, context, required, now);
    ReadsIsPlain(flag, k);
    TargetingKeyIsNotReserved();
    var v := SomeVariant(flag, k);
    VariableSelects(flag, key, k, v, f, metadata, now, sv);
    ByIndexIsByKey(s, key, Obj(f), now, sv);
    EnrichedTwice(byPrefix, key, context, required, now);
    EnrichedIsPreEnriched(s, key, f, now, sv);
  }

  lemma SomeVariant(flag: Flag, k: string) returns (v: string)
    requires Reads(flag, k)
    ensures v in flag.variants && v != ""
  {
    v :| v in flag.variants && v != "";
  }

  /** The answer belongs to one of the two configurations. */
  ghost predicate Belongs(
    r: Evaluation, s0: State, s1: State, key: string, context: map<string, Json>, now: int, sv: Services) {
    r == Simple(s0, key, context, now, sv) || r == Simple(s1, key, context, now, sv)
  }

  /** What Java answers when the rule reads `a` before an update and `b` after it: the context is
      filtered with the old keys and evaluated with the new rule. */
  function StaleAnswer(
    t0: Tables, t1: Tables, s1: State, key: string, context: map<string, Json>, hasByIndex: bool, now: int,
    sv: Services): Evaluation
    requires key in t0.required
  {
    FilteredAnswer(true, t0.required[key], t1, s1, key, context, hasByIndex, now, sv)
  }

  /** A context that sets both variables to variants' names gets an answer of neither configuration. */
  lemma StaleAnswerIsNobodys(
    t0: Tables, s0: State, a: string, t1: Tables, s1: State, b: string, key: string, hasByIndex: bool, now: int,
    sv: Services) returns (context: map<string, Json>)
    requires Fit(t0, s0, sv) && Consistent(s0, sv) && Admissible(s0, key) && key in t0.required
    requires s0.loaded.Some? && key in s0.loaded.value.flags && Reads(s0.loaded.value.flags[key], a)
    requires Fit(t1, s1, sv) && Consistent(s1, sv) && Admissible(s1, key) && key in t1.required
    requires s1.loaded.Some? && key in s1.loaded.value.flags && Reads(s1.loaded.value.flags[key], b)
    requires b != a && b != "targetingKey"
    ensures context != map[] && PlainContext(Obj(context))
    ensures !Belongs(StaleAnswer(t0, t1, s1, key, context, hasByIndex, now, sv), s0, s1, key, context, now, sv)
  {
    hide Rules.RequiredKeys, Rules.Static, Fit, Consistent, Admissible, CallInstance, SentContext, Simple, Reads;
    var f0, f1 := s0.loaded.value.flags[key], s1.loaded.value.flags[key];
    var v := SomeVariant(f0, a);
    var w := SomeVariant(f1, b);
    context := map[a := Str(v), b := Str(w)];
    ReadsIsPlain(f0, a);
    ReadsIsPlain(f1, b);
    RequiredFlag(t0, s0, key, sv);
    RequiredFlag(t1, s1, key, sv);
    KeysOfReader(f0, a);
    assert a in context;
    StaleFilterLosesVariable(true, t0.required[key], t1, s1, key, context, b, hasByIndex, now, sv);
    VariableDecides(s0, key, context, a, v, now, sv);
    VariableDecides(s1, key, context, b, w, now, sv);
  }

  /** For rules that read one variable each, Java's answers after a stale filter all belong to one of
      the two configurations exactly when the new variable is the old one, or the targeting key. */
  lemma StaleAnswersBelongIff(
    t0: Tables, s0: State, a: string, t1: Tables, s1: State, b: string, key: string, hasByIndex: bool, now: int,
    sv: Services)
    requires Fit(t0, s0, sv) && Consistent(s0, sv) && Admissible(s0, key) && key in t0.required
    requires s0.loaded.Some? && key in s0.loaded.value.flags && Reads(s0.loaded.value.flags[key], a)
    requires Fit(t1, s1, sv) && Consistent(s1, sv) && Admissible(s1, key) && key in t1.required
    requires s1.loaded.Some? && key in s1.loaded.value.flags && Reads(s1.loaded.value.flags[key], b)
    ensures (forall context: map<string, Json> :: PlainContext(Obj(context)) ==>
               Belongs(StaleAnswer(t0, t1, s1, key, context, hasByIndex, now, sv), s0, s1, key, context, now, sv))
       <==> b == a || b == "targetingKey"
  {
    hide Rules.RequiredKeys, Rules.Static, Fit, Consistent, Admissible, CallInstance, SentContext, Simple, PlainContext,
      Reads;
    RequiredFlag(t0, s0, key, sv);
    RequiredFlag(t1, s1, key, sv);
    KeysOfReader(s0.loaded.value.flags[key], a);
    KeysOfReader(s1.loaded.value.flags[key], b);
    if b == a || b == "targetingKey" {
      forall context: map<string, Json> | PlainContext(Obj(context))
        ensures Belongs(StaleAnswer(t0, t1, s1, key, context, hasByIndex, now, sv), s0, s1, key, context, now, sv)
      {
        CoveredIsSimple(true, Some(t0.required[key]), t1, s1, key, context, hasByIndex, now, sv);
      }
    } else {
      var context := StaleAnswerIsNobodys(t0, s0, a, t1, s1, b, key, hasByIndex, now, sv);
    }
  }

  lemma KeysOfReader(flag: Flag, k: string)
    requires Reads(flag, k)
    ensures flag.compiled.Some?
    ensures Rules.RequiredKeys(flag.compiled.value).Some? ==>
        Rules.RequiredKeys(flag.compiled.value).value == {"targetingKey", k}
  {
    KeysOfVariable(k);
  }

  lemma ReadsIsPlain(flag: Flag, k: string)
    requires Reads(flag, k)
    ensures !Rules.IsReserved(k)
  {
  }

  lemma EnrichedCore(flag: Flag, key: string, context: Json, metadata: map<string, Json>, now: int, sv: Services)
    ensures EvaluateCore(flag, key, context, true, metadata, now, sv)
         == EvaluateCore(flag, key, Obj(Enriched(key, context, now)), false, metadata, now, sv)
  {
  }

  lemma OneMemberIsPlain(k: string, v: string)
    requires !Rules.IsReserved(k)
    ensures PlainContext(Obj(map[k := Str(v)]))
  {
  }

  /** For a flag that reads one variable, a context filtered with the keys of another snapshot gets
      the new configuration's answer under all contexts exactly when those keys include the variable. */
  lemma StaleFilterIsRightIff(
    byPrefix: bool, required: set<string>, t: Tables, s: State, key: string, k: string, hasByIndex: bool, now: int,
    sv: Services)
    requires Fit(t, s, sv) && Consistent(s, sv) && Admissible(s, key) && key in t.required
    requires s.loaded.Some? && key in s.loaded.value.flags && Reads(s.loaded.value.flags[key], k)
    ensures (forall context: map<string, Json> :: PlainContext(Obj(context)) ==>
               FilteredAnswer(byPrefix, required, t, s, key, context, hasByIndex, now, sv)
                   == Simple(s, key, context, now, sv))
       <==> k in required || k == "targetingKey"
  {
    hide Rules.RequiredKeys, Rules.Static, Fit, Consistent, Admissible, CallInstance, SentContext, Simple, PlainContext;
    RequiredFlag(t, s, key, sv);
    KeysOfVariable(k);
    if k in required || k == "targetingKey" {
      forall context: map<string, Json> | PlainContext(Obj(context))
        ensures FilteredAnswer(byPrefix, required, t, s, key, context, hasByIndex, now, sv)
            == Simple(s, key, context, now, sv)
      {
        CoveredIsSimple(byPrefix, Some(required), t, s, key, context, hasByIndex, now, sv);
      }
    } else {
      var v := SomeVariant(s.loaded.value.flags[key], k);
      var context: map<string, Json> := map[k := Str(v)];
      assert k in context;
      StaleFilterLosesVariable(byPrefix, required, t, s, key, context, k, hasByIndex, now, sv);
      VariableDecides(s, key, context, k, v, now, sv);
      assert PlainContext(Obj(context)) by {
        OneMemberIsPlain(k, v);
      }
    }
  }
}
