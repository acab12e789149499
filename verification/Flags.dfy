/** Flags and their evaluation: src/evaluator.rs:296-488 and 684-804, src/model/feature_flag.rs:38-78. */
module Flags {
  import opened Common
  import opened Text
  import opened Json
  import opened Rules

  datatype Flag = Flag(
    key: Option<string>, state: string, defaultVariant: Option<string>, variants: map<string, Json>,
    targeting: Option<Json>, compiled: Option<Node>, metadata: map<string, Json>)

  datatype FlagSet = FlagSet(flags: map<string, Flag>, metadata: map<string, Json>)

  datatype Reason = Static | Default | TargetingMatch | Disabled | Error | FlagNotFound | Fallback

  datatype ErrorCode = NotFound | ParseError | TypeMismatch | General

  datatype Evaluation = Evaluation(
    value: Json, variant: Option<string>, reason: Reason, errorCode: Option<ErrorCode>,
    errorMessage: Option<string>, metadata: Option<map<string, Json>>)

  /** What the crate takes from its libraries: JSON reading and printing, schema validation, the
      serde decoding of a flag, rule compilation, and evaluation of a rule that did not compile. */
  datatype Services = Services(
    library: Library,
    readJson: string -> Option<Json>,
    isValid: string -> bool,
    readFlag: Json -> Option<Flag>,
    compile: Json -> Option<Node>,
    interpret: (Json, Json) -> Outcome,
    render: Json -> string,
    describe: EvalError -> string)

  function Failure(code: ErrorCode, message: string): Evaluation {
    Evaluation(Null, None, Error, Some(code), Some(message), None)
  }

  function FallbackResult(key: string): Evaluation {
    Evaluation(Null, None, Fallback, Some(NotFound),
               Some("Flag '" + key + "' has no default variant defined, will use code default"), None)
  }

  // ---------------------------------------------------------------------------
  // Metadata.
  // ---------------------------------------------------------------------------

  function Visible(metadata: map<string, Json>): map<string, Json> {
    map k | k in metadata && !IsPrefixOf("$", k) :: metadata[k]
  }

  /** Flag-set metadata without its `$` keys, overridden by the flag's own. */
  function Merged(flagSet: map<string, Json>, flag: map<string, Json>): Option<map<string, Json>> {
    if Visible(flagSet) == map[] && flag == map[] then None else Some(Visible(flagSet) + flag)
  }

  function VisibleOnly(flagSet: map<string, Json>): Option<map<string, Json>> {
    if Visible(flagSet) == map[] then None else Some(Visible(flagSet))
  }

  method MergeMetadata(flagSet: map<string, Json>, flag: map<string, Json>) returns (r: Option<map<string, Json>>)
    ensures r == Merged(flagSet, flag)
  {
    var merged := Visible(flagSet);
    if merged == map[] && flag == map[] {
      return None;
    }
    var todo := flag.Keys;
    while todo != {}
      invariant todo <= flag.Keys
      invariant merged.Keys == Visible(flagSet).Keys + (flag.Keys - todo)
      invariant forall k :: k in merged ==>
          merged[k] == if k in flag && k !in todo then flag[k] else Visible(flagSet)[k]
    {
      var k :| k in todo;
      merged := merged[k := flag[k]];
      todo := todo - {k};
    }
    assert merged == Visible(flagSet) + flag;
    return Some(merged);
  }

  /** with_lazy_metadata: nothing to merge leaves the result as it is. */
  function WithMetadata(flagSet: map<string, Json>, flag: map<string, Json>, r: Evaluation): Evaluation {
    if flagSet == map[] && flag == map[] then r
    else
      match Merged(flagSet, flag)
      case Some(m) => r.(metadata := Some(m))
      case None => r
  }

  // ---------------------------------------------------------------------------
  // Context.
  // ---------------------------------------------------------------------------

  function FlagdProperties(key: string, now: int): Json {
    Obj(map["flagKey" := Str(key), "timestamp" := Num(Int(now))])
  }

  /** enrich_context: the `$flagd` object always, a targeting key if there is none. */
  function Enriched(key: string, context: Json, now: int): map<string, Json> {
    var members := if context.Obj? then context.members else map[];
    var withFlagd := members["$flagd" := FlagdProperties(key, now)];
    if "targetingKey" in withFlagd then withFlagd else withFlagd["targetingKey" := Str("")]
  }

  // ---------------------------------------------------------------------------
  // evaluate_flag_core.
  // ---------------------------------------------------------------------------

  predicate IsDisabled(flag: Flag) { flag.state == "DISABLED" }

  predicate NoTargeting(flag: Flag) { flag.targeting.None? || flag.targeting == Some(Obj(map[])) }

  predicate IsStatic(flag: Flag) { IsDisabled(flag) || NoTargeting(flag) }

  function DisabledResult(flag: Flag, key: string, metadata: map<string, Json>): Evaluation {
    Evaluation(Null, None, Disabled, Some(NotFound), Some("flag: " + key + " is disabled"),
        Merged(metadata, flag.metadata))
  }

  /** The default variant, with the reason for using it. */
  function DefaultResult(flag: Flag, key: string, metadata: map<string, Json>, reason: Reason): Evaluation {
    match flag.defaultVariant
    case None => FallbackResult(key)
    case Some(variant) =>
      if variant == "" then FallbackResult(key)
      else if variant in flag.variants then
        WithMetadata(metadata, flag.metadata,
            Evaluation(flag.variants[variant], Some(variant), reason, None, None, None))
      else Failure(General, "Default variant '" + variant + "' not found in flag variants")
  }

  function TrimQuotesStart(s: string): string {
    if s != [] && s[0] == '"' then TrimQuotesStart(s[1..]) else s
  }

  function TrimQuotesEnd(s: string): string {
    if s != [] && s[|s| - 1] == '"' then TrimQuotesEnd(s[..|s| - 1]) else s
  }

  function VariantName(v: Json, sv: Services): string {
    if v.Str? then v.s else TrimQuotesEnd(TrimQuotesStart(sv.render(v)))
  }

  function EmptyName(key: string): string { "Targeting rule returned empty variant name for flag '" + key + "'" }

  function UndefinedName(name: string): string {
    "Targeting rule returned variant '" + name + "' which is not defined in flag variants"
  }

  function Refused(e: EvalError, sv: Services): string { "Evaluation error: " + sv.describe(e) }

  function TargetingResult(
    flag: Flag, key: string, metadata: map<string, Json>, outcome: Outcome, sv: Services): Evaluation {
    match outcome
    case Err(e) => Failure(ParseError, Refused(e, sv))
    case Ok(v) =>
      if v.Null? then DefaultResult(flag, key, metadata, Default)
      else
        var variant := VariantName(v, sv);
        if variant == "" then
          if flag.defaultVariant.None? || flag.defaultVariant.value == "" then FallbackResult(key)
          else Failure(General, EmptyName(key))
        else if variant in flag.variants then
          WithMetadata(metadata, flag.metadata,
              Evaluation(flag.variants[variant], Some(variant), TargetingMatch, None, None, None))
        else Failure(General, UndefinedName(variant))
  }

  function RunTargeting(flag: Flag, context: Json, sv: Services): Outcome
    requires flag.targeting.Some?
  {
    if flag.compiled.Some? then Eval(flag.compiled.value, context, sv.library)
    else sv.interpret(flag.targeting.value, context)
  }

  function EvaluateCore(
    flag: Flag, key: string, context: Json, needsEnrichment: bool, metadata: map<string, Json>, now: int,
    sv: Services): Evaluation
  {
    if IsDisabled(flag) then DisabledResult(flag, key, metadata)
    else if NoTargeting(flag) then DefaultResult(flag, key, metadata, Static)
    else
      var evalContext := if needsEnrichment then Obj(Enriched(key, context, now)) else context;
      TargetingResult(flag, key, metadata, RunTargeting(flag, evalContext, sv), sv)
  }

  /** A result that names a variant carries that variant's declared value and the merged metadata and
      no error; any other result carries no value and an error code, and metadata only if it is disabled. */
  predicate Sound(flag: Flag, metadata: map<string, Json>, r: Evaluation) {
    match r.variant
    case Some(v) =>
      && v in flag.variants && r.value == flag.variants[v] && r.errorCode.None?
      && r.metadata == Merged(metadata, flag.metadata)
    case None =>
      && r.value == Null && r.metadata == (if r.reason == Disabled then Merged(metadata, flag.metadata) else None)
      && match r.reason
         case Disabled => r.errorCode == Some(NotFound)
         case Fallback => r.errorCode == Some(NotFound)
         case Error => r.errorCode == Some(ParseError) || r.errorCode == Some(General)
         case _ => false
  }

  predicate HasDefault(flag: Flag) {
    flag.defaultVariant.Some? && flag.defaultVariant.value != "" && flag.defaultVariant.value in flag.variants
  }

  lemma VariantIsSound(flag: Flag, metadata: map<string, Json>, v: string, reason: Reason)
    requires v in flag.variants
    ensures var r := WithMetadata(metadata, flag.metadata,
        Evaluation(flag.variants[v], Some(v), reason, None, None, None));
            Sound(flag, metadata, r) && r.reason == reason && r.variant == Some(v)
  {
    assert Visible(map[]) == map[];
  }

  lemma FailureIsSound(flag: Flag, metadata: map<string, Json>, code: ErrorCode, message: string)
    requires code == ParseError || code == General
    ensures Sound(flag, metadata, Failure(code, message)) && Failure(code, message).reason == Error
    ensures Failure(code, message).errorCode == Some(code)
  {
  }

  lemma FallbackIsSound(flag: Flag, metadata: map<string, Json>, key: string)
    ensures Sound(flag, metadata, FallbackResult(key)) && FallbackResult(key).reason == Fallback
  {
  }

  /** No default variant is configured: the caller's code default applies. */
  predicate NoDefault(flag: Flag) { flag.defaultVariant.None? || flag.defaultVariant.value == "" }

  /** The reason for a default that was or was not found. */
  function DefaultReason(flag: Flag, found: Reason): Reason {
    if HasDefault(flag) then found else if NoDefault(flag) then Fallback else Error
  }

  lemma DefaultIsExact(flag: Flag, key: string, metadata: map<string, Json>, reason: Reason)
    requires reason == Reason.Static || reason == Default
    ensures var r := DefaultResult(flag, key, metadata, reason);
            && Sound(flag, metadata, r) && r.reason == DefaultReason(flag, reason)
            && (HasDefault(flag) ==> r.variant == flag.defaultVariant)
            && r.errorCode != Some(ParseError)
  {
    hide Merged;
    if HasDefault(flag) {
      VariantIsSound(flag, metadata, flag.defaultVariant.value, reason);
    }
  }

  /** The rule's value is the name of a declared variant. */
  predicate Selects(flag: Flag, outcome: Outcome, sv: Services) {
    && outcome.Ok? && !outcome.value.Null?
    && VariantName(outcome.value, sv) != "" && VariantName(outcome.value, sv) in flag.variants
  }

  /** The rule's value is a name, but an empty one. */
  predicate Nameless(outcome: Outcome, sv: Services) {
    outcome.Ok? && !outcome.value.Null? && VariantName(outcome.value, sv) == ""
  }

  /** What the reason of a targeted evaluation has to be. */
  function TargetingReason(flag: Flag, outcome: Outcome, sv: Services): Reason {
    if Selects(flag, outcome, sv) then TargetingMatch
    else if outcome == Ok(Null) then DefaultReason(flag, Default)
    else if Nameless(outcome, sv) && NoDefault(flag) then Fallback
    else Error
  }

  lemma TargetingIsExact(flag: Flag, key: string, metadata: map<string, Json>, outcome: Outcome, sv: Services)
    ensures var r := TargetingResult(flag, key, metadata, outcome, sv);
            && Sound(flag, metadata, r) && r.reason == TargetingReason(flag, outcome, sv)
            && (Selects(flag, outcome, sv) ==> r.variant == Some(VariantName(outcome.value, sv)))
            && (r.reason == Default ==> r.variant == flag.defaultVariant)
            && (r.errorCode == Some(ParseError) <==> outcome.Err?)
  {
    hide DefaultResult, VariantName, Merged, WithMetadata, Sound, Failure, FallbackResult, EmptyName, UndefinedName,
      Refused;
    DefaultIsExact(flag, key, metadata, Default);
    if Selects(flag, outcome, sv) {
      VariantIsSound(flag, metadata, VariantName(outcome.value, sv), TargetingMatch);
    } else if outcome.Err? {
      FailureIsSound(flag, metadata, ParseError, Refused(outcome.error, sv));
    } else if !outcome.value.Null? {
      FallbackIsSound(flag, metadata, key);
      FailureIsSound(flag, metadata, General, EmptyName(key));
      FailureIsSound(flag, metadata, General, UndefinedName(VariantName(outcome.value, sv)));
    }
  }

  /** Every evaluation is sound, and each of the six reasons holds exactly when the flag and its
      rule's outcome call for it. */
  lemma EvaluationIsExact(
    flag: Flag, key: string, context: Json, needsEnrichment: bool, metadata: map<string, Json>, now: int, sv: Services)
    ensures
      var r := EvaluateCore(flag, key, context, needsEnrichment, metadata, now, sv);
      && Sound(flag, metadata, r)
      && (r.reason == Disabled <==> IsDisabled(flag))
      && (IsStatic(flag) && !IsDisabled(flag) ==>
            && (r.reason == Reason.Static <==> HasDefault(flag))
            && (r.reason == Fallback <==> NoDefault(flag))
            && (r.reason == Error <==> !HasDefault(flag) && !NoDefault(flag))
            && (r.reason == Reason.Static ==> r.variant == flag.defaultVariant))
      && (!IsStatic(flag) ==>
            var evalContext := if needsEnrichment then Obj(Enriched(key, context, now)) else context;
            var outcome := RunTargeting(flag, evalContext, sv);
            && (r.reason == TargetingMatch <==> Selects(flag, outcome, sv))
            && (r.reason == Default <==> outcome == Ok(Null) && HasDefault(flag))
            && (r.reason == Fallback <==> NoDefault(flag) && (outcome == Ok(Null) || Nameless(outcome, sv)))
            && (r.reason == Error <==>
                  || outcome.Err?
                  || (!NoDefault(flag) && (Nameless(outcome, sv) || (outcome == Ok(Null) && !HasDefault(flag))))
                  || (!outcome.value.Null? && !Nameless(outcome, sv) && !Selects(flag, outcome, sv)))
            && (r.reason == TargetingMatch ==> r.variant == Some(VariantName(outcome.value, sv)))
            && (r.reason == Default ==> r.variant == flag.defaultVariant)
            && (r.errorCode == Some(ParseError) <==> outcome.Err?))
      && (IsStatic(flag) ==> r.errorCode != Some(ParseError))
  {
    hide Enriched, VariantName, Merged, DefaultResult, TargetingResult;
    DefaultIsExact(flag, key, metadata, Reason.Static);
    if !IsStatic(flag) {
      var evalContext := if needsEnrichment then Obj(Enriched(key, context, now)) else context;
      TargetingIsExact(flag, key, metadata, RunTargeting(flag, evalContext, sv), sv);
    }
  }

  /** A flag's own metadata win over the flag set's, whose `$` keys stay hidden. */
  lemma MergedPrefersTheFlag(flagSet: map<string, Json>, flag: map<string, Json>, k: string)
    ensures var own := Obj(flag).Get(k);
            var shared := if IsPrefixOf("$", k) then None else Obj(flagSet).Get(k);
            Obj(Merged(flagSet, flag).GetOr(map[])).Get(k) == if own.Some? then own else shared
    ensures Merged(flagSet, flag) != Some(map[])
  {
    assert k in Visible(flagSet) <==> k in flagSet && !IsPrefixOf("$", k);
  }

  // ---------------------------------------------------------------------------
  // Entry points.
  // ---------------------------------------------------------------------------

  /** The state of an engine: the loaded flag set, and the flag key of every index. */
  datatype State = State(loaded: Option<FlagSet>, index: seq<string>)

  const EMPTY: State := State(None, [])

  function EvaluateIn(s: State, key: string, context: Json, needsEnrichment: bool, now: int, sv: Services): Evaluation {
    match s.loaded
    case None => Failure(General, "No flag configuration loaded")
    case Some(set_) =>
      if key in set_.flags then
        EvaluateCore(set_.flags[key], key, context, needsEnrichment, set_.metadata, now, sv)
      else
        Evaluation(Null, None, FlagNotFound, Some(NotFound),
            Some("Flag '" + key + "' not found in configuration"), VisibleOnly(set_.metadata))
  }

  /** evaluate_flag: the simple path that every optimization is measured against. */
  function EvaluateFlag(s: State, key: string, context: Json, now: int, sv: Services): Evaluation {
    EvaluateIn(s, key, context, true, now, sv)
  }

  function EvaluatePreEnriched(s: State, key: string, context: Json, now: int, sv: Services): Evaluation {
    EvaluateIn(s, key, context, context.Get("$flagd").None?, now, sv)
  }

  function EvaluateByIndex(s: State, index: nat, context: Json, now: int, sv: Services): Evaluation {
    if index < |s.index| then EvaluatePreEnriched(s, s.index[index], context, now, sv)
    else Failure(NotFound, "No flag at index " + Decimal(index))
  }

  /** Without a configuration every evaluation is an error; a flag is not found exactly if it is not in
      the configuration, and then the visible flag-set metadata are all there is; an index that leads
      nowhere is an error; and any other answer is that of the flag (`EvaluationIsExact`). */
  lemma AnswerIsExact(s: State, key: string, index: nat, context: Json, now: int, sv: Services)
    ensures var r := EvaluateFlag(s, key, context, now, sv);
            && (s.loaded.None? ==> r.reason == Error && r.errorCode == Some(General) && r.metadata == None)
            && (r.reason == FlagNotFound <==> s.loaded.Some? && key !in s.loaded.value.flags)
            && (r.reason == FlagNotFound ==>
                  && r.value == Null && r.variant == None && r.errorCode == Some(NotFound)
                  && r.metadata != Some(map[])
                  && forall k :: Obj(r.metadata.GetOr(map[])).Get(k)
                       == if IsPrefixOf("$", k) then None else Obj(s.loaded.value.metadata).Get(k))
    ensures index >= |s.index| ==>
      var r := EvaluateByIndex(s, index, context, now, sv);
      r.reason == Error && r.errorCode == Some(NotFound) && r.value == Null && r.variant == None
    ensures s.loaded.Some? && key in s.loaded.value.flags ==>
      EvaluateFlag(s, key, context, now, sv)
      == EvaluateCore(s.loaded.value.flags[key], key, context, true, s.loaded.value.metadata, now, sv)
  {
    hide EvaluateCore, Merged;
    if s.loaded.Some? && key in s.loaded.value.flags {
      EvaluationIsExact(s.loaded.value.flags[key], key, context, true, s.loaded.value.metadata, now, sv);
    } else if s.loaded.Some? {
      assert VisibleOnly(s.loaded.value.metadata).GetOr(map[]) == Visible(s.loaded.value.metadata);
    }
  }

  /** A value of a rule and the name it stands for: its own text, or its printed form. */
  predicate StandsFor(v: Json, name: string, sv: Services) {
    if v.Str? then name == v.s
    else
      && !v.Null? && name == sv.render(v)
      && (name != "" ==> name[0] != '"' && name[|name| - 1] != '"')
  }

  /** A rule selects the variant that its value stands for: `true`, printed so, the variant `"true"`. */
  lemma ValueSelectsVariant(
    flag: Flag, key: string, context: Json, needsEnrichment: bool, metadata: map<string, Json>, now: int,
    sv: Services, v: Json, name: string)
    requires !IsStatic(flag) && StandsFor(v, name, sv) && name != ""
    requires var evalContext := if needsEnrichment then Obj(Enriched(key, context, now)) else context;
             RunTargeting(flag, evalContext, sv) == Ok(v)
    ensures var r := EvaluateCore(flag, key, context, needsEnrichment, metadata, now, sv);
            if name in flag.variants then
              r.reason == TargetingMatch && r.variant == Some(name) && r.value == flag.variants[name]
            else r.reason == Error && r.errorCode == Some(General)
  {
    hide Enriched, RunTargeting, Merged;
    assert VariantName(v, sv) == name;
    EvaluationIsExact(flag, key, context, needsEnrichment, metadata, now, sv);
  }

  // ---------------------------------------------------------------------------
  // Filtered contexts.
  // ---------------------------------------------------------------------------

  /** No path can reach a user's key in the reserved `$flagd` name space, `$flagd` itself aside. */
  predicate PlainContext(context: Json) {
    context.Obj? ==> forall k :: k in context.members && IsSegment(k) && IsReserved(k) ==> k == "$flagd"
  }

  /** The required keys that the context has, a targeting key, and the `$flagd` object. */
  function Filtered(key: string, context: Json, required: set<string>, now: int): map<string, Json> {
    var kept := map k | k in required && !IsReserved(k) && context.Get(k).Some? :: context.Get(k).value;
    var targetingKey := context.Get("targetingKey").GetOr(Str(""));
    kept["targetingKey" := targetingKey]["$flagd" := FlagdProperties(key, now)]
  }

  /** Filtering and enriching agree with enriching alone on the required and the reserved keys. */
  lemma FilteredAgrees(key: string, context: Json, required: set<string>, now: int)
    requires PlainContext(context)
    ensures Agree(Enriched(key, context, now), Filtered(key, context, required, now), required)
  {
    var e, f := Enriched(key, context, now), Filtered(key, context, required, now);
    TargetingKeyIsNotReserved();
    forall k
      ensures IsSegment(k) && (k in required || (k in e.Keys + f.Keys && IsReserved(k))) ==>
          Obj(e).Get(k) == Obj(f).Get(k)
    {
    }
  }

  /** `{"exists": k}`, compiled. */
  function ExistsRule(k: string): Node { CompiledExists([Field(k)]) }

  /** Asking for a reserved key is static, and extraction does not report the key. */
  lemma ReservedIsNotReported(k: string)
    requires IsSegment(k) && IsReserved(k)
    ensures Rules.Static(ExistsRule(k)) && RequiredKeys(ExistsRule(k)) == Some({"targetingKey"})
  {
    assert SegmentNames([Field(k)]) == [k];
    SplitJoinFirst([k], '.');
    assert ReadKeys(ExistsRule(k)) == {};
    assert {"targetingKey"} + {} == {"targetingKey"};
  }

  lemma ExistsTells(k: string, a: map<string, Json>, b: map<string, Json>, lib: Library)
    requires k in a && k !in b
    ensures Eval(ExistsRule(k), Obj(a), lib) != Eval(ExistsRule(k), Obj(b), lib)
  {
    var rest: seq<Segment> := [];
    assert [Field(k)][1..] == rest;
    assert NavigateSegments(Obj(b), [Field(k)]) == None;
    assert NavigateSegments(Obj(a), [Field(k)]) == NavigateSegments(a[k], rest);
  }

  /** Filtering a context is right for every static rule exactly when the context is plain. */
  lemma FilteringIsRightIffPlain(key: string, context: Json, now: int, lib: Library)
    ensures (forall n, required :: Rules.Static(n) && RequiredKeys(n) == Some(required) ==>
               Eval(n, Obj(Enriched(key, context, now)), lib)
                   == Eval(n, Obj(Filtered(key, context, required, now)), lib))
       <==> PlainContext(context)
  {
    hide Rules.Static, RequiredKeys, Eval, Agree;
    if PlainContext(context) {
      forall n, required | Rules.Static(n) && RequiredKeys(n) == Some(required)
        ensures Eval(n, Obj(Enriched(key, context, now)), lib)
             == Eval(n, Obj(Filtered(key, context, required, now)), lib)
      {
        FilteredAgrees(key, context, required, now);
        RequiredKeysSuffice(n, required, Enriched(key, context, now), Filtered(key, context, required, now), lib);
      }
    } else {
      var k :| k in context.members && IsSegment(k) && IsReserved(k) && k != "$flagd";
      ReservedIsNotReported(k);
      TargetingKeyIsNotReserved();
      ExistsTells(k, Enriched(key, context, now), Filtered(key, context, {"targetingKey"}, now), lib);
    }
  }

  lemma TargetingKeyIsNotReserved()
    ensures !IsReserved("targetingKey") && IsReserved("$flagd")
  {
    assert "targetingKey"[..6][0] != "$flagd"[0];
  }

  /** A compiled rule whose variables are visible gives the same result on any context that agrees
      with the enriched one on the required and the reserved keys. */
  lemma AgreeingContextKeepsResult(
    flag: Flag, key: string, context: Json, f: map<string, Json>, required: set<string>, metadata: map<string, Json>,
    now: int, sv: Services)
    requires flag.targeting.Some? && flag.compiled.Some? && Rules.Static(flag.compiled.value)
    requires RequiredKeys(flag.compiled.value) == Some(required)
    requires Agree(Enriched(key, context, now), f, required)
    ensures EvaluateCore(flag, key, Obj(f), false, metadata, now, sv)
        == EvaluateCore(flag, key, context, true, metadata, now, sv)
  {
    RequiredKeysSuffice(flag.compiled.value, required, Enriched(key, context, now), f, sv.library);
  }

  /** A static flag's result depends neither on the context nor on the clock. */
  lemma StaticIgnoresContext(
    flag: Flag, key: string, c: Json, d: Json, e: bool, f: bool, metadata: map<string, Json>, t: int, u: int,
    sv: Services)
    requires IsStatic(flag)
    ensures EvaluateCore(flag, key, c, e, metadata, t, sv) == EvaluateCore(flag, key, d, f, metadata, u, sv)
  {
  }
}
