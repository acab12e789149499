/** What a loaded configuration is, said without the code that loads it: src/model/feature_flag.rs:217-316
    and src/evaluator.rs:107-209. */
module Loading {
  import opened Common
  import opened Json
  import opened Flags
  import opened Engine
  import opened References
  import DepthScan
  import Hosts
  import Keys
  import Rules

  // ---------------------------------------------------------------------------
  // The configuration.
  // ---------------------------------------------------------------------------

  /** The members of the object under a top-level key, if there is one. */
  function Section(config: Json, name: string): map<string, Json> {
    if config.Obj? && name in config.members && config.members[name].Obj? then config.members[name].members
    else map[]
  }

  /** The configuration that a text holds, if the engine gets as far as reading its flags. */
  ghost function Readable(text: string, strict: bool, sv: Services): Option<Json> {
    if DepthScan.Accepts(text) && (strict ==> sv.isValid(text)) then sv.readJson(text) else None
  }

  /** The rule of flag `k` as the configuration writes it. */
  function WrittenRule(config: Json, k: string, sv: Services): Option<Json> {
    if k in Section(config, "flags") && sv.readFlag(Section(config, "flags")[k]).Some? then
      sv.readFlag(Section(config, "flags")[k]).value.targeting
    else None
  }

  ghost predicate ChainsAreGood(rule: Json, evals: Evaluators) {
    forall c :: Chain(rule, evals, c) ==> GoodChain(c, evals)
  }

  /** The flag decodes, and where there are evaluators its references can be resolved. */
  ghost predicate FlagIsGood(config: Json, k: string, sv: Services)
    requires k in Section(config, "flags")
  {
    var evals := Section(config, "$evaluators");
    var raw := sv.readFlag(Section(config, "flags")[k]);
    raw.Some? && (evals != map[] && raw.value.targeting.Some? ==> ChainsAreGood(raw.value.targeting.value, evals))
  }

  lemma FlagReads(config: Json, k: string, sv: Services)
    requires k in Section(config, "flags")
    ensures var evals := Section(config, "$evaluators");
            ReadFlag(k, Section(config, "flags")[k], evals, sv).Some? <==> FlagIsGood(config, k, sv)
  {
    var evals := Section(config, "$evaluators");
    var raw := sv.readFlag(Section(config, "flags")[k]);
    if raw.Some? && raw.value.targeting.Some? {
      SucceedsIffChainsAreGood(raw.value.targeting.value, evals);
    }
  }

  /** A text loads exactly when it is not too deep, valid if that is asked for, readable, has an object
      of flags, and every flag decodes and has good chains only. */
  lemma LoadsIff(text: string, strict: bool, sv: Services)
    ensures Load(text, strict, sv).Some? <==>
      var config := Readable(text, strict, sv);
      && config.Some? && config.value.Get("flags").Some? && config.value.Get("flags").value.Obj?
      && forall k :: k in Section(config.value, "flags") ==> FlagIsGood(config.value, k, sv)
  {
    hide FlagIsGood, ReadFlag;
    var config := Readable(text, strict, sv);
    if config.Some? {
      forall k | k in Section(config.value, "flags")
        ensures ReadFlag(k, Section(config.value, "flags")[k], Section(config.value, "$evaluators"), sv).Some?
           <==> FlagIsGood(config.value, k, sv)
      {
        FlagReads(config.value, k, sv);
      }
      assert Load(text, strict, sv) == ReadFlagSet(config.value, sv);
      ReadsIff(config.value, sv);
    }
  }

  lemma ReadsIff(config: Json, sv: Services)
    ensures ReadFlagSet(config, sv).Some? <==>
      && config.Get("flags").Some? && config.Get("flags").value.Obj?
      && forall k :: k in Section(config, "flags") ==>
           ReadFlag(k, Section(config, "flags")[k], Section(config, "$evaluators"), sv).Some?
  {
    hide ReadFlag;
    var flags := config.Get("flags");
    if flags.Some? && flags.value.Obj? {
      var members, evals := flags.value.members, ObjectOr(config.Get("$evaluators"));
      assert members == Section(config, "flags") && evals == Section(config, "$evaluators");
      assert ReadFlagSet(config, sv).Some? <==> forall k :: k in members ==> ReadFlag(k, members[k], evals, sv).Some?;
    }
  }

  /** The configuration that was loaded. */
  ghost function Configuration(text: string, strict: bool, sv: Services): Json
    requires Load(text, strict, sv).Some?
  {
    sv.readJson(text).value
  }

  // ---------------------------------------------------------------------------
  // The loaded rules.
  // ---------------------------------------------------------------------------

  /** The rule that a flag is loaded with: the written one without evaluators, else the one with its
      references resolved, in the sense of the syntactic meaning below. */
  ghost function ResolvedRule(rule: Json, evals: Evaluators): Option<Json> {
    if evals == map[] then Some(rule) else LookupMeaning(Syntax(), rule, evals, MAX_REF_DEPTH)
  }

  /** Every rule means itself. */
  ghost function Syntax(): Semantics<Json> {
    Semantics(v => v, items => Arr(items), members => Obj(members))
  }

  lemma {:induction false} SyntaxMeansItself(v: Json)
    ensures Meaning(Syntax(), v) == v
    decreases v
  {
    match v
    case Obj(members) =>
      forall k | k in members
        ensures Meaning(Syntax(), members[k]) == members[k]
      {
        SyntaxMeansItself(members[k]);
      }
      assert MembersMeaning(Syntax(), v) == members;
    case Arr(items) =>
      forall i | 0 <= i < |items|
        ensures Meaning(Syntax(), items[i]) == items[i]
      {
        SyntaxMeansItself(items[i]);
      }
      assert ItemsMeaning(Syntax(), v) == items;
    case _ =>
  }

  /** A loaded flag set holds the flags and metadata of its text, each flag as it was decoded but for
      its name and its rule, which is resolved and then compiled unless it is `{}`. */
  lemma LoadedFlags(text: string, strict: bool, sv: Services, k: string)
    requires Load(text, strict, sv).Some?
    ensures var config := Configuration(text, strict, sv);
            var set_ := Load(text, strict, sv).value;
            && set_.flags.Keys == Section(config, "flags").Keys && set_.metadata == Section(config, "metadata")
            && (k in set_.flags ==>
                  var raw := sv.readFlag(Section(config, "flags")[k]);
                  var rule := WrittenRule(config, k, sv);
                  var loaded := set_.flags[k].targeting;
                  && raw.Some? && set_.flags[k].key == Some(k)
                  && set_.flags[k]
                     == raw.value.(key := Some(k), targeting := loaded, compiled := set_.flags[k].compiled)
                  && (rule.None? ==> loaded.None?)
                  && (rule.Some? ==> loaded.Some? && loaded == ResolvedRule(rule.value, Section(config, "$evaluators")))
                  && set_.flags[k].compiled ==
                     if loaded.None? || loaded.value == Obj(map[]) then None else sv.compile(loaded.value))
  {
    hide LookupMeaning, Inline, Resolvable, Meaning;
    var config := Configuration(text, strict, sv);
    var evals := Section(config, "$evaluators");
    var set_ := Load(text, strict, sv).value;
    if k in set_.flags {
      assert Some(set_.flags[k]) == ReadFlag(k, Section(config, "flags")[k], evals, sv);
      var rule := WrittenRule(config, k, sv);
      if rule.Some? && evals != map[] {
        InlinePreservesMeaning(Syntax(), rule.value, evals, MAX_REF_DEPTH);
        SyntaxMeansItself(Inline(rule.value, evals, {}, 0));
      }
    }
  }

  // ---------------------------------------------------------------------------
  // What loaded rules mean.
  // ---------------------------------------------------------------------------

  /** Without evaluators no reference can be looked up. */
  lemma {:induction false} NothingToLookUp<D(!new)>(sem: Semantics<D>, v: Json, hops: nat)
    requires Names(v) != {}
    ensures LookupMeaning(sem, v, map[], hops).None?
    decreases v
  {
    match v
    case Obj(members) =>
      if RefName(v).None? {
        NamesOfParts(v);
        var k :| k in members && Names(members[k]) != {};
        NothingToLookUp(sem, members[k], hops);
      }
    case Arr(items) =>
      NamesOfParts(v);
      var i :| 0 <= i < |items| && Names(items[i]) != {};
      NothingToLookUp(sem, items[i], hops);
  }

  /** The loaded rule means what the written one means with its references looked up at use, whatever
      rules mean, exactly unless the rule has references and the configuration has no evaluators. */
  lemma LoadedRulesKeepMeaning<D(!new)>(
    sem: Semantics<D>, text: string, strict: bool, sv: Services, k: string, hops: nat)
    requires Load(text, strict, sv).Some? && k in Load(text, strict, sv).value.flags && hops >= MAX_REF_DEPTH
    ensures var config := Configuration(text, strict, sv);
            var evals := Section(config, "$evaluators");
            var rule, loaded := WrittenRule(config, k, sv), Load(text, strict, sv).value.flags[k].targeting;
            && (rule.Some? <==> loaded.Some?)
            && (rule.Some? ==>
                  (LookupMeaning(sem, rule.value, evals, hops) == Some(Meaning(sem, loaded.value))
                   <==> (evals == map[] ==> Names(rule.value) == {})))
  {
    hide LookupMeaning, Inline, Resolvable, Meaning, Names;
    var config := Configuration(text, strict, sv);
    var evals := Section(config, "$evaluators");
    var rule := WrittenRule(config, k, sv);
    LoadedFlags(text, strict, sv, k);
    assert Some(Load(text, strict, sv).value.flags[k]) == ReadFlag(k, Section(config, "flags")[k], evals, sv);
    if rule.Some? {
      if evals != map[] {
        InlinePreservesMeaning(sem, rule.value, evals, hops);
      } else if Names(rule.value) == {} {
        NothingToResolve(rule.value, evals, {}, 0);
        InlinePreservesMeaning(sem, rule.value, evals, hops);
      } else {
        NothingToLookUp(sem, rule.value, hops);
      }
    }
  }

  // ---------------------------------------------------------------------------
  // Editing evaluators.
  // ---------------------------------------------------------------------------

  /** Two configurations that differ in nothing but their evaluators, as far as the engine reads them. */
  predicate SameButEvaluators(a: Json, b: Json) {
    Section(a, "flags") == Section(b, "flags") && Section(a, "metadata") == Section(b, "metadata")
  }

  /** Editing evaluators reports exactly the flags whose resolved rule the edit changes. */
  lemma EditedEvaluatorsAreReported(before: string, after: string, strict: bool, sv: Services, k: string)
    requires Load(before, strict, sv).Some? && Load(after, strict, sv).Some?
    requires SameButEvaluators(Configuration(before, strict, sv), Configuration(after, strict, sv))
    ensures var a, b := Configuration(before, strict, sv), Configuration(after, strict, sv);
            var r := Update(StateOf(Load(before, strict, sv).value), after, strict, sv).1;
            && r.changedFlags.Some?
            && (k in r.changedFlags.value <==>
                  var rule := WrittenRule(a, k, sv);
                  && k in Section(a, "flags") && rule.Some?
                  && ResolvedRule(rule.value, Section(a, "$evaluators"))
                     != ResolvedRule(rule.value, Section(b, "$evaluators")))
  {
    hide Load, Configuration, ResolvedRule, WrittenRule, Consistent;
    var s := StateOf(Load(before, strict, sv).value);
    assert Consistent(s, sv) by {
      LoadedIsConsistent(before, strict, sv);
    }
    ChangeReportIsExact(s, after, strict, sv);
    LoadedFlags(before, strict, sv, k);
    LoadedFlags(after, strict, sv, k);
    SameWrittenRule(Configuration(before, strict, sv), Configuration(after, strict, sv), k, sv);
  }

  lemma LoadedIsConsistent(text: string, strict: bool, sv: Services)
    requires Load(text, strict, sv).Some?
    ensures Consistent(StateOf(Load(text, strict, sv).value), sv)
  {
    hide Load;
    LoadIsWellFormed(text, strict, sv);
  }

  lemma SameWrittenRule(a: Json, b: Json, k: string, sv: Services)
    requires SameButEvaluators(a, b)
    ensures WrittenRule(a, k, sv) == WrittenRule(b, k, sv)
  {
  }

  // ---------------------------------------------------------------------------
  // What an update answers.
  // ---------------------------------------------------------------------------

  lemma InNonEmpty<V>(m: map<string, V>)
    ensures NonEmpty(m).GetOr(map[]) == m && NonEmpty(m) != Some(map[])
  {
  }

  /** The response to an accepted configuration lists: the results of the flags that are disabled or
      have no rule, and of no others; the context keys of the flags whose compiled rule does not need
      the whole context, sorted; an index of every flag; and the flag-set metadata. */
  lemma ResponseIsComplete(s: State, text: string, strict: bool, sv: Services, k: string)
    requires Load(text, strict, sv).Some?
    ensures
      var set_, r := Load(text, strict, sv).value, Update(s, text, strict, sv).1;
      var cached, required := r.preEvaluated.GetOr(map[]), r.requiredContextKeys.GetOr(map[]);
      && r.success
      && (k in cached <==>
            && k in set_.flags
            && (set_.flags[k].state == "DISABLED" || set_.flags[k].targeting in [None, Some(Obj(map[]))]))
      && (k in required <==>
            k in set_.flags && set_.flags[k].compiled.Some? && Rules.RequiredKeys(set_.flags[k].compiled.value).Some?)
      && (k in required ==>
            Keys.Lists(required[k], Rules.RequiredKeys(set_.flags[k].compiled.value).value))
      && (k in r.flagIndices.GetOr(map[]) <==> k in set_.flags)
      && r.flagSetMetadata == (if set_.metadata == map[] then None else Some(set_.metadata))
  {
    hide Load, EvaluateCore, Rules.RequiredKeys, IndexTable, ChangedKeys;
    var set_ := Load(text, strict, sv).value;
    InNonEmpty(PreEvaluated(set_, sv));
    InNonEmpty(RequiredTable(set_));
    InNonEmpty(IndexTable(IndexToKey(set_)));
    IndexTableKeys(IndexToKey(set_));
  }

  // ---------------------------------------------------------------------------
  // What an engine holds.
  // ---------------------------------------------------------------------------

  /** The operation replaces the state: it clears, or its text loads in the mode of that moment. */
  ghost predicate Replaces(ops: seq<Operation>, i: nat, strict: bool, sv: Services)
    requires i < |ops|
  {
    ops[i].ClearState? || (ops[i].UpdateState? && Load(ops[i].text, Run(ops[..i], strict, sv).1, sv).Some?)
  }

  /** The validation mode is the one that was set last. */
  lemma {:induction false} ModeIsLastSet(ops: seq<Operation>, strict: bool, sv: Services, i: nat)
    requires i <= |ops| && forall j :: i <= j < |ops| ==> !ops[j].SetValidationMode?
    ensures i == 0 ==> Run(ops, strict, sv).1 == strict
    ensures i > 0 && ops[i - 1].SetValidationMode? ==> Run(ops, strict, sv).1 == ops[i - 1].strict
  {
    if |ops| > i {
      ModeIsLastSet(ops[..|ops| - 1], strict, sv, i);
    }
  }

  /** After any operations the engine holds what the last replacing one left: the configuration that it
      loaded, or nothing. */
  lemma {:induction false} StateIsLastAccepted(ops: seq<Operation>, strict: bool, sv: Services, i: nat)
    requires i <= |ops| && forall j :: i <= j < |ops| ==> !Replaces(ops, j, strict, sv)
    ensures i == 0 ==> Run(ops, strict, sv).0 == EMPTY
    ensures i > 0 && Replaces(ops, i - 1, strict, sv) ==>
      var op := ops[i - 1];
      Run(ops, strict, sv).0 ==
        if op.ClearState? then EMPTY else StateOf(Load(op.text, Run(ops[..i - 1], strict, sv).1, sv).value)
  {
    hide Load;
    if |ops| > i {
      var shorter := ops[..|ops| - 1];
      forall j | 0 <= j < |shorter|
        ensures Replaces(shorter, j, strict, sv) <==> Replaces(ops, j, strict, sv)
      {
        assert shorter[..j] == ops[..j];
      }
      if i > 0 {
        assert shorter[..i - 1] == ops[..i - 1];
      }
      StateIsLastAccepted(shorter, strict, sv, i);
      assert !Replaces(ops, |ops| - 1, strict, sv);
    }
  }

  /** The same for the Python host, whose texts may be YAML that does not convert. */
  lemma {:induction false} PythonHoldsLastAccepted(
    configs: seq<Option<string>>, strict: bool, sv: Services, i: nat)
    requires i <= |configs|
    requires forall j :: i <= j < |configs| && configs[j].Some? ==> Load(configs[j].value, strict, sv).None?
    ensures i == 0 ==> Hosts.RunUpdates(configs, strict, sv).0 == EMPTY
    ensures i > 0 && configs[i - 1].Some? && Load(configs[i - 1].value, strict, sv).Some? ==>
      Hosts.RunUpdates(configs, strict, sv).0 == StateOf(Load(configs[i - 1].value, strict, sv).value)
  {
    hide Load, Hosts.TablesOf, AcceptedResponse;
    if |configs| > i {
      PythonHoldsLastAccepted(configs[..|configs| - 1], strict, sv, i);
    }
  }
}
