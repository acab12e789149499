/** src/evaluator.rs and src/model/feature_flag.rs: loading configurations, the tables handed to
    hosts, and the engine's state machine. */
module Engine {
  import opened Common
  import opened Text
  import opened Json
  import opened Flags
  import Rules
  import References
  import DepthScan
  import Keys

  // ---------------------------------------------------------------------------
  // ParsingResult::parse.
  // ---------------------------------------------------------------------------

  function ObjectOr(v: Option<Json>): map<string, Json> {
    if v.Some? && v.value.Obj? then v.value.members else map[]
  }

  function Compiled(targeting: Option<Json>, sv: Services): Option<Rules.Node> {
    if targeting.Some? && targeting != Some(Obj(map[])) then sv.compile(targeting.value) else None
  }

  /** The targeting rule after reference resolution, which runs only if there are evaluators. */
  ghost function ResolvedTargeting(targeting: Option<Json>, evals: References.Evaluators): Option<Option<Json>> {
    if evals == map[] || targeting.None? then Some(targeting)
    else if References.Resolvable(targeting.value, evals, {}, 0) then
      Some(Some(References.Inline(targeting.value, evals, {}, 0)))
    else None
  }

  ghost function ReadFlag(name: string, value: Json, evals: References.Evaluators, sv: Services): Option<Flag> {
    match sv.readFlag(value)
    case None => None
    case Some(raw) =>
      match ResolvedTargeting(raw.targeting, evals)
      case None => None
      case Some(targeting) =>
        Some(raw.(key := Some(name), targeting := targeting, compiled := Compiled(targeting, sv)))
  }

  /** The flag set that a configuration describes; `None` when any part of it cannot be read. */
  ghost function ReadFlagSet(config: Json, sv: Services): Option<FlagSet> {
    var evals := ObjectOr(config.Get("$evaluators"));
    var flags := config.Get("flags");
    if flags.None? || !flags.value.Obj? then None
    else
      var members := flags.value.members;
      if forall k :: k in members ==> ReadFlag(k, members[k], evals, sv).Some? then
        Some(FlagSet(
          map k | k in members :: ReadFlag(k, members[k], evals, sv).value, ObjectOr(config.Get("metadata"))))
      else None
  }

  method ParseFlag(name: string, value: Json, evals: References.Evaluators, sv: Services) returns (r: Option<Flag>)
    ensures r == ReadFlag(name, value, evals, sv)
  {
    var raw := sv.readFlag(value);
    if raw.None? {
      return None;
    }
    var flag := raw.value.(key := Some(name));
    if evals != map[] && flag.targeting.Some? {
      var resolver := new References.Resolver(evals);
      var resolved := resolver.Resolve(flag.targeting.value, 0);
      if resolved.Err? {
        return None;
      }
      flag := flag.(targeting := Some(resolved.value));
    }
    flag := flag.(compiled := None);
    if flag.targeting.Some? && flag.targeting != Some(Obj(map[])) {
      flag := flag.(compiled := sv.compile(flag.targeting.value));
    }
    return Some(flag);
  }

  method ParseFlagSet(config: Json, sv: Services) returns (r: Option<FlagSet>)
    ensures r == ReadFlagSet(config, sv)
  {
    var evals := ObjectOr(config.Get("$evaluators"));
    var entry := config.Get("flags");
    if entry.None? || !entry.value.Obj? {
      return None;
    }
    var members := entry.value.members;
    var flags: map<string, Flag> := map[];
    var todo := members.Keys;
    while todo != {}
      invariant todo <= members.Keys && flags.Keys == members.Keys - todo
      invariant forall k :: k in flags ==> ReadFlag(k, members[k], evals, sv) == Some(flags[k])
    {
      var name :| name in todo;
      var flag := ParseFlag(name, members[name], evals, sv);
      if flag.None? {
        return None;
      }
      flags := flags[name := flag.value];
      todo := todo - {name};
    }
    assert forall k :: k in members ==> ReadFlag(k, members[k], evals, sv).Some?;
    assert flags == ReadFlagSet(config, sv).value.flags;
    return Some(FlagSet(flags, ObjectOr(config.Get("metadata"))));
  }

  // ---------------------------------------------------------------------------
  // The tables of an update response.
  // ---------------------------------------------------------------------------

  /** UpdateStateResponse; a rejected configuration leaves every table out. */
  datatype Response = Response(
    success: bool, changedFlags: Option<seq<string>>, preEvaluated: Option<map<string, Evaluation>>,
    requiredContextKeys: Option<map<string, seq<string>>>, flagIndices: Option<map<string, nat>>,
    flagSetMetadata: Option<map<string, Json>>)

  const REJECTED: Response := Response(false, None, None, None, None, None)

  function NonEmpty<V(==)>(m: map<string, V>): Option<map<string, V>> {
    if m == map[] then None else Some(m)
  }

  /** Two flags differ in something other than the compiled form of their rule. */
  predicate IsDifferentFrom(a: Flag, b: Flag) {
    !(a.key == b.key && a.state == b.state && a.defaultVariant == b.defaultVariant && a.variants == b.variants
      && a.targeting == b.targeting && a.metadata == b.metadata)
  }

  /** The keys that an update adds, alters or removes. */
  ghost function ChangedKeys(old_: Option<FlagSet>, new_: FlagSet): set<string> {
    var before := if old_.Some? then old_.value.flags else map[];
    set k | k in before.Keys + new_.flags.Keys &&
            (k !in before || k !in new_.flags || IsDifferentFrom(new_.flags[k], before[k]))
  }

  method DetectChangedFlags(old_: Option<FlagSet>, new_: FlagSet) returns (r: seq<string>)
    ensures r == Keys.Sorted(ChangedKeys(old_, new_))
  {
    var changed: set<string> := {};
    match old_ {
      case None =>
        changed := new_.flags.Keys;
      case Some(old_set) =>
        var todo := new_.flags.Keys;
        while todo != {}
          invariant todo <= new_.flags.Keys
          invariant changed == set k | k in new_.flags && k !in todo &&
                                       (k !in old_set.flags || IsDifferentFrom(new_.flags[k], old_set.flags[k]))
        {
          var key :| key in todo;
          if key !in old_set.flags {
            changed := changed + {key};
          } else if IsDifferentFrom(new_.flags[key], old_set.flags[key]) {
            changed := changed + {key};
          }
          todo := todo - {key};
        }
        ghost var present := changed;
        todo := old_set.flags.Keys;
        while todo != {}
          invariant todo <= old_set.flags.Keys
          invariant changed == present + set k | k in old_set.flags && k !in todo && k !in new_.flags
        {
          var key :| key in todo;
          if key !in new_.flags {
            changed := changed + {key};
          }
          todo := todo - {key};
        }
    }
    assert changed == ChangedKeys(old_, new_);
    r := Keys.Sort(changed);
  }

  /** The results of the flags that need no targeting, as evaluated on an empty context. */
  function PreEvaluated(s: FlagSet, sv: Services): map<string, Evaluation> {
    map k | k in s.flags && IsStatic(s.flags[k]) ::
      EvaluateCore(s.flags[k], k, Obj(map[]), false, s.metadata, 0, sv)
  }

  method PreEvaluateStaticFlags(s: FlagSet, sv: Services) returns (r: map<string, Evaluation>)
    ensures r == PreEvaluated(s, sv)
  {
    hide EvaluateCore;
    r := map[];
    var todo := s.flags.Keys;
    while todo != {}
      invariant todo <= s.flags.Keys
      invariant r == map k | k in PreEvaluated(s, sv) && k !in todo :: PreEvaluated(s, sv)[k]
    {
      var key :| key in todo;
      var flag := s.flags[key];
      if flag.state == "DISABLED" {
        r := r[key := EvaluateCore(flag, key, Obj(map[]), false, s.metadata, 0, sv)];
        todo := todo - {key};
        continue;
      }
      if flag.targeting.None? || flag.targeting == Some(Obj(map[])) {
        r := r[key := EvaluateCore(flag, key, Obj(map[]), false, s.metadata, 0, sv)];
      }
      todo := todo - {key};
    }
  }

  ghost function IndexToKey(s: FlagSet): seq<string> { Keys.Sorted(s.flags.Keys) }

  /** `index as u32`, for every position of the key list; a later entry replaces an earlier one. */
  function IndexTable(keys: seq<string>): map<string, nat> {
    if keys == [] then map[]
    else IndexTable(keys[..|keys| - 1])[keys[|keys| - 1] := (|keys| - 1) % TWO_32]
  }

  ghost function RequiredTable(s: FlagSet): map<string, seq<string>> {
    map k | k in s.flags && HasRequiredKeys(s.flags[k]) ::
      Keys.Sorted(Rules.RequiredKeys(s.flags[k].compiled.value).value)
  }

  predicate HasRequiredKeys(flag: Flag) {
    flag.compiled.Some? && Rules.RequiredKeys(flag.compiled.value).Some?
  }

  method BuildOptimizationMaps(s: FlagSet)
    returns (required: map<string, seq<string>>, indices: map<string, nat>, indexToKey: seq<string>)
    ensures required == RequiredTable(s)
    ensures indices == IndexTable(IndexToKey(s))
    ensures indexToKey == IndexToKey(s)
  {
    hide RequiredTable, Rules.RequiredKeys, Keys.Sorted;
    required, indices, indexToKey := map[], map[], [];
    var keys := Keys.Sort(s.flags.Keys);
    var i := 0;
    while i < |keys|
      invariant i <= |keys| && indexToKey == keys[..i]
      invariant indices == IndexTable(keys[..i])
      invariant required.Keys == set k | k in keys[..i] && k in RequiredTable(s)
      invariant forall k :: k in required ==> required[k] == RequiredTable(s)[k]
    {
      var key := keys[i];
      assert key in s.flags;
      var flag := s.flags[key];
      RequiredEntry(s, key);
      assert keys[..i + 1] == keys[..i] + [key];
      indices := indices[key := i % TWO_32];
      assert keys[..i + 1][..i] == keys[..i];
      indexToKey := indexToKey + [key];
      if flag.compiled.Some? {
        var extracted := Rules.ExtractRequiredContextKeys(flag.compiled.value);
        if extracted.Some? {
          var sorted := Keys.Sort(extracted.value);
          required := required[key := sorted];
        }
      }
      i := i + 1;
    }
    assert keys[..i] == keys;
    RequiredTableKeys(s);
    assert required == RequiredTable(s);
  }

  lemma RequiredEntry(s: FlagSet, k: string)
    requires k in s.flags
    ensures k in RequiredTable(s) <==> HasRequiredKeys(s.flags[k])
    ensures k in RequiredTable(s) ==>
        RequiredTable(s)[k] == Keys.Sorted(Rules.RequiredKeys(s.flags[k].compiled.value).value)
  {
  }

  lemma RequiredTableKeys(s: FlagSet)
    ensures RequiredTable(s).Keys <= s.flags.Keys
  {
  }

  ghost function AcceptedResponse(old_: Option<FlagSet>, new_: FlagSet, sv: Services): Response {
    Response(
      true, Some(Keys.Sorted(ChangedKeys(old_, new_))), NonEmpty(PreEvaluated(new_, sv)), NonEmpty(RequiredTable(new_)),
      NonEmpty(IndexTable(IndexToKey(new_))), NonEmpty(new_.metadata))
  }

  // ---------------------------------------------------------------------------
  // update_state and clear_state.
  // ---------------------------------------------------------------------------

  /** The flag set that an update would load: too deep, invalid (in strict mode) or unreadable
      configurations load nothing. */
  ghost function Load(text: string, strict: bool, sv: Services): Option<FlagSet> {
    if !DepthScan.Accepts(text) || (strict && !sv.isValid(text)) then None
    else
      match sv.readJson(text)
      case None => None
      case Some(config) => ReadFlagSet(config, sv)
  }

  ghost function StateOf(s: FlagSet): State { State(Some(s), IndexToKey(s)) }

  ghost function Update(s: State, text: string, strict: bool, sv: Services): (State, Response) {
    match Load(text, strict, sv)
    case None => (s, REJECTED)
    case Some(new_) => (StateOf(new_), AcceptedResponse(s.loaded, new_, sv))
  }

  class FlagEvaluator {
    var loaded: Option<FlagSet>
    var strict: bool
    var flagIndexMap: seq<string>
    const sv: Services

    constructor (strict: bool, sv: Services)
      ensures Abstract() == EMPTY && this.strict == strict && this.sv == sv
    {
      loaded := None;
      this.strict := strict;
      flagIndexMap := [];
      this.sv := sv;
    }

    function Abstract(): State
      reads this
    {
      State(loaded, flagIndexMap)
    }

    method UpdateState(text: string) returns (r: Response)
      modifies this`loaded, this`flagIndexMap
      ensures (Abstract(), r) == Update(old(Abstract()), text, strict, sv)
    {
      var shallow := DepthScan.CheckJsonDepth(text);
      if !shallow {
        return REJECTED;
      }
      if strict && !sv.isValid(text) {
        return REJECTED;
      }
      var config := sv.readJson(text);
      if config.None? {
        return REJECTED;
      }
      var parsed := ParseFlagSet(config.value, sv);
      if parsed.None? {
        return REJECTED;
      }
      var changed := DetectChangedFlags(loaded, parsed.value);
      var preEvaluated := PreEvaluateStaticFlags(parsed.value, sv);
      var required, indices, indexToKey := BuildOptimizationMaps(parsed.value);
      flagIndexMap := indexToKey;
      loaded := parsed;
      return Response(true, Some(changed), NonEmpty(preEvaluated), NonEmpty(required), NonEmpty(indices),
                      NonEmpty(parsed.value.metadata));
    }

    method ClearState()
      modifies this`loaded, this`flagIndexMap
      ensures Abstract() == EMPTY
    {
      loaded := None;
      flagIndexMap := [];
    }

    method SetValidationMode(strict: bool)
      modifies this`strict
      ensures this.strict == strict
    {
      this.strict := strict;
    }
  }

  // ---------------------------------------------------------------------------
  // Every run.
  // ---------------------------------------------------------------------------

  datatype Operation = UpdateState(text: string) | ClearState | SetValidationMode(strict: bool)

  /** State and validation mode after a sequence of operations on a new engine. */
  ghost function Run(ops: seq<Operation>, strict: bool, sv: Services): (State, bool) {
    if ops == [] then (EMPTY, strict)
    else
      var (s, mode) := Run(ops[..|ops| - 1], strict, sv);
      match ops[|ops| - 1]
      case UpdateState(text) => (Update(s, text, mode, sv).0, mode)
      case ClearState => (EMPTY, mode)
      case SetValidationMode(m) => (s, m)
  }

  /** The flags carry their own names, and each compiled rule is compiled from the flag's rule. */
  ghost predicate WellFormed(s: FlagSet, sv: Services) {
    forall k :: k in s.flags ==>
      s.flags[k].key == Some(k) && s.flags[k].compiled == Compiled(s.flags[k].targeting, sv)
  }

  ghost predicate Consistent(s: State, sv: Services) {
    match s.loaded
    case None => s.index == []
    case Some(set_) => s.index == IndexToKey(set_) && WellFormed(set_, sv)
  }

  lemma LoadIsWellFormed(text: string, strict: bool, sv: Services)
    ensures Load(text, strict, sv).Some? ==> WellFormed(Load(text, strict, sv).value, sv)
  {
  }

  /** After any sequence of updates, accepted or not, clears and mode changes, the index vector is
      the sorted key list of the loaded flags. */
  lemma {:induction false} RunsAreConsistent(ops: seq<Operation>, strict: bool, sv: Services)
    ensures Consistent(Run(ops, strict, sv).0, sv)
  {
    if ops != [] {
      RunsAreConsistent(ops[..|ops| - 1], strict, sv);
      var op := ops[|ops| - 1];
      if op.UpdateState? {
        LoadIsWellFormed(op.text, Run(ops[..|ops| - 1], strict, sv).1, sv);
      }
    }
  }

  // ---------------------------------------------------------------------------
  // Indices.
  // ---------------------------------------------------------------------------

  lemma {:induction false} IndexTableKeys(keys: seq<string>)
    ensures forall k :: k in IndexTable(keys) <==> k in keys
    decreases |keys|
  {
    if keys != [] {
      var last := |keys| - 1;
      IndexTableKeys(keys[..last]);
      assert keys == keys[..last] + [keys[last]];
    }
  }

  lemma {:induction false} IndexTableEntries(keys: seq<string>, i: nat)
    requires i < |keys| && forall a, b :: 0 <= a < b < |keys| ==> keys[a] != keys[b]
    ensures keys[i] in IndexTable(keys) && IndexTable(keys)[keys[i]] == i % TWO_32
    decreases |keys|
  {
    var last := |keys| - 1;
    if i < last {
      IndexTableEntries(keys[..last], i);
      assert keys[..last][i] == keys[i];
    }
  }

  lemma IndexOf(s: FlagSet, k: string) returns (i: nat)
    requires k in s.flags
    ensures i < |IndexToKey(s)| == |s.flags| && IndexToKey(s)[i] == k
    ensures k in IndexTable(IndexToKey(s)) && IndexTable(IndexToKey(s))[k] == i % TWO_32
  {
    var keys := IndexToKey(s);
    i := Keys.SortedPosition(s.flags.Keys, k);
    Keys.SortedSize(keys, s.flags.Keys);
    forall a, b | 0 <= a < b < |keys|
      ensures keys[a] != keys[b]
    {
      if keys[a] == keys[b] {
        Keys.SortedDistinct(s.flags.Keys, a, b);
      }
    }
    IndexTableEntries(keys, i);
  }

  ghost predicate IndexLeadsTo(s: FlagSet, k: string) {
    && k in IndexTable(IndexToKey(s))
    && IndexTable(IndexToKey(s))[k] < |IndexToKey(s)|
    && IndexToKey(s)[IndexTable(IndexToKey(s))[k]] == k
  }

  /** The published index of every flag leads back to that flag exactly when the flags can be
      numbered in 32 bits. */
  lemma IndicesAgree(s: FlagSet)
    ensures (forall k :: k in s.flags ==> IndexLeadsTo(s, k)) <==> |s.flags| <= TWO_32
  {
    hide IndexTable, Keys.Sorted;
    var keys := IndexToKey(s);
    Keys.SortedSize(keys, s.flags.Keys);
    if |s.flags| <= TWO_32 {
      forall k | k in s.flags
        ensures IndexLeadsTo(s, k)
      {
        var i := IndexOf(s, k);
      }
    } else {
      var k := WrappedIndex(s);
      assert !IndexLeadsTo(s, k);
    }
  }

  /** Past 2^32 flags an index wraps around and leads to another flag. */
  lemma WrappedIndex(s: FlagSet) returns (k: string)
    requires |s.flags| > TWO_32
    ensures k in s.flags && !IndexLeadsTo(s, k)
  {
    var keys := IndexToKey(s);
    Keys.SortedSize(keys, s.flags.Keys);
    k := keys[TWO_32];
    assert k in keys;
    var i := IndexOf(s, k);
    Keys.SortedDistinct(s.flags.Keys, i, TWO_32);
    if keys[0] == k {
      Keys.SortedDistinct(s.flags.Keys, 0, TWO_32);
    }
  }

  /** So, in every reachable state, evaluating by the published index is evaluating by the key. */
  lemma ByIndexIsByKey(s: State, key: string, context: Json, now: int, sv: Services)
    requires Consistent(s, sv) && s.loaded.Some? && key in s.loaded.value.flags && |s.loaded.value.flags| <= TWO_32
    ensures key in IndexTable(s.index)
    ensures EvaluateByIndex(s, IndexTable(s.index)[key], context, now, sv)
        == EvaluatePreEnriched(s, key, context, now, sv)
  {
    IndicesAgree(s.loaded.value);
    assert IndexLeadsTo(s.loaded.value, key);
  }

  // ---------------------------------------------------------------------------
  // Pre-evaluated results and change reports.
  // ---------------------------------------------------------------------------

  /** A pre-evaluated entry is the full evaluation, under every context and at every time. */
  lemma PreEvaluatedIsFull(s: State, key: string, context: Json, now: int, sv: Services)
    requires s.loaded.Some? && key in PreEvaluated(s.loaded.value, sv)
    ensures PreEvaluated(s.loaded.value, sv)[key] == EvaluateFlag(s, key, context, now, sv)
  {
    StaticIgnoresContext(s.loaded.value.flags[key], key, Obj(map[]), context, false, true, s.loaded.value.metadata,
        0, now, sv);
  }

  lemma RejectedUpdateChangesNothing(s: State, text: string, strict: bool, sv: Services)
    ensures !Update(s, text, strict, sv).1.success ==> Update(s, text, strict, sv) == (s, REJECTED)
    ensures Update(s, text, strict, sv).1.success <==> Load(text, strict, sv).Some?
  {
  }

  /** What it takes for a key to be reported. */
  ghost predicate Altered(old_: State, new_: State, k: string) {
    var before := if old_.loaded.Some? then old_.loaded.value.flags else map[];
    var after := if new_.loaded.Some? then new_.loaded.value.flags else map[];
    if k in before && k in after then before[k] != after[k] else k in before || k in after
  }

  lemma ChangedKeysAreAltered(before: State, s: FlagSet, sv: Services, k: string)
    requires Consistent(before, sv) && WellFormed(s, sv)
    ensures k in ChangedKeys(before.loaded, s) <==> Altered(before, StateOf(s), k)
  {
    hide Compiled;
    if before.loaded.Some? && k in before.loaded.value.flags && k in s.flags {
      var a, b := before.loaded.value.flags[k], s.flags[k];
      assert IsDifferentFrom(b, a) <==> a != b;
    }
  }

  /** changedFlags is strictly sorted, and lists exactly the keys whose resolved flag was added,
      removed or altered. */
  lemma ChangeReportIsExact(s: State, text: string, strict: bool, sv: Services)
    requires Consistent(s, sv) && Update(s, text, strict, sv).1.success
    ensures var (after, r) := Update(s, text, strict, sv);
            && r.changedFlags.Some? && Keys.StrictlySorted(r.changedFlags.value)
            && forall k :: k in r.changedFlags.value <==> Altered(s, after, k)
  {
    hide Load, Altered, ChangedKeys, Consistent, WellFormed;
    LoadIsWellFormed(text, strict, sv);
    var new_ := Load(text, strict, sv).value;
    forall k
      ensures k in ChangedKeys(s.loaded, new_) <==> Altered(s, StateOf(new_), k)
    {
      ChangedKeysAreAltered(s, new_, sv, k);
    }
  }

  /** A key that an update does not report keeps its result, for every context, as long as the
      flag-set metadata stay the same. */
  lemma UnreportedKeysKeepTheirResult(
    s: State, text: string, strict: bool, key: string, context: Json, now: int, sv: Services)
    requires Consistent(s, sv) && s.loaded.Some? && Update(s, text, strict, sv).1.success
    requires var (after, r) := Update(s, text, strict, sv);
             after.loaded.value.metadata == s.loaded.value.metadata && key !in r.changedFlags.value
    ensures EvaluateFlag(Update(s, text, strict, sv).0, key, context, now, sv) == EvaluateFlag(s, key, context, now, sv)
  {
    ChangeReportIsExact(s, text, strict, sv);
    var after := Update(s, text, strict, sv).0;
    assert !Altered(s, after, key);
  }
}
