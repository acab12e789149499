/** What the crate's operators answer on the contexts that the engine and the hosts hand to them:
    src/operators/, src/evaluator.rs:684-737. */
module Operators {
  import opened Common
  import opened Text
  import opened Json
  import opened Rules
  import opened VersionText
  import Fractional
  import SemVer
  import Flags
  import Hosts

  // ---------------------------------------------------------------------------
  // Paths.
  // ---------------------------------------------------------------------------

  /** A path is followed part by part. */
  lemma {:induction false} PathsCompose(v: Json, a: seq<string>, b: seq<string>)
    ensures Navigate(v, a + b) == match Navigate(v, a) case None => None case Some(w) => Navigate(w, b)
  {
    if a == [] {
      assert a + b == b;
    } else {
      assert (a + b)[1..] == a[1..] + b;
      if Step(v, a[0]).Some? {
        PathsCompose(Step(v, a[0]).value, a[1..], b);
      }
    }
  }

  /** One part leads to the member of that name, or to the item at the position that it prints. */
  lemma OnePart(members: map<string, Json>, name: string, items: seq<Json>, i: U64)
    ensures Navigate(Obj(members), [name]) == if name in members then Some(members[name]) else None
    ensures Navigate(Arr(items), [Decimal(i)]) == if i < |items| then Some(items[i]) else None
  {
    DecimalDenotes(i);
    var rest: seq<string> := [name][1..];
    assert rest == [] && [Decimal(i)][1..] == rest;
    assert ParseU64(Decimal(i)) == Some(i);
  }

  /** The segments of a compiled path: those that are positions carry the position they print. */
  predicate Compiles(segments: seq<Segment>) {
    && SegmentsToPath(segments) != ""
    && forall i :: 0 <= i < |segments| ==>
         && '.' !in segments[i].Name()
         && ParseU64(segments[i].Name()) == if segments[i].Field? then None else Some(segments[i].index)
  }

  lemma {:induction false} SegmentsFollowNames(v: Json, segments: seq<Segment>)
    requires forall i :: 0 <= i < |segments| ==>
      ParseU64(segments[i].Name()) == if segments[i].Field? then None else Some(segments[i].index)
    ensures NavigateSegments(v, segments) == Navigate(v, SegmentNames(segments))
  {
    hide ParseU64, Decimal;
    if segments != [] {
      var s := segments[0];
      assert StepSegment(v, s) == Step(v, s.Name());
      assert SegmentNames(segments)[1..] == SegmentNames(segments[1..]);
      if StepSegment(v, s).Some? {
        SegmentsFollowNames(StepSegment(v, s).value, segments[1..]);
      }
    }
  }

  /** A compiled variable is the variable with the path that it was compiled from, default included. */
  lemma CompiledIsBuiltin(segments: seq<Segment>, default: Option<Node>, root: Json, lib: Library)
    requires Compiles(segments)
    ensures var path := Value(Str(SegmentsToPath(segments)));
            && Eval(CompiledVar(segments, default), root, lib)
               == Eval(Builtin(Var, if default.Some? then [path, default.value] else [path]), root, lib)
            && Eval(CompiledExists(segments), root, lib) == Eval(Builtin(Exists, [path]), root, lib)
  {
    hide ParseU64, Decimal, Split, Navigate, NavigateSegments;
    var names, path := SegmentNames(segments), Value(Str(SegmentsToPath(segments)));
    SegmentsFollowNames(root, segments);
    SplitInvertsJoin(names, '.');
    assert EvalAll([path], root, lib) == [Ok(Str(SegmentsToPath(segments)))];
    if default.Some? {
      assert EvalAll([path, default.value], root, lib) == [Ok(path.value), Eval(default.value, root, lib)];
    }
  }

  lemma {:induction false} CollectIff(outs: seq<Outcome>, items: seq<Json>)
    ensures Collect(outs) == Ok(items)
       <==> |items| == |outs| && forall i :: 0 <= i < |outs| ==> outs[i] == Ok(items[i])
  {
    if outs == [] {
      assert Collect(outs) == Ok([]);
    } else if items != [] {
      CollectIff(outs[1..], items[1..]);
      assert items == [items[0]] + items[1..];
    }
  }

  /** An array evaluates to the values of its nodes, in their order, if all of them have one. */
  lemma ArrayIff(nodes: seq<Node>, root: Json, lib: Library, items: seq<Json>)
    ensures Eval(Array(nodes), root, lib) == Ok(Arr(items))
       <==> |items| == |nodes| && forall i :: 0 <= i < |nodes| ==> Eval(nodes[i], root, lib) == Ok(items[i])
  {
    var outs := EvalAll(nodes, root, lib);
    CollectIff(outs, items);
    assert forall i :: 0 <= i < |nodes| ==> outs[i] == Eval(nodes[i], root, lib);
  }

  // ---------------------------------------------------------------------------
  // Enriched and filtered contexts.
  // ---------------------------------------------------------------------------

  /** The user's targeting key, or an empty one. */
  function TargetingKey(context: Json): Json { context.Get("targetingKey").GetOr(Str("")) }

  /** The context says which flag is evaluated, when, and for whom. */
  predicate Provides(root: Json, key: string, context: Json, now: int) {
    var flagd := root.Get("$flagd");
    && flagd.Some? && flagd.value.Obj? && flagd.value.members.Keys == {"flagKey", "timestamp"}
    && flagd.value.members["flagKey"] == Str(key) && flagd.value.members["timestamp"] == Num(Int(now))
    && root.Get("targetingKey") == Some(TargetingKey(context))
  }

  /** Enriching adds that and keeps everything else; every host's filtered context has it too. */
  lemma ContextsProvide(key: string, context: Json, required: set<string>, now: int)
    ensures Provides(Obj(Flags.Enriched(key, context, now)), key, context, now)
    ensures forall k :: k != "$flagd" && k != "targetingKey" ==>
        Obj(Flags.Enriched(key, context, now)).Get(k) == context.Get(k)
    ensures Provides(Obj(Flags.Filtered(key, context, required, now)), key, context, now)
    ensures context.Obj? ==> forall byPrefix ::
        Provides(Obj(Hosts.HostFiltered(byPrefix, key, context.members, required, now)), key, context, now)
  {
    hide Provides;
    EnrichedProvides(key, context, now);
    DifferentKeys();
    FilterProvides(Flags.Filtered(key, context, required, now), key, context, now);
    if context.Obj? {
      forall byPrefix: bool
        ensures Provides(Obj(Hosts.HostFiltered(byPrefix, key, context.members, required, now)), key, context, now)
      {
        FilterProvides(Hosts.HostFiltered(byPrefix, key, context.members, required, now), key, context, now);
      }
    }
  }

  lemma DifferentKeys()
    ensures "targetingKey" != "$flagd" && "flagKey" != "timestamp"
  {
    assert "targetingKey"[0] != "$flagd"[0] && "flagKey"[0] != "timestamp"[0];
  }

  lemma FlagdPropertiesAre(key: string, now: int)
    ensures var flagd := Flags.FlagdProperties(key, now);
            && flagd.Obj? && flagd.members.Keys == {"flagKey", "timestamp"}
            && flagd.members["flagKey"] == Str(key) && flagd.members["timestamp"] == Num(Int(now))
  {
    DifferentKeys();
  }

  lemma EnrichedProvides(key: string, context: Json, now: int)
    ensures Provides(Obj(Flags.Enriched(key, context, now)), key, context, now)
  {
    hide Flags.FlagdProperties;
    DifferentKeys();
    FlagdPropertiesAre(key, now);
  }

  lemma FilterProvides(f: map<string, Json>, key: string, context: Json, now: int)
    requires "$flagd" in f && f["$flagd"] == Flags.FlagdProperties(key, now)
    requires "targetingKey" in f && f["targetingKey"] == TargetingKey(context)
    ensures Provides(Obj(f), key, context, now)
  {
    hide Flags.FlagdProperties;
    FlagdPropertiesAre(key, now);
  }

  function VarOf(path: string): Node { Builtin(Var, [Value(Str(path))]) }

  lemma VarOfValue(path: string, root: Json, lib: Library)
    ensures Eval(VarOf(path), root, lib) == Ok(LookupPath(root, path).GetOr(Null))
  {
    hide LookupPath;
    assert EvalAll([Value(Str(path))], root, lib) == [Ok(Str(path))];
  }

  lemma FlagdPath(root: Json, name: string)
    requires '.' !in name
    ensures LookupPath(root, "$flagd." + name) == Navigate(root, ["$flagd", name])
  {
    assert "$flagd." + name == "$flagd" + ['.'] + name;
    SplitOnceConcat("$flagd", name, '.');
    SplitNothing(name, '.');
  }

  /** What rules see of it: the flag's key, the clock, and the targeting key. */
  predicate Tells(root: Json, key: string, context: Json, now: int, lib: Library) {
    && Eval(VarOf("$flagd.flagKey"), root, lib) == Ok(Str(key))
    && Eval(VarOf("$flagd.timestamp"), root, lib) == Ok(Num(Int(now)))
    && Eval(VarOf("targetingKey"), root, lib) == Ok(TargetingKey(context))
  }

  /** Rules see it on the enriched context and on every host's filtered one. */
  lemma ContextsTell(key: string, context: Json, required: set<string>, now: int, lib: Library)
    ensures Tells(Obj(Flags.Enriched(key, context, now)), key, context, now, lib)
    ensures Tells(Obj(Flags.Filtered(key, context, required, now)), key, context, now, lib)
    ensures context.Obj? ==> forall byPrefix ::
        Tells(Obj(Hosts.HostFiltered(byPrefix, key, context.members, required, now)), key, context, now, lib)
  {
    hide Provides, Tells, Flags.Enriched, Flags.Filtered, Hosts.HostFiltered;
    ContextsProvide(key, context, required, now);
    ProvidedVariables(Obj(Flags.Enriched(key, context, now)), key, context, now, lib);
    ProvidedVariables(Obj(Flags.Filtered(key, context, required, now)), key, context, now, lib);
    if context.Obj? {
      forall byPrefix: bool
        ensures Tells(Obj(Hosts.HostFiltered(byPrefix, key, context.members, required, now)), key, context, now, lib)
      {
        ProvidedVariables(
          Obj(Hosts.HostFiltered(byPrefix, key, context.members, required, now)), key, context, now, lib);
      }
    }
  }

  lemma ProvidedVariables(root: Json, key: string, context: Json, now: int, lib: Library)
    requires Provides(root, key, context, now)
    ensures Tells(root, key, context, now, lib)
  {
    hide Eval, Split, SplitOnce;
    var flagd := root.Get("$flagd").value;
    assert "$flagd." + "flagKey" == "$flagd.flagKey" && "$flagd." + "timestamp" == "$flagd.timestamp";
    FlagdPath(root, "flagKey");
    FlagdPath(root, "timestamp");
    SplitNothing("targetingKey", '.');
    assert ["$flagd", "flagKey"][1..] == ["flagKey"] && ["$flagd", "timestamp"][1..] == ["timestamp"];
    PathsCompose(root, ["$flagd"], ["flagKey"]);
    OneMember(root, "$flagd");
    OneMember(root, "targetingKey");
    OneMember(flagd, "flagKey");
    OneMember(flagd, "timestamp");
    assert ["$flagd"] + ["flagKey"] == ["$flagd", "flagKey"];
    assert ["$flagd"] + ["timestamp"] == ["$flagd", "timestamp"];
    PathsCompose(root, ["$flagd"], ["timestamp"]);
    VarOfValue("$flagd.flagKey", root, lib);
    VarOfValue("$flagd.timestamp", root, lib);
    VarOfValue("targetingKey", root, lib);
  }

  lemma OneMember(v: Json, name: string)
    requires v.Obj?
    ensures Navigate(v, [name]) == v.Get(name)
  {
    assert [name][1..] == [];
  }

  // ---------------------------------------------------------------------------
  // Bucketing.
  // ---------------------------------------------------------------------------

  /** The key that stands in for a missing one: flag key, then targeting key. */
  function DefaultKey(key: string, context: Json): string {
    key + if TargetingKey(context).Str? then TargetingKey(context).s else ""
  }

  /** Without an explicit key `fractional` is the operator with the default key in front. Only a single
      bucket has to be a pair: behind an explicit key it would be read as the whole list. */
  lemma ImplicitKeyIsDefault(
    args: seq<Outcome>, root: Json, key: string, context: Json, now: int, murmur: string -> U32)
    requires Provides(root, key, context, now) && args != [] && args[0].Ok? && !args[0].value.Str?
    requires |args| == 1 ==> args[0].value.Arr? && |args[0].value.items| == 2
    ensures EvalFractional(args, root, murmur)
         == EvalFractional([Ok(Str(DefaultKey(key, context)))] + args, root, murmur)
  {
    var all := [Ok(Str(DefaultKey(key, context)))] + args;
    assert all[1..] == args && args[0..] == args;
    assert BucketKey(args[0].value, root) == (DefaultKey(key, context), 0);
    if |args| == 1 {
      var items := args[0].value.items;
      assert FlattenBuckets(args[1..]) == Ok([]);
      assert items[..2] + [] == items;
      assert BucketValues(args, 0) == Ok(items) && BucketValues(all, 1) == Ok(items);
    } else {
      assert BucketValues(args, 0) == BucketValues(all, 1);
    }
  }

  /** A bucket as a rule writes it: name and weight, or only a name for weight one. */
  predicate IsBucket(o: Outcome, name: string, weight: nat) {
    o == Ok(Arr([Str(name), Num(Int(weight))])) || (weight == 1 && o == Ok(Arr([Str(name)])))
  }

  predicate AreBuckets(args: seq<Outcome>, names: seq<string>, ws: seq<nat>) {
    |args| == |names| == |ws| && forall i :: 0 <= i < |args| ==> IsBucket(args[i], names[i], ws[i])
  }

  lemma {:induction false} FlattensToItems(args: seq<Outcome>, names: seq<string>, ws: seq<nat>)
    requires AreBuckets(args, names, ws)
    ensures FlattenBuckets(args) == Ok(Fractional.Items(names, ws))
  {
    if args != [] {
      assert IsBucket(args[0], names[0], ws[0]);
      FlattensToItems(args[1..], names[1..], ws[1..]);
      assert BucketPair(args[0].value.items) == [Str(names[0]), Num(Int(ws[0]))];
    }
  }

  /** Separate buckets behind an explicit key, two or more. */
  lemma ExplicitBuckets(
    key: string, args: seq<Outcome>, names: seq<string>, ws: seq<nat>, root: Json, murmur: string -> U32, k: nat)
    requires AreBuckets(args, names, ws) && |args| > 1 && Fractional.Distributes(names, ws)
    requires k < |ws| && Fractional.InBucket(ws, k, murmur(key))
    ensures EvalFractional([Ok(Str(key))] + args, root, murmur) == Ok(Str(names[k]))
  {
    hide Fractional.InBucket, Fractional.FractionalValue, Fractional.Items;
    var all := [Ok(Str(key))] + args;
    assert all[1..] == args;
    FlattensToItems(args, names, ws);
    Fractional.AnswerIsBucket(key, names, ws, murmur, k);
  }

  /** One list of names and weights behind an explicit key. */
  lemma ListedBuckets(key: string, names: seq<string>, ws: seq<nat>, root: Json, murmur: string -> U32, k: nat)
    requires Fractional.Distributes(names, ws) && k < |ws| && Fractional.InBucket(ws, k, murmur(key))
    ensures EvalFractional([Ok(Str(key)), Ok(Arr(Fractional.Items(names, ws)))], root, murmur) == Ok(Str(names[k]))
  {
    hide Fractional.InBucket, Fractional.FractionalValue, Fractional.Items;
    Fractional.AnswerIsBucket(key, names, ws, murmur, k);
  }

  /** Buckets without a key, any number of them, on a context of the engine or of a host. */
  lemma DefaultKeyBuckets(
    args: seq<Outcome>, names: seq<string>, ws: seq<nat>, root: Json, key: string, context: Json, now: int,
    murmur: string -> U32, k: nat)
    requires Provides(root, key, context, now) && AreBuckets(args, names, ws) && Fractional.Distributes(names, ws)
    requires k < |ws| && Fractional.InBucket(ws, k, murmur(DefaultKey(key, context)))
    ensures EvalFractional(args, root, murmur) == Ok(Str(names[k]))
  {
    hide Fractional.InBucket, Fractional.FractionalValue, Fractional.Items;
    assert IsBucket(args[0], names[0], ws[0]);
    assert args[0..] == args;
    assert BucketKey(args[0].value, root) == (DefaultKey(key, context), 0);
    FlattensToItems(args, names, ws);
    Fractional.AnswerIsBucket(DefaultKey(key, context), names, ws, murmur, k);
  }

  // ---------------------------------------------------------------------------
  // A flag that splits its users.
  // ---------------------------------------------------------------------------

  function BucketNode(name: string, weight: nat): Node { Array([Value(Str(name)), Value(Num(Int(weight)))]) }

  /** An enabled flag with the rule `{"fractional": [[name, weight], ...]}` over its own variants. */
  predicate Splits(flag: Flags.Flag, names: seq<string>, ws: seq<nat>) {
    && Fractional.Distributes(names, ws) && !Flags.IsStatic(flag)
    && flag.compiled == Some(Custom(FractionalOperator,
         seq(|ws|, i requires 0 <= i < |ws| && |names| == |ws| => BucketNode(names[i], ws[i]))))
    && forall i :: 0 <= i < |names| ==> names[i] != "" && names[i] in flag.variants
  }

  lemma BucketNodeValue(name: string, weight: nat, root: Json, lib: Library)
    ensures IsBucket(Eval(BucketNode(name, weight), root, lib), name, weight)
  {
    var a, b := Value(Str(name)), Value(Num(Int(weight)));
    var outs := EvalAll([a, b], root, lib);
    assert outs[0] == Eval(a, root, lib) && outs[1] == Eval(b, root, lib);
    assert outs == [Ok(Str(name)), Ok(Num(Int(weight)))];
    ArrayIff([a, b], root, lib, [a.value, b.value]);
  }

  /** From the context to the variant: the flag serves the variant in whose bucket the hash of flag key
      and targeting key lies. */
  lemma SplitServesBucket(
    flag: Flags.Flag, names: seq<string>, ws: seq<nat>, s: Flags.State, key: string, context: Json, now: int,
    sv: Flags.Services, k: nat)
    requires s.loaded.Some? && key in s.loaded.value.flags && s.loaded.value.flags[key] == flag
    requires Splits(flag, names, ws) && k < |ws|
    requires Fractional.InBucket(ws, k, sv.library.murmur(DefaultKey(key, context)))
    ensures var r := Flags.EvaluateFlag(s, key, context, now, sv);
            && r.variant == Some(names[k]) && r.value == flag.variants[names[k]] && r.reason == Flags.TargetingMatch
            && r.errorCode == None
  {
    hide Fractional.InBucket, Provides, DefaultKey, Flags.EvaluateCore, EvalFractional, BucketNode, Flags.Enriched,
      Flags.Merged;
    var root := Obj(Flags.Enriched(key, context, now));
    var args := seq(|ws|, i requires 0 <= i < |ws| => BucketNode(names[i], ws[i]));
    var outs := EvalAll(args, root, sv.library);
    forall i | 0 <= i < |ws|
      ensures IsBucket(outs[i], names[i], ws[i])
    {
      BucketNodeValue(names[i], ws[i], root, sv.library);
    }
    ContextsProvide(key, context, {}, now);
    DefaultKeyBuckets(outs, names, ws, root, key, context, now, sv.library.murmur, k);
    assert flag.compiled.value == Custom(FractionalOperator, args);
    assert Flags.RunTargeting(flag, root, sv) == Ok(Str(names[k]));
    Flags.EvaluationIsExact(flag, key, context, true, s.loaded.value.metadata, now, sv);
  }

  // ---------------------------------------------------------------------------
  // Versions.
  // ---------------------------------------------------------------------------

  /** A value that stands for a text: itself, a number in its printed form, or null for nothing. */
  predicate HasText(v: Json, text: string) {
    match v
    case Str(s) => text == s
    case Num(Int(i)) => text == Decimal(i)
    case Null => text == ""
    case _ => false
  }

  predicate IsVariable(n: Node, k: string) { '.' !in k && (n == VarOf(k) || n == CompiledVar([Field(k)], None)) }

  /** The operand is a literal that stands for `text`, or a top-level variable with such a value. */
  ghost predicate IsOperand(n: Node, root: Json, text: string) {
    || (n.Value? && HasText(n.value, text))
    || exists k :: IsVariable(n, k) && root.Get(k).Some? && HasText(root.Get(k).value, text)
  }

  lemma OperandIsResolved(n: Node, root: Json, text: string)
    requires IsOperand(n, root, text)
    ensures ResolvedString(Raw(n), root) == Ok(text)
  {
    if !(n.Value? && HasText(n.value, text)) {
      var k :| IsVariable(n, k) && root.Get(k).Some? && HasText(root.Get(k).value, text);
      VariableIsDescended(n, k, root);
    }
  }

  lemma VariableIsDescended(n: Node, k: string, root: Json)
    requires IsVariable(n, k)
    ensures Raw(n) == Obj(map["var" := Str(k)]) && "var" in map["var" := Str(k)]
    ensures Descend(root, Split(k, '.')) == root.Get(k)
  {
    SplitNothing(k, '.');
    RawOfVariable(k);
    assert [k][1..] == [];
  }

  lemma RawOfVariable(k: string)
    ensures Raw(VarOf(k)) == Raw(CompiledVar([Field(k)], None)) == Obj(map["var" := Str(k)])
    ensures "var" in map["var" := Str(k)]
  {
    var path := Value(Str(k));
    assert RawArgs([path]) == Raw(path) == Str(k);
    assert SegmentNames([Field(k)]) == [k];
  }

  /** A variable that is missing makes `sem_ver` fail, unlike a text that is no version. */
  lemma SemVerNeedsItsVariables(a: Node, operator: string, b: Node, root: Json, lib: Library, k: string)
    requires IsVariable(a, k) && root.Get(k).None?
    ensures Eval(Custom(SemVerOperator, [a, Value(Str(operator)), b]), root, lib) == Err(VariableNotFound(k))
  {
    VariableIsDescended(a, k, root);
    assert RawAll([a, Value(Str(operator)), b]) == [Raw(a), Str(operator), Raw(b)];
  }

  /** `sem_ver` compares its first operand with its third; what it cannot compare is false. */
  lemma SemVerAnswers(a: Node, operator: string, b: Node, root: Json, lib: Library, x: string, y: string)
    requires IsOperand(a, root, x) && IsOperand(b, root, y)
    ensures Eval(Custom(SemVerOperator, [a, Value(Str(operator)), b]), root, lib)
         == Ok(Bool(SemVer.SemVer(x, operator, y) == Ok(true)))
  {
    hide IsOperand, ResolvedString, SemVer.SemVer;
    OperandIsResolved(a, root, x);
    OperandIsResolved(b, root, y);
    assert RawAll([a, Value(Str(operator)), b]) == [Raw(a), Str(operator), Raw(b)];
  }
}
