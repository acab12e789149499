# A verified model of the flagd evaluator

The evaluator decides feature flags. Its core is a Rust crate: it loads a configuration of flags and
targeting rules, and evaluates a flag for a context. Host libraries run the core as WebAssembly
(Go, .NET, Java) or link it (Python), and put caches, context filtering and a pool of instances in
front of it. The point of this project is that these fast paths are safe: **on every run and under
every interleaving, what a host answers is what the plain `evaluate_flag` answers, under a
configuration that is up to date; and every update that returns has taken effect.**

The project models the repository in these parts, and each builds on the ones before it.

| file | what it models |
|---|---|
| `Common.dfy`, `Json.dfy`, `Keys.dfy` | result types, text operations, JSON values, sorted key lists |
| `SemVer.dfy`, `VersionText.dfy` | versions, their order, the eight operators of `sem_ver`, and the grammar of version texts |
| `Fractional.dfy` | bucketing by 32-bit hash |
| `JsonText.dfy`, `DepthScan.dfy` | JSON texts as grammar derivations (RFC 8259, sections 2 to 7), and the nesting check |
| `Escape.dfy` | string escaping, and decoding by section 7 of RFC 8259 |
| `GoScan.dfy`, `GoParse.dfy`, `GoRoundTrip.dfy` | Go's hand-written result parser against the printed form of a result |
| `References.dfy` | `$ref` inlining |
| `Rules.dfy`, `Extraction.dfy` | compiled rules: evaluation, key extraction, and non-interference |
| `Flags.dfy`, `Engine.dfy` | evaluation of a flag, loading, the engine's state, the tables it publishes |
| `Loading.dfy` | what a loaded configuration is, and what its rules mean, said without the code that loads it |
| `Operators.dfy` | what `var`, `fractional` and `sem_ver` answer on the contexts that engine and hosts build |
| `Hosts.dfy` | host caches, filtered contexts, the optimized paths, rejected updates, stale filters |
| `GoHost.dfy` | the Go host updating its instances, pool and cache in place, run by one thread |
| `Pool.dfy`, `PoolInvariant.dfy`, `PoolSteps.dfy`, `PoolRuns.dfy` | the pool, generation and snapshot protocol of Go, .NET and Java as atomic steps of any number of threads |
| `PoolCalls.dfy` | what one call means to its caller, over every run: up-to-date answers, updates that take effect |
| `PoolStale.dfy` | a run of Java's context overload that no configuration explains, and exactly when there is none |

## How the source is rendered

- Loops and updates in place are methods with invariants and classes with fields. Each is proved
  equal to a specification function, and the lemmas are about that function.
- Bytes are characters, objects are maps. Iteration over a hash map takes the keys in any order.
- What the crate takes from its libraries is a parameter, in `Flags.Services` and `Rules.Library`:
  JSON reading and printing, schema validation, decoding of a flag, rule compilation, the built-in
  operators, the hash function, and Go's `json.Unmarshal`. A built-in operator sees the context only
  through its evaluated arguments, except `var` and `exists`, which are modelled.
- The clock is a parameter that stays fixed during a call. YAML conversion is a parameter of the
  Python host.
- Widths are explicit where they matter: `u64` identifiers and weights, `u32` hashes and flag
  indices (`IndexTable` wraps as `as u32` does), the `i32::MAX` weight limit.
- An instance of the pool is a private copy of the engine state. An update and an evaluation of one
  instance are atomic and deterministic; everything between them is interleaved.

## Hypotheses that the theorems name

- `Flags.PlainContext`: the user's keys do not begin with `$flagd`, other than `$flagd` itself and keys
  with a dot, which no path reaches. Filtering is right for every static rule exactly then
  (`Flags.FilteringIsRightIffPlain`, `Hosts.HostFilteringIsRightIffPlain`).
- `Rules.Static`: every `var` and `exists` has a path that can be read off, no first path segment
  contains a dot, and no `sem_ver` operand is a literal that merely looks like a variable.
- `Hosts.Admissible`: if hosts filter for the flag that is asked for, its rule is static, and the
  configuration has at most 2^32 flags. Other flags' rules do not matter. Over the pool, it is asked
  of the configurations that were current since the call began, not of earlier ones.
- `PoolInvariant.Assured`: the two hypotheses above and, for Java's context overload, that the
  context was filtered with keys that suit the snapshot. Java's text overload needs none of them.
- `GoRoundTrip.RefusesJson`: `strconv.ParseFloat` takes neither `null` nor a text that begins with a
  bracket.

## Where code and documentation part

- `src/evaluator.rs:1044-1047` says of numeric and array paths that they are treated as needing the
  whole context. The code skips them, like every path that cannot be read off
  (`src/evaluator.rs:923-935`), so filtering drops what they read, unless it is kept for another reason.
  For rules of one variable `Rules.SkippedPathSufficesIff` says exactly when it is, for any path, and
  `LiteralPathSufficesIff` for numbers and arrays; `IntegerPathIsMissed` and `ComputedPathIsMissed` are
  cases in which it never is. For arbitrary rules, which may ignore what they read, `Rules.Static`
  excludes such paths.
- `src/model/feature_flag.rs:325-328` promises a result with all references resolved. A configuration
  without evaluators is not resolved at all, so its references stay in the loaded rules instead of
  failing the load (`src/model/feature_flag.rs:253`); `Loading.LoadedRulesKeepMeaning` says that this is
  the only case in which a loaded rule differs in meaning from the written one. An evaluator whose body is
  a bare string can leave one, as `References.StringBodyLeavesARef` shows; `OutputHasNoRefs` says
  exactly when.
- Numeric pre-release identifiers beyond 64 bits are ordered as text, against section 11 of Semantic
  Versioning 2.0.0: `SemVer.OversizedVersionsDisagree` gives two versions, and
  `SemVer.AgreesIffRepresentable` says which versions are affected.
- White space before an appended `+build` is not trimmed, so build metadata can matter: `1 +b` is
  refused although `1 ` is not, and `1-a +b` is higher than `1-a ` (`SemVer.SpaceBeforeBuild`).
  `SemVer.BuildIsIgnoredIff` says for which versions it never matters.
- Java's context overload serializes before the generation guard and does not redo it after a
  reload. Its answer can then belong to no configuration: `PoolStale.JavaIsNotLinearizable` gives such a
  run, and `PoolStale.StaleRunsAreLinearIff` says exactly when there is one, for rules that read one variable each.
  `Hosts.CoveredIsSimple` gives a sufficient condition for all rules.
- A bucket may leave out its weight of one, but not if it is the only bucket behind an explicit key:
  that list is then read as names and weights (`src/operators/fractional.rs:54-56`). Hence the condition of
  `Operators.ImplicitKeyIsDefault`.
- Past 2^32 flags a published index wraps and leads to another flag (`Engine.WrappedIndex`).
- Go's parser keeps string bytes raw: a string with an escape comes back undecoded. Its metadata
  loop reads strings, booleans and numbers only, while permissive validation also lets null, arrays
  and objects through; such a result goes to `json.Unmarshal`. The round trip of the fast path
  therefore holds exactly for flat metadata and strings without escapes (`GoRoundTrip.RoundTrip`).

## Model

| member | source | states |
|---|---|---|
| PoolCalls.UpdatesTakeEffect | go/evaluator.go:218-273 | for every host, pool size, schedule and thread: an update that ends without an error on the way is refused if and only if its text is too large; if the text loads, its configuration has become the current one at some point since the call began, is reported as a success, and its tables and flag-set metadata are what the host publishes until the next update; if it does not load, it is reported as rejected |
| PoolCalls.AnswersAreCurrent | go/evaluate.go:67-118 | an evaluation that ends without an error answers its own key and context as the simple call does, under a configuration that was current at some point since the call began; for Java's context overload at least if no update was stored meanwhile |
| PoolCalls.ReadsFollowUpdates | go/evaluator.go:256-267 | whoever evaluates after an accepted update has returned gets the answer of that configuration or of a later one |
| PoolCalls.ConfigurationsAreUpdates | go/evaluator.go:256-267 | nothing but updates changes the configuration: each one in the history is what a text, with which an update was begun and which is not too large, made of the one before; a text that does not load makes the same one of it |
| PoolCalls.CallStays | go/evaluate.go:67-118 | along every run a thread works on the very call it began, with its data and start, and the call breaks only by a failing step |
| PoolRuns.Linearizable | go/evaluate.go:67-118 | over every schedule of any number of evaluators and updaters, each answer is the simple evaluation of its key and context under a configuration current between the call's start and end: for Java's text overload always, for Go and .NET if the context is plain and the asked flag's rule was static in the configurations current since the call began, for Java's context overload if also what it sent suits its snapshot |
| PoolRuns.SnapshotMatchesInstance | go/evaluate.go:76-88 | at every instance call, on all three hosts, the snapshot is the current one, carries the instance's generation, and its tables fit the instance's configuration: no stale index or key set meets a newer instance |
| PoolRuns.InstancesAreCurrent | go/evaluator.go:256-270 | in every reachable state each instance not held by the updater carries the current configuration and generation |
| PoolRuns.InstancesAreConserved | go/evaluator.go:227-270 | in every reachable state, after errors too, pooled and held instances together are the original ones, each exactly once |
| PoolRuns.NobodyShares | go/evaluate.go:76-78 | no instance is held by two threads, or held and pooled |
| PoolRuns.MetadataIsCurrent | go/evaluator.go:205-214 | the flag-set metadata that a host reports, if any, are those of the current configuration |
| PoolRuns.RunsMoveForward | go/evaluator.go:256-267 | along every run the snapshot's generation and the generations each thread reads never decrease, and no installed configuration changes |
| PoolRuns.NoDeadlock | go/evaluator.go:219-231 | while any call is pending some thread inside a call can take a working step, not counting failures: draining under the lock cannot deadlock, and giving back never meets a full pool |
| PoolRuns.EveryCallEnds | go/evaluator.go:227-270 | if no new call begins, only boundedly many steps remain from any reachable state, so every pending call ends |
| PoolRuns.RejectionInstallsNothingNew | go/evaluator.go:233-267 | when Go installs the empty snapshot of a rejected update, without tables and metadata, the current configuration and every instance's engine are unchanged; the other hosts never get that far |
| PoolStale.StaleRunsAreLinearIff | java/src/main/java/dev/openfeature/flagd/evaluator/FlagEvaluator.java:487-552 | in the run where a call loads its snapshot before an update and its instance after it, for rules that read variable `a` before and `b` after, the answers are linear under all plain contexts if and only if `b` is `a` or the targeting key |
| PoolStale.JavaIsNotLinearizable | java/src/main/java/dev/openfeature/flagd/evaluator/FlagEvaluator.java:487-552 | so Java's context overload is not linearizable: a concrete machine and two configurations, and a run with a plain context and admissible configurations whose answer no configuration of the call gives |
| PoolStale.StaleRun | java/src/main/java/dev/openfeature/flagd/evaluator/FlagEvaluator.java:487-552 | that schedule is a run of the protocol from the initial state; it ends in the reply to the context filtered with the first snapshot, with both configurations in the call's window |
| PoolStale.UpdateRuns | java/src/main/java/dev/openfeature/flagd/evaluator/FlagEvaluator.java:244-307 | an uninterrupted update on a pool of one takes thirteen steps and leaves the new configuration, generation and snapshot, the instance pooled and the lock free |
| PoolRuns.RunInvariant | dotnet/src/FlagdEvaluator/FlagEvaluator.cs:56-184 | the protocol invariant holds after every schedule, on every host |
| PoolRuns.StepIsLater | go/evaluator.go:256-267 | one step never lowers a generation that the cache holds or a thread has read |
| PoolRuns.StepAdvances | go/evaluate.go:67-118 | every step inside a call moves only its thread, and brings it strictly nearer the end |
| PoolSteps.EvaluateKeeps | go/evaluate.go:69-118 | each evaluator step (load, take, guard, reload, call, give back) keeps the invariant |
| PoolSteps.ApplyKeeps | go/evaluator.go:219-272 | each updater step (lock, drain one, update first, join, bump, stamp one, store, give one back, unlock) keeps the invariant |
| PoolSteps.UpdatingOneKeeps | go/evaluator.go:244-254 | the parallel updates of the other instances keep it in any order |
| PoolSteps.UpdatingFirstKeeps | dotnet/src/FlagdEvaluator/FlagEvaluator.cs:69-77 | the first update keeps it whether it is accepted, rejected or refused for size; .NET and Java then give all instances back unchanged |
| PoolSteps.StoringKeeps | go/evaluator.go:266-267 | swapping the snapshot keeps it: the new tables fit the new configuration, all instances carry the new generation, and earlier answers stay linear |
| PoolSteps.HeldIsCurrent | go/evaluate.go:80-88 | an instance held outside an update is the current configuration under the current generation |
| PoolSteps.ReplyIsSimple | go/evaluate.go:90-117 | with a fitting snapshot, a suiting plain context and a static rule of the asked flag the instance's reply is the simple answer; a reply to a text always is |
| PoolInvariant.DrainedAll | go/evaluator.go:227-231 | an updater that took as many instances as the pool holds has every instance once, the pool is empty, and nobody else holds any |
| GoHost.GoEvaluator.UpdateState | go/evaluator.go:218-273 | in place: drains, updates all instances, bumps, stamps, stores, gives back; every instance ends in the engine's new state, the snapshot is that of the response under the next generation, a too large text changes nothing |
| GoHost.GoEvaluator.EvaluateFlag | go/evaluate.go:67-118 | returns its instance, keeps the host valid, and answers as the simple call for plain contexts if the asked flag is admissible |
| GoHost.GoEvaluator.Renew | go/evaluator.go:233-267 | under the lock, with all instances drained: updates them, bumps the generation, stamps them, stores the response's snapshot |
| GoHost.GoEvaluator.UpdateAll | go/evaluator.go:233-254 | the loop over instances leaves all in the same updated state and returns the first one's response |
| GoHost.GoEvaluator.constructor | go/evaluator.go:70-127 | pool of the requested size (processor count if not positive), empty configuration, generation 0 |
| GoHost.BuildCacheSnapshot | go/evaluator.go:302-335 | the loops build exactly the tables and the flag-set metadata of the response, a missing table as an empty one |
| GoHost.SerializeFilteredContext | go/evaluate.go:197-245 | writes the required keys present in the context, always a targeting key and the `$flagd` object, nothing else |
| Hosts.OptimizedRefinesSimple | python/src/lib.rs:94-130 | after every sequence of accepted, rejected and unconvertible updates the optimized path answers every plain context as `evaluate_flag` does, for every key whose own rule is static |
| Hosts.OptimizedIsSimple | python/src/lib.rs:94-117 | the same for any state and any tables that fit it, cached, by index, by key or in full |
| Hosts.RunUpdatesFits | python/src/lib.rs:120-130 | after every run the caches fit the engine's state |
| Hosts.PythonEvaluator.UpdateState | python/src/lib.rs:173-197 | changes engine and caches together, or neither when YAML does not convert |
| Hosts.PythonEvaluator.EvaluateOptimized | python/src/lib.rs:94-117 | the three-way choice equals its specification, and the simple answer when the evaluator is valid and the asked flag admissible |
| Hosts.PythonEvaluator.UpdateCachesFromResponse | python/src/lib.rs:120-130 | overwrites all caches with the tables of the response |
| Hosts.BuildFilteredContext | python/src/lib.rs:53-88 | the loop keeps exactly the required keys that are present and not reserved, a targeting key, and `$flagd` |
| Hosts.SentIsSimple | go/evaluate.go:90-117 | for a fitting snapshot, whichever context is sent and whichever export is called, the instance answers as to the plain call |
| Hosts.CachedIsSimple | go/evaluate.go:71-74 | a pre-evaluated entry is what the instance would answer to any context |
| Hosts.SimpleIsEngine | src/lib.rs:422-480 | the call that all hosts are measured against is the engine's own evaluation, or an error before anything is loaded |
| Hosts.HostFilteredAgrees | dotnet/src/FlagdEvaluator/ContextSerializer.cs:44-82 | a filtered context agrees with the enriched one on the required and the reserved keys, for either way of skipping reserved keys |
| Hosts.HostFilteringIsRightIffPlain | go/evaluate.go:197-245 | with either way of skipping reserved keys, filtering is right for every static rule if and only if the context is plain |
| Hosts.RejectionIsUnobservable | go/evaluator.go:233-267 | after a rejected update both Go's empty tables and .NET's old ones give, for every key and context, the answer from before |
| Hosts.UpdateFits | go/evaluator.go:302-335 | the tables taken from any response fit the state after the update |
| Hosts.CoveredIsSimple | java/src/main/java/dev/openfeature/flagd/evaluator/FlagEvaluator.java:503-543 | a context filtered with another snapshot's keys still gives the right answer if those keys cover the needed ones |
| Hosts.StaleFilterIsRightIff | java/src/main/java/dev/openfeature/flagd/evaluator/FlagEvaluator.java:503-543 | for a flag that reads one variable, a stale filter gets the new configuration's answer under all contexts if and only if its keys include the variable |
| Hosts.StaleAnswerIsNobodys | java/src/main/java/dev/openfeature/flagd/evaluator/FlagEvaluator.java:527-541 | if the new variable is neither the old one nor the targeting key, some plain context gets an answer of neither configuration |
| Hosts.StaleAnswersBelongIff | java/src/main/java/dev/openfeature/flagd/evaluator/FlagEvaluator.java:527-541 | the answers to all plain contexts belong to one of the two configurations if and only if the new variable is the old one or the targeting key |
| Engine.FlagEvaluator.UpdateState | src/evaluator.rs:107-209 | the new state and the response are those of `Engine.Update`: loaded on success, untouched on any rejection |
| Engine.FlagEvaluator.ClearState | src/evaluator.rs:244-247 | back to the empty state and index vector |
| Engine.RunsAreConsistent | src/evaluator.rs:107-247 | after any sequence of updates, clears and mode changes the index vector is the sorted key list of the loaded flags |
| Engine.IndicesAgree | src/evaluator.rs:810-844 | the published index of every flag leads back to that flag if and only if there are at most 2^32 flags |
| Engine.WrappedIndex | src/evaluator.rs:825-829 | beyond that some index leads to another flag |
| Engine.ByIndexIsByKey | src/evaluator.rs:778-790 | evaluating by the published index is evaluating by the key |
| Engine.BuildOptimizationMaps | src/evaluator.rs:810-844 | the loop builds the required-key table, the index table and the sorted key list |
| Engine.PreEvaluateStaticFlags | src/evaluator.rs:602-642 | the loop collects exactly the disabled and the rule-less flags, each with its result |
| Engine.PreEvaluatedIsFull | src/evaluator.rs:602-642 | such a result equals the full evaluation under every context and at every time |
| Engine.DetectChangedFlags | src/evaluator.rs:645-682 | the loops return the sorted list of changed keys |
| Engine.ChangeReportIsExact | src/evaluator.rs:645-682 | the report is strictly sorted and lists a key if and only if its resolved flag was added, removed or altered |
| Engine.UnreportedKeysKeepTheirResult | src/evaluator.rs:645-682 | with equal flag-set metadata an unlisted key keeps its result for every context |
| Engine.RejectedUpdateChangesNothing | src/evaluator.rs:107-169 | a rejected configuration leaves the state unchanged, and rejection is exactly failing to load |
| Engine.ParseFlagSet | src/model/feature_flag.rs:217-316 | reading a configuration fails if and only if some flag cannot be read; otherwise it holds every flag, resolved and compiled |
| Engine.ParseFlag | src/model/feature_flag.rs:265-305 | one flag: named, its rule resolved when there are evaluators, then compiled |
| Loading.LoadsIff | src/model/feature_flag.rs:217-316 | a text loads if and only if it nests at most as deep as allowed, is valid where that is asked for, can be read, has an object of flags, and every flag decodes and, where there are evaluators, has good reference chains only |
| Loading.LoadedFlags | src/model/feature_flag.rs:245-305 | the loaded set has the flags and metadata of the text; each flag is as decoded, with its name, with the rule that looking its references up gives, and with the compiled form of that very rule unless it is `{}` |
| Loading.LoadedRulesKeepMeaning | src/model/feature_flag.rs:252-266 | under every compositional semantics a loaded rule means what the written one means with its references looked up at use, if and only if there are evaluators or nothing to look up |
| Loading.EditedEvaluatorsAreReported | src/evaluator.rs:645-682 | an edit of evaluators reports exactly the flags whose resolved rule it changes |
| Loading.ResponseIsComplete | src/evaluator.rs:107-209 | the response to an accepted text caches the disabled and rule-less flags and no others, lists the sorted keys of exactly the flags that can be filtered for, an index of every flag, and the flag-set metadata |
| Loading.StateIsLastAccepted | src/evaluator.rs:107-247 | after any operations the engine holds the configuration of the last text that loaded, or nothing if it was cleared since or none has loaded |
| Loading.ModeIsLastSet | src/evaluator.rs:239-241 | the validation mode is the one that was set last |
| Loading.PythonHoldsLastAccepted | python/src/lib.rs:173-197 | the same for the Python host, whose texts may be YAML that does not convert |
| Flags.EvaluationIsExact | src/evaluator.rs:347-488 | a result naming a variant carries that variant's declared value and merged metadata, any other an error code and no value; each of the six reasons, fallback and error included, holds exactly when the flag and its rule's outcome call for it; the error code tells a failing rule from the other errors |
| Flags.AnswerIsExact | src/evaluator.rs:296-345 | a flag is not found if and only if it is not in the loaded configuration, and then only visible flag-set metadata are returned; before loading and for an index that leads nowhere the answer is an error; any other answer is that of the flag |
| Flags.ValueSelectsVariant | src/evaluator.rs:441-486 | a rule selects the variant that its value names: a string itself, `true` or a number by its printed form; an undeclared name is an error |
| Flags.MergeMetadata | src/evaluator.rs:711-737 | the loop merges flag-set and flag metadata |
| Flags.MergedPrefersTheFlag | src/evaluator.rs:711-737 | the flag's own entries win, the flag set's `$` keys stay hidden |
| Flags.FilteredAgrees | python/src/lib.rs:53-88 | filtering agrees with enriching on the required and reserved keys |
| Flags.FilteringIsRightIffPlain | python/src/lib.rs:53-88 | a context gives every static rule the same result filtered as enriched if and only if it is plain |
| Flags.AgreeingContextKeepsResult | src/evaluator.rs:795-804 | a pre-enriched context that agrees on the required keys gives the result of the enriched full one |
| Flags.StaticIgnoresContext | src/evaluator.rs:376-395 | a disabled or rule-less flag's result depends on neither context nor clock |
| Rules.RequiredKeysSuffice | src/evaluator.rs:889-1058 | filtering soundness: if extraction returns K, a static rule gives the same result on any two contexts that agree on K and the reserved keys |
| Rules.EvalAgrees | src/evaluator.rs:906-1016 | the induction behind it, over every kind of node |
| Rules.OperandAgrees | src/operators/common.rs:16-56 | what `sem_ver` looks up by itself is a key that extraction reports |
| Rules.FractionalAgrees | src/operators/fractional.rs:32-48 | the implicit bucketing key reads only `$flagd` and the targeting key |
| Rules.KeysSufficeIffCovered | src/evaluator.rs:906-935 | for a `var` or `exists` of any path, filtering by a set of keys is right under all contexts if and only if the set covers what the path reads |
| Rules.SkippedPathSufficesIff | src/evaluator.rs:923-935 | a path that cannot be read off is skipped; the keys that extraction then reports suffice if and only if they happen to cover it |
| Rules.LiteralPathSufficesIff | src/evaluator.rs:1035-1058 | the same for a literal number or array as the path, with the targeting key as the only reported key |
| Rules.IntegerPathIsMissed | src/evaluator.rs:1044-1047 | so filtering always loses what an integer path reads |
| Rules.ComputedPathIsMissed | src/evaluator.rs:923-935 | a path computed by `cat` is skipped: two contexts that agree on the reported keys give different results, so these keys do not suffice |
| Rules.ExtractRequiredContextKeys | src/evaluator.rs:889-899 | the traversal returns exactly the keys of visible paths, or nothing when some variable is the whole context |
| Extraction.ExtractionIsExact | src/evaluator.rs:889-1058 | extraction gives up if and only if some node of the rule may read the whole context; otherwise it reports the targeting key and exactly the first parts of the paths that the nodes of the rule read, unless reserved |
| Rules.KeyCollector.Walk | src/evaluator.rs:906-1011 | the traversal stops if and only if a node reads the whole context, and otherwise adds exactly the node's keys |
| Rules.ResolveStringFromContext | src/operators/common.rs:16-56 | the cursor loop equals the descent along the path, with the same errors |
| Rules.EvaluateFractional | src/operators/fractional.rs:18-97 | key choice and bucket flattening, in both argument forms |
| Operators.ContextsProvide | src/evaluator.rs:684-709 | enriching sets `$flagd` to exactly flag key and time and supplies an empty targeting key if there is none, and keeps everything else; every filtered context has the same three |
| Operators.ContextsTell | src/evaluator.rs:684-709 | on the enriched and on every host's filtered context `$flagd.flagKey`, `$flagd.timestamp` and `targetingKey` evaluate to the flag's key, the clock, and the user's targeting key or the empty string |
| Operators.ImplicitKeyIsDefault | src/operators/fractional.rs:32-48 | on these contexts `fractional` without a key is `fractional` with flag key followed by targeting key in front, with more than one bucket or a single pair |
| Operators.DefaultKeyBuckets | src/operators/fractional.rs:32-87 | without a key, any number of buckets, weighted or not: the name of the bucket between whose thresholds the hash of flag key and targeting key lies |
| Operators.ExplicitBuckets | src/operators/fractional.rs:58-87 | the same for an explicit key and separate buckets |
| Operators.ListedBuckets | src/operators/fractional.rs:49-57 | the same for an explicit key and one list |
| Operators.SplitServesBucket | src/evaluator.rs:347-488 | from the context to the result: a flag with such a rule serves the variant in whose bucket the hash lies, with its value |
| Operators.SemVerAnswers | src/operators/sem_ver.rs:16-46 | `sem_ver` compares its first operand with its third, literals or variables; what it cannot compare is false |
| Operators.SemVerNeedsItsVariables | src/operators/common.rs:16-56 | but a missing variable is an error |
| Operators.CompiledIsBuiltin | src/evaluator.rs:966-1030 | a compiled `var` or `exists` is the built-in one with the same path, default included |
| Operators.PathsCompose | src/operators/common.rs:16-56 | a path is followed part by part |
| Operators.OnePart | src/operators/common.rs:16-56 | one part leads to the member of that name, or to the item at that position |
| References.Resolver.Resolve | src/model/feature_flag.rs:337-394 | on every chain `visited` has as many names as the depth; success exactly when resolvable, with the inlined value and `visited` restored; on failure an error the rule can produce |
| References.SucceedsIffChainsAreGood | src/model/feature_flag.rs:337-376 | resolution succeeds if and only if every reachable name exists, no chain repeats a name, and none makes more than 64 hops |
| References.DepthErrorNeedsManyEvaluators | src/model/feature_flag.rs:343-348 | with at most 64 evaluators the depth error cannot occur |
| References.RefNameIff | src/model/feature_flag.rs:349-356 | a reference is an object with nothing but a string under `$ref` |
| References.InlinePreservesMeaning | src/model/feature_flag.rs:329-394 | under every compositional semantics the inlined rule means what the original means with its references looked up at use |
| References.OutputHasNoRefs | src/model/feature_flag.rs:329-394 | the output still holds a reference if and only if the rule makes one out of a string body |
| References.SecondPassIsIdentity | src/model/feature_flag.rs:329-394 | with no string bodies a second pass with any evaluators changes nothing |
| References.StringBodyLeavesARef | src/model/feature_flag.rs:349-376 | a string body can leave an unresolved reference |
| GoRoundTrip.RoundTrip | go/parse.go:18-318 | for every result, with any metadata, parsing the printed text takes the fast path and returns that result if and only if its metadata are flat and none of its own strings, metadata strings and metadata keys needs an escape |
| GoRoundTrip.FastIffFlat | go/parse.go:18-147 | the fast path is taken if and only if the metadata are flat; otherwise, and only then, the text goes to json.Unmarshal |
| GoRoundTrip.MetaAtRefuses | go/parse.go:233-318 | entries with a null, array or object among them make parseMetadata give up, wherever it stands |
| GoRoundTrip.ParseOfFields | go/parse.go:18-148 | any object of such fields, with flat metadata, in any order takes the fast path; numbers and nested values are decoded from exactly their own bytes |
| GoRoundTrip.ValueAtTree | go/parse.go:151-230 | one value of any kind, and the position after it |
| GoRoundTrip.MetaAtEntries | go/parse.go:233-318 | flat metadata entry by entry, a later key replacing an earlier one |
| GoParse.ParseEvalResult | go/parse.go:18-148 | the loop over fields equals its specification; every index stays in bounds and every loop ends |
| GoParse.ParseValue | go/parse.go:151-230 | the same for values |
| GoParse.ParseMetadata | go/parse.go:233-318 | the same for metadata |
| GoScan.SkipEndOfTree | go/parse.go:322-382 | skipValue started on any JSON value stops exactly at its end |
| GoScan.SkipValue | go/parse.go:322-382 | the nested loops equal their specification on every text |
| GoScan.QuotedAt | go/parse.go:325-335 | the quote loop started after an opening quote stops exactly at the closing one |
| GoScan.ExtentOfTree | go/parse.go:195-227 | the extent of a number or container is exactly its own text |
| DepthScan.AcceptsByDepth | src/limits.rs:36-72 | a JSON text of any spacing and escaping is accepted if and only if it nests at most 128 deep, and the scan then ends at depth zero without saturating |
| DepthScan.ScanTree | src/limits.rs:36-72 | over one value the scan returns to its depth, or rejects exactly when the value goes too deep |
| DepthScan.FlagsFollowTheString | src/limits.rs:41-56 | the in-string and escape flags agree with the position in the string grammar |
| DepthScan.CheckJsonDepth | src/limits.rs:36-72 | the byte loop equals the scan |
| Escape.UnescapeInvertsEscape | go/evaluate.go:283-321 | decoding the escaped form by section 7 of RFC 8259 gives the string back |
| Escape.NoEscapeIsIdentity | go/evaluate.go:283-297 | the fast path is right, and only for strings that need no escape |
| Escape.EscapeJSONString | go/evaluate.go:283-321 | both paths of the loop produce the escaped form |
| Escape.EscapeIsInjective | go/evaluate.go:283-321 | different strings have different escaped forms |
| Fractional.ShareIsExact | src/operators/fractional.rs:182-197 | of all 2^32 hashes bucket k gets exactly ceil(C_k+1 * 2^32 / W) - ceil(C_k * 2^32 / W) |
| Fractional.ShareIsProportional | src/operators/fractional.rs:182-197 | so its share is within one hash of weight * 2^32 / W |
| Fractional.EmptyIffZeroWeight | src/operators/fractional.rs:190-202 | a bucket is empty if and only if its weight is zero |
| Fractional.AssignIsInterval | src/operators/fractional.rs:182-197 | a bucket is the interval of hashes between two thresholds |
| Fractional.BucketValueInRange | src/operators/fractional.rs:182-188 | the product fits 64 bits and the value lies below the total, so the final fallback is dead |
| Fractional.ScalingMovesNobody | src/operators/fractional.rs:157-197 | multiplying all weights by a factor changes no assignment |
| Fractional.SplittingKeepsBorders | src/operators/fractional.rs:190-197 | splitting a bucket moves nobody across its outer borders |
| Fractional.GrowingFirstKeepsKeys | src/operators/fractional.rs:190-197 | growing the first bucket at a fixed total never removes a key from it |
| Fractional.Fractional | src/operators/fractional.rs:126-203 | the two loops return the assigned bucket's name, or the error of the first bad definition |
| Fractional.ReadDefinitions | src/operators/fractional.rs:131-168 | the first loop reads the definitions and their total weight |
| Fractional.AnswerIff | src/operators/fractional.rs:126-203 | for every list of names and weights with a total from 1 to 2^31 - 1 the operator answers a name if and only if the hash of the key lies between the thresholds of a bucket of that name |
| Fractional.NameGetsItsShare | src/operators/fractional.rs:182-197 | of all 2^32 hashes exactly as many get a name as the shares of its buckets sum to |
| Fractional.AnswersIff | src/operators/fractional.rs:126-180 | the operator answers if and only if its items are such a list; everything else is an error |
| SemVer.CompareReverse | src/operators/sem_ver.rs:126-181 | reflexive, total and antisymmetric up to equivalence |
| SemVer.CompareTransitive | src/operators/sem_ver.rs:126-181 | transitive, for pre-release lists of any length |
| SemVer.CompareAgreesWithSection11 | src/operators/sem_ver.rs:126-181 | between versions whose numeric identifiers fit 64 bits the order is that of section 11 of Semantic Versioning 2.0.0 |
| SemVer.AgreesIffRepresentable | src/operators/sem_ver.rs:126-181 | a version is ordered against all representable versions as section 11 says if and only if its own identifiers fit 64 bits |
| SemVer.ParsedWithoutPlus | src/operators/sem_ver.rs:65-122 | a parsed pre-release holds no `+`, so the equivalence covers every version that the operator receives |
| VersionText.ParseIff | src/operators/sem_ver.rs:65-122 | a text is read as a version if and only if it is a writing of that version: white space, an optional `v`, one to three runs of digits that fit 64 bits, an optional pre-release, optional build metadata, white space |
| VersionText.PrintedIsParsed | src/operators/sem_ver.rs:65-122 | printing one to three 64-bit numbers with all that may surround them and parsing gives them back in their places, zeros for missing ones |
| VersionText.OperatorsFollowSection11 | src/operators/sem_ver.rs:217-261 | on writings of representable versions the six comparisons are those of section 11, `^` and `~` its half-open intervals, and any other operator is an error |
| VersionText.UnwrittenIsRefused | src/operators/sem_ver.rs:217-261 | a text that is no writing of a version makes every comparison fail |
| SemVer.OversizedVersionsDisagree | src/operators/sem_ver.rs:136-153 | two versions with longer identifiers that `<` orders against section 11 |
| SemVer.EqualVersionsInterchange | src/operators/sem_ver.rs:217-261 | versions that are `=` are interchangeable on either side of every operator |
| SemVer.BuildIsIgnoredIff | src/operators/sem_ver.rs:65-122 | appending build metadata to a version changes no answer, on either side of any operator, if and only if the version is unreadable, or has build metadata already, or does not end in white space |
| SemVer.BuildMetadataIgnored | src/operators/sem_ver.rs:65-122 | for each build, operator and other operand, readable or not: the operator answers the same, or fails on both, unless white space would precede the first `+` |
| SemVer.SpaceBeforeBuild | src/operators/sem_ver.rs:65-122 | with white space there a version without `-` becomes unreadable, and one with `-` is as readable as before, but strictly higher |
| SemVer.CaretIsInterval | src/operators/sem_ver.rs:228-247 | `^t` is the half-open interval up to the next change of the first non-zero component |
| SemVer.TildeIsInterval | src/operators/sem_ver.rs:248-256 | `~t` is the half-open interval up to the next minor version |
| SemVer.RangesAreConvex | src/operators/sem_ver.rs:228-256 | both ranges are convex in the version order |
| SemVer.RangesNest | src/operators/sem_ver.rs:228-256 | `~t` lies within `^t` above major zero, `^t` within `~t` at major zero |
| Keys.ListsIsUnique | src/evaluator.rs:679-681 | a set has one strictly sorted list |
| Keys.Sort | src/evaluator.rs:821-823 | sorting returns it |

## Left out

- PoolRuns.Linearizable: rests on `PoolInvariant.Assured`; without a plain context and a static rule of the asked flag, filtering itself changes answers (`Rules.ComputedPathIsMissed`), and Java's context overload needs the suiting filter (`PoolStale.StaleRunsAreLinearIff`).
- Rules.RequiredKeysSuffice: `Static` is sufficient for arbitrary rules; the exact conditions are for rules of one variable (`Rules.KeysSufficeIffCovered`), because a larger rule may ignore what it reads.
- PoolCalls.AnswersAreCurrent: rests on `PoolCalls.Sound`, the same hypotheses as `PoolRuns.Linearizable`.
- PoolRuns.EveryCallEnds: bounds the steps of calls that have begun; a scheduler that starves a thread forever while new calls keep coming is not excluded.
- PoolStale.StaleRunsAreLinearIff: an exact condition for rules that read one variable each; for other rules `Hosts.CoveredIsSimple` gives the sufficient direction, because a rule may ignore a key that extraction reports.
- Hosts.OptimizedRefinesSimple: has the same two hypotheses, for the asked flag in the configuration that is loaded.
- Pool.Next: steps are functions on a system value because they interleave; update in place and aliasing of instances are in `GoHost` only, for one thread.
- WASM runtimes, host functions, linear memory and pointer packing: foreign calls and bit arithmetic; an instance is a private engine state.
- Java's exception for a rejected configuration: the update ends with the rejected response like the other hosts'.
- Instances that fail after the first one succeeded, panics, timeouts, interruption, `Close` and `Dispose`: the same state and text give the same outcome on every instance. A failing call or first update is modelled (`Pool.AfterFailing`).
- Generation counters are unbounded: 2^64 updates do not occur.
- YAML configurations in a WASM instance, which converts them before loading (`src/lib.rs:355-361`): the texts of pool updates are taken to be JSON. A text that does not convert is rejected like one that does not load.
- What `json.Unmarshal` makes of a result that Go's fast path hands over: a parameter.
- Rule compilation and the built-in operators of the rule library, `missing` and `missing_some`, iterator scopes and the fallback evaluation of rules that did not compile: parameters.
- The hash function, JSON Schema validation, serde decoding, YAML conversion and `json.Unmarshal`: parameters.
- The wording of error messages, and which error a malformed list of buckets gives.
- Type coercion of results (`apply_type_check`) and the typed getters: one-branch claims about floating point.
- JavaScript, Python-WASM and Jackson wrappers, benchmarks and examples: the same logic or plumbing.
- The bytes that `serializeFilteredContext` writes: the filtered context is a value; keys are written unescaped by the source.
- Contexts, flag keys and results that exceed the buffers of an instance: an error like any other failing call.
- In Go's value parser a slice past the end of a truncated text is an out-of-range outcome; it never arises on printed results.
