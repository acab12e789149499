/** A run of Java's context overload that no configuration explains, and exactly when there is none:
    java/src/main/java/dev/openfeature/flagd/evaluator/FlagEvaluator.java:487-552. */
module PoolStale {
  import opened Common
  import opened Json
  import opened Pool
  import opened PoolInvariant
  import opened PoolRuns
  import Flags
  import Engine
  import DepthScan
  import Hosts
  import Rules

  // ---------------------------------------------------------------------------
  // Schedules.
  // ---------------------------------------------------------------------------

  /** `k` steps of thread `t` in a row. */
  function Times(t: nat, k: nat): seq<(nat, Event)> {
    if k == 0 then [] else Times(t, k - 1) + [(t, Proceed)]
  }

  /** An update on a pool of one instance, without interruption. */
  function UpdateSteps(t: nat, config: string): seq<(nat, Event)> { [(t, StartUpdate(config))] + Times(t, 12) }

  ghost predicate Step(m: Machine, s: System, t: nat, e: Event, after: System) {
    t < |s.threads| && s.history != [] && Next(m, s, t, e) == Some(after)
  }

  lemma RunStep(m: Machine, n: nat, a: seq<(nat, Event)>, s: System, t: nat, e: Event, after: System)
    requires Run(m, n, a) == Some(s) && Step(m, s, t, e, after)
    ensures Run(m, n, a + [(t, e)]) == Some(after)
  {
    hide Next;
    var b := a + [(t, e)];
    assert b[..|b| - 1] == a && b[|b| - 1] == (t, e);
  }

  /** One more of `k` steps in a row. */
  lemma RunOnce(m: Machine, n: nat, a: seq<(nat, Event)>, s: System, t: nat, k: nat, after: System)
    requires Run(m, n, a + Times(t, k)) == Some(s) && Step(m, s, t, Proceed, after)
    ensures Run(m, n, a + Times(t, k + 1)) == Some(after)
  {
    hide Run, Step;
    RunStep(m, n, a + Times(t, k), s, t, Proceed, after);
    assert a + Times(t, k + 1) == (a + Times(t, k)) + [(t, Proceed)];
  }

  // ---------------------------------------------------------------------------
  // One update.
  // ---------------------------------------------------------------------------

  /** One instance, pooled, in the current configuration; the lock is free. */
  ghost predicate Resting(m: Machine, s: System) {
    && m.size == 1 && s.pool == [0] && s.holder == None && s.history != [] && |s.instances| == 1
    && s.instances[0].engine == Current(s)
  }

  /** The state while thread `t` updates. */
  function Busy(s: System, t: nat, pool: seq<nat>, inst: Instance, pc: Pc): System
    requires t < |s.threads|
  {
    s.(holder := Some(t), pool := pool, instances := [inst]).To(t, pc)
  }

  lemma DrainSteps(m: Machine, s: System, t: nat, job: Job)
    requires Resting(m, s) && t < |s.threads| && AtRest(s.threads[t]) && !TooLarge(job.text)
    requires job.start == |s.history| - 1
    ensures var i := s.instances[0];
            && Step(m, s, t, StartUpdate(job.text), s.To(t, Locking(job)))
            && Step(m, s.To(t, Locking(job)), t, Proceed, Busy(s, t, [0], i, Draining(job, [])))
            && Step(m, Busy(s, t, [0], i, Draining(job, [])), t, Proceed, Busy(s, t, [], i, Draining(job, [0])))
            && Step(m, Busy(s, t, [], i, Draining(job, [0])), t, Proceed,
               Busy(s, t, [], i, UpdatingFirst(job, [0])))
  {
    hide Evaluate, AfterUpdatingFirst, AfterBumping, AfterStamping, AfterStoring, AfterUpdatingOne, AfterFailing,
      TooLarge;
    var i := s.instances[0];
    assert s.instances == [i] && [0][1..] == [] && [] + [0] == [0];
    assert s.threads[t := Locking(job)][t := Draining(job, [])] == s.threads[t := Draining(job, [])];
    assert s.threads[t := Draining(job, [])][t := Draining(job, [0])] == s.threads[t := Draining(job, [0])];
    assert s.threads[t := Draining(job, [0])][t := UpdatingFirst(job, [0])]
        == s.threads[t := UpdatingFirst(job, [0])];
  }

  /** The state between the new generation's number and the new snapshot. */
  function Renumbered(s: System, t: nat, inst: Instance, pc: Pc): System
    requires t < |s.threads|
  {
    Busy(s, t, [], inst, pc).(counter := s.counter + 1)
  }

  lemma ChangeSteps(m: Machine, s: System, t: nat, job: Job, after: Flags.State, r: Engine.Response)
    requires Resting(m, s) && t < |s.threads| && !TooLarge(job.text)
    requires Engine.Update(Current(s), job.text, m.strict, m.sv) == (after, r) && r.success
    ensures var i, gen := s.instances[0], s.counter + 1;
            var j := Instance(after, i.generation);
            && Step(m, Busy(s, t, [], i, UpdatingFirst(job, [0])), t, Proceed,
                    Busy(s, t, [], j, UpdatingRest(job, [0], r, {})))
            && Step(m, Busy(s, t, [], j, UpdatingRest(job, [0], r, {})), t, Proceed,
                    Busy(s, t, [], j, Bumping(job, [0], r)))
            && Step(m, Busy(s, t, [], j, Bumping(job, [0], r)), t, Proceed,
                    Renumbered(s, t, j, Stamping(job, [0], r, gen, 0)))
            && Step(m, Renumbered(s, t, j, Stamping(job, [0], r, gen, 0)), t, Proceed,
                    Renumbered(s, t, Instance(after, gen), Stamping(job, [0], r, gen, 1)))
            && Step(m, Renumbered(s, t, Instance(after, gen), Stamping(job, [0], r, gen, 1)), t, Proceed,
                    Renumbered(s, t, Instance(after, gen), Storing(job, [0], r, gen)))
  {
    hide Evaluate, AfterStoring, AfterUpdatingOne, AfterFailing, TooLarge, AfterLocking, Engine.Update;
    var i, gen := s.instances[0], s.counter + 1;
    assert Elements([0][1..]) == {};
    Overwrites(s.threads, t, UpdatingFirst(job, [0]), UpdatingRest(job, [0], r, {}));
    Overwrites(s.threads, t, UpdatingRest(job, [0], r, {}), Bumping(job, [0], r));
    Overwrites(s.threads, t, Bumping(job, [0], r), Stamping(job, [0], r, gen, 0));
    Overwrites(s.threads, t, Stamping(job, [0], r, gen, 0), Stamping(job, [0], r, gen, 1));
    Overwrites(s.threads, t, Stamping(job, [0], r, gen, 1), Storing(job, [0], r, gen));
    assert [i][0 := Instance(after, i.generation)] == [Instance(after, i.generation)];
    assert [Instance(after, i.generation)][0 := Instance(after, gen)] == [Instance(after, gen)];
  }

  lemma Overwrites(threads: seq<Pc>, t: nat, a: Pc, b: Pc)
    requires t < |threads|
    ensures threads[t := a][t := b] == threads[t := b]
  {
  }

  /** The new snapshot is installed; the updater still holds the lock. */
  function Installed(s: System, t: nat, pool: seq<nat>, after: Flags.State, r: Engine.Response, pc: Pc): System
    requires t < |s.threads|
  {
    Busy(s, t, pool, Instance(after, s.counter + 1), pc).(
      counter := s.counter + 1, cache := SnapshotOf(s.counter + 1, r), history := s.history + [after])
  }

  /** What an accepted update makes of a resting system. */
  function AfterUpdate(s: System, t: nat, job: Job, r: Engine.Response, after: Flags.State): System
    requires t < |s.threads|
  {
    s.(instances := [Instance(after, s.counter + 1)], counter := s.counter + 1, cache := SnapshotOf(s.counter + 1, r),
       history := s.history + [after], threads := s.threads[t := Updated(job, Finished(r))])
  }

  lemma StoreStep(m: Machine, s: System, t: nat, job: Job, after: Flags.State, r: Engine.Response)
    requires Resting(m, s) && t < |s.threads|
    requires Engine.Update(Current(s), job.text, m.strict, m.sv) == (after, r)
    ensures var gen := s.counter + 1;
            Step(m, Renumbered(s, t, Instance(after, gen), Storing(job, [0], r, gen)), t, Proceed,
                 Installed(s, t, [], after, r, Releasing(job, Finished(r), [0])))
  {
    hide Evaluate, AfterUpdatingFirst, AfterStamping, AfterBumping, AfterUpdatingOne, AfterFailing, AfterLocking,
      Engine.Update, Hosts.TablesOf;
    Overwrites(s.threads, t, Storing(job, [0], r, s.counter + 1), Releasing(job, Finished(r), [0]));
  }

  lemma ReleaseSteps(m: Machine, s: System, t: nat, job: Job, after: Flags.State, r: Engine.Response)
    requires Resting(m, s) && t < |s.threads|
    ensures Step(m, Installed(s, t, [], after, r, Releasing(job, Finished(r), [0])), t, Proceed,
                 Installed(s, t, [0], after, r, Releasing(job, Finished(r), [])))
    ensures Step(m, Installed(s, t, [0], after, r, Releasing(job, Finished(r), [])), t, Proceed,
                 Installed(s, t, [0], after, r, Unlocking(job, Finished(r))))
    ensures Step(m, Installed(s, t, [0], after, r, Unlocking(job, Finished(r))), t, Proceed,
                 AfterUpdate(s, t, job, r, after))
  {
    hide Evaluate, AfterUpdatingFirst, AfterStamping, AfterBumping, AfterUpdatingOne, AfterFailing, AfterLocking,
      AfterStoring, Hosts.TablesOf;
    Overwrites(s.threads, t, Releasing(job, Finished(r), [0]), Releasing(job, Finished(r), []));
    Overwrites(s.threads, t, Releasing(job, Finished(r), []), Unlocking(job, Finished(r)));
    Overwrites(s.threads, t, Unlocking(job, Finished(r)), Updated(job, Finished(r)));
    assert [0][1..] == [] && [] + [0] == [0];
  }

  /** An accepted update of a resting system, from lock to unlock. */
  lemma UpdateRuns(
    m: Machine, n: nat, a: seq<(nat, Event)>, s: System, t: nat, config: string, after: Flags.State, r: Engine.Response)
    requires Run(m, n, a) == Some(s) && Resting(m, s) && t < |s.threads| && AtRest(s.threads[t]) && !TooLarge(config)
    requires Engine.Update(Current(s), config, m.strict, m.sv) == (after, r) && r.success
    ensures Run(m, n, a + UpdateSteps(t, config)) == Some(AfterUpdate(s, t, Job(config, |s.history| - 1), r, after))
  {
    hide Run, Step, Busy, Renumbered, Installed, AfterUpdate, Engine.Update, TooLarge, Times;
    var job := Job(config, |s.history| - 1);
    var i, gen := s.instances[0], s.counter + 1;
    DrainSteps(m, s, t, job);
    ChangeSteps(m, s, t, job, after, r);
    StoreStep(m, s, t, job, after, r);
    ReleaseSteps(m, s, t, job, after, r);
    var j, k := Instance(after, i.generation), Instance(after, gen);
    var b := a + [(t, StartUpdate(config))];
    RunStep(m, n, a, s, t, StartUpdate(config), s.To(t, Locking(job)));
    NoTimes(b, t);
    RunOnce(m, n, b, s.To(t, Locking(job)), t, 0, Busy(s, t, [0], i, Draining(job, [])));
    RunOnce(m, n, b, Busy(s, t, [0], i, Draining(job, [])), t, 1, Busy(s, t, [], i, Draining(job, [0])));
    RunOnce(m, n, b, Busy(s, t, [], i, Draining(job, [0])), t, 2, Busy(s, t, [], i, UpdatingFirst(job, [0])));
    RunOnce(m, n, b, Busy(s, t, [], i, UpdatingFirst(job, [0])), t, 3,
            Busy(s, t, [], j, UpdatingRest(job, [0], r, {})));
    RunOnce(m, n, b, Busy(s, t, [], j, UpdatingRest(job, [0], r, {})), t, 4,
        Busy(s, t, [], j, Bumping(job, [0], r)));
    RunOnce(m, n, b, Busy(s, t, [], j, Bumping(job, [0], r)), t, 5,
            Renumbered(s, t, j, Stamping(job, [0], r, gen, 0)));
    RunOnce(m, n, b, Renumbered(s, t, j, Stamping(job, [0], r, gen, 0)), t, 6,
            Renumbered(s, t, k, Stamping(job, [0], r, gen, 1)));
    RunOnce(m, n, b, Renumbered(s, t, k, Stamping(job, [0], r, gen, 1)), t, 7,
            Renumbered(s, t, k, Storing(job, [0], r, gen)));
    RunOnce(m, n, b, Renumbered(s, t, k, Storing(job, [0], r, gen)), t, 8,
            Installed(s, t, [], after, r, Releasing(job, Finished(r), [0])));
    RunOnce(m, n, b, Installed(s, t, [], after, r, Releasing(job, Finished(r), [0])), t, 9,
        Installed(s, t, [0], after, r, Releasing(job, Finished(r), [])));
    RunOnce(m, n, b, Installed(s, t, [0], after, r, Releasing(job, Finished(r), [])), t, 10,
            Installed(s, t, [0], after, r, Unlocking(job, Finished(r))));
    RunOnce(m, n, b, Installed(s, t, [0], after, r, Unlocking(job, Finished(r))), t, 11,
            AfterUpdate(s, t, job, r, after));
    assert a + UpdateSteps(t, config) == b + Times(t, 12);
  }

  lemma NoTimes(a: seq<(nat, Event)>, t: nat)
    ensures a + Times(t, 0) == a
  {
  }

  // ---------------------------------------------------------------------------
  // One evaluation, interrupted.
  // ---------------------------------------------------------------------------

  function Taken(s: System, call: Call): System
    requires |s.threads| == 2
  {
    s.To(0, Taking(call, s.cache)).Sees(0, s.cache.generation)
  }

  lemma StartSteps(m: Machine, s: System, call: Call)
    requires Resting(m, s) && |s.threads| == 2 && AtRest(s.threads[0]) && m.host.Java?
    requires !call.text && call.context != map[] && call.start == |s.history| - 1
    requires call.key !in s.cache.tables.preEvaluated
    ensures Step(m, s, 0, StartEvaluation(call.key, call.context, call.now, false), s.To(0, Loading(call)))
    ensures Step(m, s.To(0, Loading(call)), 0, Proceed, Taken(s, call))
  {
    hide Apply, AfterGuarding, AfterReloading, AfterAsking, AfterUpdatingOne, AfterFailing;
    assert call == Call(call.key, call.context, call.now, false, |s.history| - 1);
    Overwrites(s.threads, 0, Loading(call), Taking(call, s.cache));
  }

  /** An evaluator that took its snapshot before an update and its instance after it. */
  function Interrupted(s: System, pc: Pc): System
    requires |s.threads| == 2
  {
    s.(pool := []).To(0, pc).Sees(0, s.cache.generation)
  }

  function StaleReply(m: Machine, s: System, call: Call, first: Snapshot): Option<Flags.Evaluation>
    requires s.history != []
  {
    Some(Reply(m, call, first, s.cache, Current(s)))
  }

  lemma GuardSteps(m: Machine, s: System, call: Call, first: Snapshot)
    requires Resting(m, s) && |s.threads| == 2 && s.threads[0] == Taking(call, first)
    requires s.instances[0].generation == s.cache.generation != first.generation
    ensures Step(m, s, 0, Proceed, s.(pool := []).To(0, Guarding(call, first, 0)))
    ensures Step(m, s.(pool := []).To(0, Guarding(call, first, 0)), 0, Proceed,
        Interrupted(s, Reloading(call, first, 0)))
  {
    hide Apply, AfterLoading, AfterReloading, AfterAsking, AfterUpdatingOne, AfterFailing;
    assert s.pool[1..] == [];
    Overwrites(s.threads, 0, Guarding(call, first, 0), Reloading(call, first, 0));
  }

  lemma ReloadStep(m: Machine, s: System, call: Call, first: Snapshot)
    requires Resting(m, s) && |s.threads| == 2 && call.key !in s.cache.tables.preEvaluated
    ensures Step(m, Interrupted(s, Reloading(call, first, 0)), 0, Proceed,
        Interrupted(s, Asking(call, first, s.cache, 0)))
  {
    hide Apply, AfterLoading, AfterGuarding, AfterAsking, AfterUpdatingOne, AfterFailing;
    Overwrites(s.threads, 0, Reloading(call, first, 0), Asking(call, first, s.cache, 0));
    SeesTwice(s.seen, s.cache.generation);
  }

  lemma AskSteps(m: Machine, s: System, call: Call, first: Snapshot)
    requires Resting(m, s) && |s.threads| == 2
    ensures var r, suited := StaleReply(m, s, call, first), Suited(m, call, first, s.cache);
            && Step(m, Interrupted(s, Asking(call, first, s.cache, 0)), 0, Proceed,
                    Interrupted(s, Returning(call, r, suited, 0)))
            && Step(m, Interrupted(s, Returning(call, r, suited, 0)), 0, Proceed,
                    Interrupted(s, Answered(call, r, suited)).(pool := [0]))
  {
    hide Apply, AfterLoading, AfterGuarding, AfterReloading, Reply, Suited, AfterUpdatingOne, AfterFailing;
    var r, suited := StaleReply(m, s, call, first), Suited(m, call, first, s.cache);
    assert [] + [0] == [0];
    Overwrites(s.threads, 0, Asking(call, first, s.cache, 0), Returning(call, r, suited, 0));
    Overwrites(s.threads, 0, Returning(call, r, suited, 0), Answered(call, r, suited));
  }

  lemma SeesTwice(seen: seq<nat>, g: nat)
    ensures seen != [] ==> seen[0 := g][0 := g] == seen[0 := g]
  {
  }

  lemma StartRuns(m: Machine, n: nat, a: seq<(nat, Event)>, s: System, call: Call)
    requires Run(m, n, a) == Some(s)
    requires Resting(m, s) && |s.threads| == 2 && AtRest(s.threads[0]) && m.host.Java?
    requires !call.text && call.context != map[] && call.start == |s.history| - 1
    requires call.key !in s.cache.tables.preEvaluated
    ensures Run(m, n, a + StartOf(call)) == Some(Taken(s, call))
  {
    hide Run, Step, Taken, Resting;
    StartSteps(m, s, call);
    var b := a + [(0, StartEvaluation(call.key, call.context, call.now, false))];
    RunStep(m, n, a, s, 0, StartEvaluation(call.key, call.context, call.now, false), s.To(0, Loading(call)));
    RunStep(m, n, b, s.To(0, Loading(call)), 0, Proceed, Taken(s, call));
    assert a + StartOf(call) == b + [(0, Proceed)];
  }

  function StartOf(call: Call): seq<(nat, Event)> {
    [(0, StartEvaluation(call.key, call.context, call.now, false)), (0, Proceed)]
  }

  lemma AnswerRuns(m: Machine, n: nat, a: seq<(nat, Event)>, s: System, call: Call, first: Snapshot)
    requires Run(m, n, a) == Some(s)
    requires Resting(m, s) && |s.threads| == 2 && s.threads[0] == Taking(call, first)
    requires s.instances[0].generation == s.cache.generation != first.generation
    requires call.key !in s.cache.tables.preEvaluated
    ensures var r, suited := StaleReply(m, s, call, first), Suited(m, call, first, s.cache);
            Run(m, n, a + Times(0, 5)) == Some(Interrupted(s, Answered(call, r, suited)).(pool := [0]))
  {
    hide Run, Step, Interrupted, Reply, Suited, Times;
    var r, suited := StaleReply(m, s, call, first), Suited(m, call, first, s.cache);
    GuardSteps(m, s, call, first);
    ReloadStep(m, s, call, first);
    AskSteps(m, s, call, first);
    NoTimes(a, 0);
    RunOnce(m, n, a, s, 0, 0, s.(pool := []).To(0, Guarding(call, first, 0)));
    RunOnce(m, n, a, s.(pool := []).To(0, Guarding(call, first, 0)), 0, 1, Interrupted(s, Reloading(call, first, 0)));
    RunOnce(m, n, a, Interrupted(s, Reloading(call, first, 0)), 0, 2, Interrupted(s, Asking(call, first, s.cache, 0)));
    RunOnce(m, n, a, Interrupted(s, Asking(call, first, s.cache, 0)), 0, 3,
        Interrupted(s, Returning(call, r, suited, 0)));
    RunOnce(m, n, a, Interrupted(s, Returning(call, r, suited, 0)), 0, 4,
            Interrupted(s, Answered(call, r, suited)).(pool := [0]));
  }

  // ---------------------------------------------------------------------------
  // The run.
  // ---------------------------------------------------------------------------

  /** Thread 1 loads `c0`; thread 0 begins the call and reads the snapshot; thread 1 loads `c1`;
      thread 0 finds another generation on its instance, reloads, asks and answers. */
  function StaleSchedule(call: Call, c0: string, c1: string): seq<(nat, Event)> {
    UpdateSteps(1, c0) + StartOf(call) + UpdateSteps(1, c1) + Times(0, 5)
  }

  /** Two acceptable configurations, in both of which the flag has a rule. */
  ghost predicate Scenario(m: Machine, key: string, c0: string, c1: string) {
    && m.host.Java? && m.size == 1 && !TooLarge(c0) && !TooLarge(c1)
    && HasRule(Engine.Load(c0, m.strict, m.sv), key) && HasRule(Engine.Load(c1, m.strict, m.sv), key)
  }

  ghost predicate HasRule(loaded: Option<Flags.FlagSet>, key: string) {
    loaded.Some? && key in loaded.value.flags && !Flags.IsStatic(loaded.value.flags[key])
  }

  ghost function Loaded(m: Machine, config: string): Flags.State
    requires Engine.Load(config, m.strict, m.sv).Some?
  {
    Engine.StateOf(Engine.Load(config, m.strict, m.sv).value)
  }

  /** The snapshot that a configuration leads to, after another one. */
  ghost function SnapshotFor(m: Machine, generation: nat, before: Flags.State, config: string): Snapshot {
    SnapshotOf(generation, Engine.Update(before, config, m.strict, m.sv).1)
  }

  lemma LoadedIs(m: Machine, before: Flags.State, key: string, config: string, generation: nat)
    requires HasRule(Engine.Load(config, m.strict, m.sv), key)
    ensures Engine.Update(before, config, m.strict, m.sv).0 == Loaded(m, config)
    ensures Engine.Update(before, config, m.strict, m.sv).1.success
    ensures key !in SnapshotFor(m, generation, before, config).tables.preEvaluated
    ensures Hosts.Fit(SnapshotFor(m, generation, before, config).tables, Loaded(m, config), m.sv)
    ensures SnapshotFor(m, generation, before, config).tables
         == Hosts.TablesFor(Engine.Load(config, m.strict, m.sv).value, m.sv)
    ensures Engine.Consistent(Loaded(m, config), m.sv)
  {
    hide Engine.Load, Rules.RequiredKeys, Engine.IndexTable, Flags.EvaluateCore, Hosts.TablesOf,
      Engine.AcceptedResponse;
    Engine.RejectedUpdateChangesNothing(before, config, m.strict, m.sv);
    Hosts.AcceptedTables(before.loaded, Engine.Load(config, m.strict, m.sv).value, m.sv);
    Engine.LoadIsWellFormed(config, m.strict, m.sv);
  }

  /** Thread 0 has read the snapshot of the first configuration. */
  ghost function Midway(m: Machine, call: Call, c0: string): System
    requires HasRule(Engine.Load(c0, m.strict, m.sv), call.key)
  {
    var first := SnapshotFor(m, 1, Flags.EMPTY, c0);
    var updated := Updated(Job(c0, 0), Finished(Engine.Update(Flags.EMPTY, c0, m.strict, m.sv).1));
    System([0], [Instance(Loaded(m, c0), 1)], first, 1, None, [Taking(call, first), updated],
           [Flags.EMPTY, Loaded(m, c0)], [1, 0])
  }

  lemma StaleRunStarts(m: Machine, call: Call, c0: string)
    requires m.host.Java? && m.size == 1 && !TooLarge(c0) && HasRule(Engine.Load(c0, m.strict, m.sv), call.key)
    requires !call.text && call.context != map[] && call.start == 1
    ensures Run(m, 2, UpdateSteps(1, c0) + StartOf(call)) == Some(Midway(m, call, c0))
  {
    hide Run, UpdateSteps, Times, StartOf, Engine.Update, Engine.Load, TooLarge, Loaded, Hosts.TablesOf, Hosts.Fit,
      Engine.Consistent;
    LoadedIs(m, Flags.EMPTY, call.key, c0, 1);
    var r := Engine.Update(Flags.EMPTY, c0, m.strict, m.sv).1;
    InitialRests(m);
    UpdateRuns(m, 2, [], Initial(m, 2), 1, c0, Loaded(m, c0), r);
    assert [] + UpdateSteps(1, c0) == UpdateSteps(1, c0);
    var s := AfterUpdate(Initial(m, 2), 1, Job(c0, 0), r, Loaded(m, c0));
    StartRuns(m, 2, UpdateSteps(1, c0), s, call);
    assert Taken(s, call) == Midway(m, call, c0);
  }

  lemma StaleRunEnds(m: Machine, call: Call, c0: string, c1: string)
    requires Scenario(m, call.key, c0, c1)
    requires var a := UpdateSteps(1, c0) + StartOf(call); Run(m, 2, a) == Some(Midway(m, call, c0))
    ensures var run := Run(m, 2, StaleSchedule(call, c0, c1));
            var first, snap := SnapshotFor(m, 1, Flags.EMPTY, c0), SnapshotFor(m, 2, Loaded(m, c0), c1);
            && run.Some? && run.value.history == [Flags.EMPTY, Loaded(m, c0), Loaded(m, c1)] && |run.value.threads| == 2
            && run.value.threads[0]
               == Answered(call, Some(Reply(m, call, first, snap, Loaded(m, c1))), Suited(m, call, first, snap))
  {
    hide Run, UpdateSteps, Times, StartOf, Engine.Update, Engine.Load, Reply, Suited, TooLarge, Loaded, Hosts.TablesOf,
      Hosts.Fit, Engine.Consistent;
    LoadedIs(m, Loaded(m, c0), call.key, c1, 2);
    var r := Engine.Update(Loaded(m, c0), c1, m.strict, m.sv).1;
    var a, s := UpdateSteps(1, c0) + StartOf(call), Midway(m, call, c0);
    UpdateRuns(m, 2, a, s, 1, c1, Loaded(m, c1), r);
    AnswerRuns(m, 2, a + UpdateSteps(1, c1), AfterUpdate(s, 1, Job(c1, 1), r, Loaded(m, c1)), call, s.cache);
  }

  /** The schedule is a run, and ends in an answer; the three configurations are its whole history. */
  lemma StaleRun(m: Machine, call: Call, c0: string, c1: string)
    requires Scenario(m, call.key, c0, c1) && !call.text && call.context != map[] && call.start == 1
    ensures var run := Run(m, 2, StaleSchedule(call, c0, c1));
            var first, snap := SnapshotFor(m, 1, Flags.EMPTY, c0), SnapshotFor(m, 2, Loaded(m, c0), c1);
            && run.Some? && run.value.history == [Flags.EMPTY, Loaded(m, c0), Loaded(m, c1)] && |run.value.threads| == 2
            && run.value.threads[0]
               == Answered(call, Some(Reply(m, call, first, snap, Loaded(m, c1))), Suited(m, call, first, snap))
  {
    hide Run, UpdateSteps, Times, StartOf, SnapshotFor, Loaded, Midway, Reply, Suited, TooLarge, Engine.Load;
    StaleRunStarts(m, call, c0);
    StaleRunEnds(m, call, c0, c1);
  }

  lemma InitialRests(m: Machine)
    requires m.size == 1
    ensures Run(m, 2, []) == Some(Initial(m, 2)) && Resting(m, Initial(m, 2))
    ensures var s := Initial(m, 2); s.threads == [Idle, Idle] && s.history == [Flags.EMPTY] && s.counter == 0
  {
    assert seq(1, i => i) == [0];
  }

  // ---------------------------------------------------------------------------
  // What the run shows.
  // ---------------------------------------------------------------------------

  /** The scenario with rules that read `a` before the update and `b` after it. */
  ghost predicate ReadersScenario(m: Machine, key: string, c0: string, a: string, c1: string, b: string) {
    && Scenario(m, key, c0, c1)
    && Hosts.Reads(Loaded(m, c0).loaded.value.flags[key], a) && Hosts.Admissible(Loaded(m, c0), key)
    && Hosts.Reads(Loaded(m, c1).loaded.value.flags[key], b) && Hosts.Admissible(Loaded(m, c1), key)
  }

  /** The answer of the interrupted call is the simple answer of some configuration of the call. */
  ghost predicate IsLinear(m: Machine, call: Call, c0: string, c1: string) {
    var run := Run(m, 2, StaleSchedule(call, c0, c1));
    && run.Some? && |run.value.threads| == 2 && run.value.threads[0].Answered? && run.value.threads[0].result.Some?
    && Linear(m, run.value.history, run.value.threads[0].call, run.value.threads[0].result.value)
  }

  lemma LinearIsBelonging(m: Machine, history: seq<Flags.State>, call: Call, r: Flags.Evaluation)
    requires |history| == 3 && call.start == 1
    ensures Linear(m, history, call, r)
       <==> Hosts.Belongs(r, history[1], history[2], call.key, call.context, call.now, m.sv)
  {
    hide Hosts.Simple;
    assert r == SimpleAnswer(m, history[1], call) || r == SimpleAnswer(m, history[2], call) ==>
        Linear(m, history, call, r);
  }

  lemma ReaderIsRequired(m: Machine, config: string, key: string, k: string)
    requires HasRule(Engine.Load(config, m.strict, m.sv), key)
        && Hosts.Reads(Loaded(m, config).loaded.value.flags[key], k)
    ensures key in Hosts.TablesFor(Engine.Load(config, m.strict, m.sv).value, m.sv).required
  {
    hide Engine.Load, Flags.EvaluateCore;
    var segments := [Rules.Field(k)];
    assert Rules.SegmentNames(segments) == [k];
  }

  /** The answer of the run is the stale answer. */
  lemma StaleRunAnswers(m: Machine, call: Call, c0: string, a: string, c1: string, b: string)
    requires ReadersScenario(m, call.key, c0, a, c1, b) && !call.text && call.context != map[] && call.start == 1
    ensures var t0 := SnapshotFor(m, 1, Flags.EMPTY, c0).tables;
            var t1 := SnapshotFor(m, 2, Loaded(m, c0), c1).tables;
            && call.key in t0.required && call.key in t1.required
            && Hosts.Fit(t0, Loaded(m, c0), m.sv) && Hosts.Fit(t1, Loaded(m, c1), m.sv)
            && Engine.Consistent(Loaded(m, c0), m.sv) && Engine.Consistent(Loaded(m, c1), m.sv)
            && var r := Hosts.StaleAnswer(t0, t1, Loaded(m, c1), call.key, call.context, m.hasByIndex, call.now, m.sv);
               IsLinear(m, call, c0, c1)
               <==> Hosts.Belongs(r, Loaded(m, c0), Loaded(m, c1), call.key, call.context, call.now, m.sv)
  {
    hide Run, Engine.Load, Engine.Update, Hosts.TablesOf, Hosts.TablesFor, Hosts.Fit, Engine.Consistent, Hosts.Simple,
      Hosts.Reads, Hosts.Admissible, Hosts.CallInstance, Linear, StaleSchedule;
    LoadedIs(m, Flags.EMPTY, call.key, c0, 1);
    LoadedIs(m, Loaded(m, c0), call.key, c1, 2);
    ReaderIsRequired(m, c0, call.key, a);
    ReaderIsRequired(m, c1, call.key, b);
    StaleRun(m, call, c0, c1);
    var run := Run(m, 2, StaleSchedule(call, c0, c1)).value;
    LinearIsBelonging(m, run.history, call, run.threads[0].result.value);
  }

  /** Java's context overload answers linearly in this run, whatever the context, exactly when the new
      rule's variable is the old one's, or the targeting key. */
  lemma StaleRunsAreLinearIff(m: Machine, key: string, now: int, c0: string, a: string, c1: string, b: string)
    requires ReadersScenario(m, key, c0, a, c1, b)
    ensures (forall context: map<string, Json> :: context != map[] && Flags.PlainContext(Obj(context)) ==>
               IsLinear(m, Call(key, context, now, false, 1), c0, c1))
       <==> b == a || b == "targetingKey"
  {
    hide IsLinear, Engine.Load, Engine.Update, Hosts.TablesOf, Hosts.Fit, Engine.Consistent, Hosts.Reads,
      Hosts.Admissible, Flags.PlainContext, Hosts.Belongs, SnapshotOf;
    var some: map<string, Json> := map["" := Null];
    assert "" in some;
    StaleRunAnswers(m, Call(key, some, now, false, 1), c0, a, c1, b);
    var t0 := SnapshotFor(m, 1, Flags.EMPTY, c0).tables;
    var t1 := SnapshotFor(m, 2, Loaded(m, c0), c1).tables;
    var s0, s1 := Loaded(m, c0), Loaded(m, c1);
    if b == a || b == "targetingKey" {
      Hosts.StaleAnswersBelongIff(t0, s0, a, t1, s1, b, key, m.hasByIndex, now, m.sv);
      forall context: map<string, Json> | context != map[] && Flags.PlainContext(Obj(context))
        ensures IsLinear(m, Call(key, context, now, false, 1), c0, c1)
      {
        StaleRunAnswers(m, Call(key, context, now, false, 1), c0, a, c1, b);
      }
    } else {
      var context := Hosts.StaleAnswerIsNobodys(t0, s0, a, t1, s1, b, key, m.hasByIndex, now, m.sv);
      StaleRunAnswers(m, Call(key, context, now, false, 1), c0, a, c1, b);
    }
  }

  // ---------------------------------------------------------------------------
  // An instance of it.
  // ---------------------------------------------------------------------------

  /** The rule `{"var": k}`. */
  function VarRule(k: string): Json { Obj(map["var" := Str(k)]) }

  function VarFlag(rule: Json): Flags.Flag {
    Flags.Flag(None, "ENABLED", None, map["on" := Bool(true)], Some(rule), None, map[])
  }

  /** A configuration with one flag, `f`. */
  function OneFlag(k: string): Json { Obj(map["flags" := Obj(map["f" := VarRule(k)])]) }

  /** Libraries that read the text `k` as the configuration whose flag `f` has the rule `{"var": k}`. */
  function SmallServices(): Flags.Services {
    Flags.Services(
      Rules.Library((_, _) => Ok(Null), _ => Ok(Null), (_, _) => Ok(Null), _ => 0),
      text => Some(OneFlag(text)), _ => true, rule => Some(VarFlag(rule)),
      (rule: Json) => Some(Rules.CompiledVar([Rules.Field(Json.TextOrEmpty(rule.Get("var")))], None)),
      (_, _) => Ok(Null), _ => "", _ => "")
  }

  lemma SmallFlagReads(k: string)
    requires k == "a" || k == "b"
    ensures Engine.ReadFlagSet(OneFlag(k), SmallServices()).Some?
    ensures var s := Engine.ReadFlagSet(OneFlag(k), SmallServices()).value;
            && s.flags.Keys == {"f"} && !Flags.IsStatic(s.flags["f"]) && Hosts.Reads(s.flags["f"], k)
  {
    var flags := map["f" := VarRule(k)];
    var members := map["flags" := Obj(flags)];
    assert "$evaluators" !in members;
    assert "var" in VarRule(k).members;
    assert "on" in map["on" := Bool(true)];
    assert |k| < |"$flagd"|;
  }

  lemma SmallLoad(k: string)
    requires k == "a" || k == "b"
    ensures Engine.Load(k, false, SmallServices()) == Engine.ReadFlagSet(OneFlag(k), SmallServices())
  {
    hide Engine.ReadFlagSet;
    DepthScan.ScanInert(0, k);
  }

  /** Such a scenario exists. */
  lemma ScenarioExists() returns (m: Machine)
    ensures ReadersScenario(m, "f", "a", "a", "b", "b")
  {
    hide Engine.Load, Engine.ReadFlagSet, Hosts.Reads, Flags.IsStatic;
    m := Machine(Java, 1, false, true, SmallServices());
    SmallLoad("a");
    SmallLoad("b");
    SmallFlagReads("a");
    SmallFlagReads("b");
    SmallIsAdmissible(m, "a");
    SmallIsAdmissible(m, "b");
  }

  lemma SmallIsAdmissible(m: Machine, k: string)
    requires Engine.Load(k, m.strict, m.sv).Some?
    requires var s := Engine.Load(k, m.strict, m.sv).value; s.flags.Keys == {"f"} && Hosts.Reads(s.flags["f"], k)
    ensures Hosts.Admissible(Loaded(m, k), "f")
  {
    hide Engine.Load, Hosts.Reads, Rules.Static, Rules.RequiredKeys;
    var s := Engine.Load(k, m.strict, m.sv).value;
    ReaderIsStatic(s.flags["f"], k);
    assert |s.flags| == |s.flags.Keys| == 1;
  }

  lemma ReaderIsStatic(flag: Flags.Flag, k: string)
    requires Hosts.Reads(flag, k)
    ensures flag.compiled.Some? && Rules.Static(flag.compiled.value)
  {
  }

  /** So Java's context overload is not linearizable: a machine, a plain context and a run whose answer
      no configuration of the call gives. */
  lemma JavaIsNotLinearizable() returns (m: Machine, call: Call)
    ensures m.host.Java? && !call.text && Flags.PlainContext(Obj(call.context))
    ensures var run := Run(m, 2, StaleSchedule(call, "a", "b"));
            && run.Some? && |run.value.threads| == 2 && run.value.threads[0].Answered?
            && run.value.threads[0].call == call && run.value.threads[0].result.Some?
            && AllAdmissible(run.value.history, call)
            && !Linear(m, run.value.history, call, run.value.threads[0].result.value)
  {
    hide Run, Linear, StaleSchedule, Engine.Load, Hosts.Reads, Hosts.Admissible, Flags.PlainContext, Reply, Suited,
      Loaded, HasRule, TooLarge;
    var key, a, b := "f", "a", "b";
    m := ScenarioExists();
    StaleRunsAreLinearIff(m, key, 0, a, a, b, b);
    assert a != b && |b| != |"targetingKey"|;
    var context: map<string, Json> :|
      context != map[] && Flags.PlainContext(Obj(context)) && !IsLinear(m, Call(key, context, 0, false, 1), a, b);
    call := Call(key, context, 0, false, 1);
    NonLinearRun(m, call, a, b);
  }

  lemma NonLinearRun(m: Machine, call: Call, c0: string, c1: string)
    requires Scenario(m, call.key, c0, c1) && !call.text && call.context != map[] && call.start == 1
    requires Hosts.Admissible(Loaded(m, c0), call.key) && Hosts.Admissible(Loaded(m, c1), call.key)
    requires !IsLinear(m, call, c0, c1)
    ensures var run := Run(m, 2, StaleSchedule(call, c0, c1));
            && run.Some? && |run.value.threads| == 2 && run.value.threads[0].Answered?
            && run.value.threads[0].call == call && run.value.threads[0].result.Some?
            && AllAdmissible(run.value.history, call)
            && !Linear(m, run.value.history, call, run.value.threads[0].result.value)
  {
    hide Run, Linear, StaleSchedule, Engine.Load, Hosts.Admissible, Reply, Suited, Loaded, TooLarge, SnapshotFor;
    StaleRun(m, call, c0, c1);
  }
}
