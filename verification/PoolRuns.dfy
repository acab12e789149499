/** The guarantees of the pool protocol over every run: any number of threads, any interleaving. */
module PoolRuns {
  import opened Common
  import opened Json
  import opened Pool
  import opened PoolInvariant
  import opened PoolSteps
  import Flags
  import Engine
  import Hosts

  /** The system after a schedule of steps; `None` if some step was not possible. */
  ghost function Run(m: Machine, n: nat, schedule: seq<(nat, Event)>): Option<System> {
    if schedule == [] then Some(Initial(m, n))
    else
      var before := Run(m, n, schedule[..|schedule| - 1]);
      var (t, e) := schedule[|schedule| - 1];
      if before.Some? && t < |before.value.threads| && before.value.history != [] then Next(m, before.value, t, e)
      else None
  }

  // ---------------------------------------------------------------------------
  // The invariant holds in every run.
  // ---------------------------------------------------------------------------

  lemma {:induction false} PoolIsEveryone(n: nat)
    ensures multiset(seq(n, i => i)) == Everyone(n)
  {
    if n > 0 {
      PoolIsEveryone(n - 1);
      assert seq(n, i => i) == seq(n - 1, i => i) + [n - 1];
    }
  }

  lemma {:induction false} IdleHoldNothing(threads: seq<Pc>)
    requires forall t :: 0 <= t < |threads| ==> threads[t] == Idle
    ensures AllHeld(threads) == multiset{}
  {
    if threads != [] {
      IdleHoldNothing(threads[..|threads| - 1]);
    }
  }

  lemma InitialInvariant(m: Machine, n: nat)
    ensures Inv(m, Initial(m, n))
  {
    hide AllHeld, Everyone, Engine.Consistent, Hosts.Fit, Engine.Load, Hosts.TablesOf, Known, Correct, Answers, Ended;
    var s := Initial(m, n);
    PoolIsEveryone(m.size);
    IdleHoldNothing(s.threads);
    assert Conserved(m, s);
    Hosts.EmptyFits(m.sv);
    assert Cached(m, s);
  }

  lemma StartKeeps(m: Machine, s: System, t: nat, pc: Pc)
    requires Inv(m, s) && t < |s.threads| && AtRest(s.threads[t])
    requires if pc.Locking? then pc.job.start < |s.history| else pc.Loading? && pc.call.start < |s.history|
    ensures Inv(m, s.To(t, pc))
  {
    hide Inv, Local, Held;
    LocalOf(m, s, t);
    NewCall(m, s, s.threads[t], pc);
    KeepsOutside(m, s, t, pc, s.pool, s.seen[t]);
    assert s.(pool := s.pool) == s;
  }

  lemma NewCall(m: Machine, s: System, before: Pc, pc: Pc)
    requires s.history != [] && AtRest(before)
    requires if pc.Locking? then pc.job.start < |s.history| else pc.Loading? && pc.call.start < |s.history|
    ensures Local(m, s.cache, s.history, pc) && Held(pc) == Held(before) == []
  {
  }

  lemma FailingKeeps(m: Machine, s: System, t: nat)
    requires Inv(m, s) && t < |s.threads| && AfterFailing(s, t).Some?
    ensures Inv(m, AfterFailing(s, t).value)
  {
    hide Inv, Local, Held;
    LocalOf(m, s, t);
    var pc := s.threads[t];
    if pc.Asking? {
      var next := Returning(pc.call, None, true, pc.inst);
      StartIsKnown(m, s, t);
      FailedCall(m, s, pc, next);
      KeepsOutside(m, s, t, next, s.pool, s.seen[t]);
      assert s.(pool := s.pool) == s;
    } else {
      GivingBackKeeps(m, s, t, pc.job, pc.held, Failed);
    }
  }

  lemma FailedCall(m: Machine, s: System, pc: Pc, next: Pc)
    requires s.history != [] && Local(m, s.cache, s.history, pc) && pc.Asking?
        && pc.call.start < |s.history| && next == Returning(pc.call, None, true, pc.inst)
    ensures Local(m, s.cache, s.history, next) && Held(next) == Held(pc)
  {
    hide Known;
  }

  lemma StepKeeps(m: Machine, s: System, t: nat, e: Event)
    requires Inv(m, s) && t < |s.threads| && Next(m, s, t, e).Some?
    ensures Inv(m, Next(m, s, t, e).value)
  {
    hide Cached, Settled, Conserved, Locked, Threads, Evaluate, Apply, AfterUpdatingOne, AfterFailing, Known, Correct,
      Answers, Ended;
    match e
    case StartEvaluation(key, context, now, text) =>
      StartKeeps(m, s, t, Loading(Call(key, context, now, text, |s.history| - 1)));
    case StartUpdate(config) => StartKeeps(m, s, t, Locking(Job(config, |s.history| - 1)));
    case Proceed =>
      if Updating(s.threads[t]) || s.threads[t].Locking? {
        ApplyKeeps(m, s, t);
      } else {
        EvaluateKeeps(m, s, t);
      }
    case Fail => FailingKeeps(m, s, t);
    case UpdateOne(i) => UpdatingOneKeeps(m, s, t, i);
  }

  lemma {:induction false} RunInvariant(m: Machine, n: nat, schedule: seq<(nat, Event)>)
    requires Run(m, n, schedule).Some?
    ensures Inv(m, Run(m, n, schedule).value)
  {
    hide Inv, Next, Initial, Known, Correct, Answers, Ended;
    if schedule == [] {
      InitialInvariant(m, n);
    } else {
      RunInvariant(m, n, schedule[..|schedule| - 1]);
      var (t, e) := schedule[|schedule| - 1];
      StepKeeps(m, Run(m, n, schedule[..|schedule| - 1]).value, t, e);
    }
  }

  // ---------------------------------------------------------------------------
  // Safety.
  // ---------------------------------------------------------------------------

  /** Every answer of a Go or .NET evaluator, of Java's text overload, and of Java's other overload
      whenever the context it sent suits the snapshot it asked with, is the simple evaluation of that
      key and context under a configuration that was current between the call's start and its end. */
  lemma Linearizable(m: Machine, n: nat, schedule: seq<(nat, Event)>, t: nat)
    requires Run(m, n, schedule).Some?
    requires var s := Run(m, n, schedule).value;
             && t < |s.threads| && s.threads[t].Answered? && s.threads[t].result.Some?
             && Assured(m, s.history, s.threads[t].call, s.threads[t].suited)
    ensures var s := Run(m, n, schedule).value;
            exists j :: s.threads[t].call.start <= j < |s.history|
              && s.threads[t].result.value == SimpleAnswer(m, s.history[j], s.threads[t].call)
  {
    hide Inv, Run, SimpleAnswer, Assured, Answers, Ended;
    RunInvariant(m, n, schedule);
    LocalOf(m, Run(m, n, schedule).value, t);
  }

  /** Whenever an instance is called, on any host, the snapshot whose flag index and key set are used
      is the current one, carries the instance's generation, and fits the instance's configuration. */
  lemma SnapshotMatchesInstance(m: Machine, n: nat, schedule: seq<(nat, Event)>, t: nat)
    requires Run(m, n, schedule).Some?
    requires var s := Run(m, n, schedule).value; t < |s.threads| && s.threads[t].Asking?
    ensures var s := Run(m, n, schedule).value;
            var pc := s.threads[t];
            && pc.inst < |s.instances| && pc.snap == s.cache
            && s.instances[pc.inst].generation == pc.snap.generation
            && Hosts.Fit(pc.snap.tables, s.instances[pc.inst].engine, m.sv)
            && Engine.Consistent(s.instances[pc.inst].engine, m.sv)
  {
    hide Run, Settled, Conserved, Locked, Threads, Known, Hosts.Fit, Engine.Consistent, Engine.Load, Hosts.TablesOf,
      Correct, Answers, Ended;
    RunInvariant(m, n, schedule);
    var s := Run(m, n, schedule).value;
    LocalOf(m, s, t);
    HeldIsCurrent(m, s, t, s.threads[t].inst);
  }

  /** The flag-set metadata that a host reports are those of the current configuration. */
  lemma MetadataIsCurrent(m: Machine, n: nat, schedule: seq<(nat, Event)>)
    requires Run(m, n, schedule).Some?
    ensures var s := Run(m, n, schedule).value;
            s.cache.metadata.Some? ==>
              s.history != [] && Current(s).loaded.Some? && s.cache.metadata.value == Current(s).loaded.value.metadata
  {
    hide Run, Settled, Conserved, Locked, Threads, Hosts.Fit, Engine.Consistent;
    RunInvariant(m, n, schedule);
  }

  lemma UpdaterHoldsAll(m: Machine, s: System, i: nat)
    requires Inv(m, s) && i < m.size
    requires var pc := UpdaterPc(s); pc.UpdatingRest? || pc.Bumping? || pc.Stamping? || pc.Storing?
    ensures i in Held(UpdaterPc(s))
  {
    hide Correct, Known, Answers, Ended, Conserved, Hosts.Fit, Engine.Consistent, Settled, Engine.Load, Hosts.TablesOf;
    LocalOf(m, s, s.holder.value);
    DrainedAllOf(m, s, s.holder.value);
    assert multiset(Held(UpdaterPc(s)))[i] == 1;
  }

  /** The instances that nobody updates carry the current configuration and generation. */
  lemma InstancesAreCurrent(m: Machine, n: nat, schedule: seq<(nat, Event)>, i: nat)
    requires Run(m, n, schedule).Some?
    requires var s := Run(m, n, schedule).value;
             i < m.size && s.history != [] && (s.holder.None? || i !in Held(UpdaterPc(s)))
    ensures var s := Run(m, n, schedule).value;
            |s.instances| == m.size && s.instances[i] == Instance(Current(s), s.cache.generation)
  {
    hide Run, Conserved, Correct, Known, Answers, Ended, Hosts.Fit, Engine.Consistent, Engine.Load, Hosts.TablesOf;
    RunInvariant(m, n, schedule);
    var s := Run(m, n, schedule).value;
    var pc := UpdaterPc(s);
    if pc.UpdatingRest? || pc.Bumping? || pc.Stamping? || pc.Storing? {
      UpdaterHoldsAll(m, s, i);
    }
    assert Expected(m, UpdaterPc(s), Current(s), s.cache.generation, i) == Instance(Current(s), s.cache.generation);
  }

  lemma {:induction false} SomeoneHolds(threads: seq<Pc>, i: nat) returns (t: nat)
    requires i in AllHeld(threads)
    ensures t < |threads| && i in Held(threads[t])
  {
    var last := |threads| - 1;
    if i in multiset(Held(threads[last])) {
      t := last;
    } else {
      var earlier := threads[..last];
      assert i in AllHeld(earlier);
      t := SomeoneHolds(earlier, i);
      assert earlier[t] == threads[t];
    }
  }

  /** In every state, also after errors, each of the original instances is either in the pool once
      or held by one thread, and there are no others. */
  lemma InstancesAreConserved(m: Machine, n: nat, schedule: seq<(nat, Event)>)
    requires Run(m, n, schedule).Some?
    ensures var s := Run(m, n, schedule).value;
            && multiset(s.pool) + AllHeld(s.threads) == Everyone(m.size)
            && forall i: nat :: i < m.size ==>
               (i in s.pool || exists t :: 0 <= t < |s.threads| && i in Held(s.threads[t]))
  {
    hide Run, Cached, Settled, Locked, Threads, AllHeld, Everyone, Held, Known, Correct, Answers, Ended;
    RunInvariant(m, n, schedule);
    var s := Run(m, n, schedule).value;
    EveryoneOnce(m.size);
    forall i: nat | i < m.size
      ensures i in s.pool || exists t :: 0 <= t < |s.threads| && i in Held(s.threads[t])
    {
      assert (multiset(s.pool) + AllHeld(s.threads))[i] == 1;
      if i !in s.pool {
        var t := SomeoneHolds(s.threads, i);
      }
    }
  }

  /** No instance is held by two threads, or held and pooled. */
  lemma NobodyShares(m: Machine, n: nat, schedule: seq<(nat, Event)>, t: nat, u: nat)
    requires Run(m, n, schedule).Some?
    requires var s := Run(m, n, schedule).value; t < |s.threads| && u < |s.threads| && t != u
    ensures var s := Run(m, n, schedule).value;
            forall i :: i in Held(s.threads[t]) ==> i < m.size && i !in s.pool && i !in Held(s.threads[u])
  {
    hide Run, Cached, Settled, Locked, Threads, Conserved, Held, Known, Correct, Answers, Ended;
    RunInvariant(m, n, schedule);
    HeldOnce(m, Run(m, n, schedule).value, t);
    HeldBySomeoneElse(m, Run(m, n, schedule).value, t, u);
  }

  // ---------------------------------------------------------------------------
  // Nothing goes back.
  // ---------------------------------------------------------------------------

  /** `b` is later than `a`: the snapshot is not older, no configuration of the history has changed,
      and no thread has read an older generation since. */
  predicate Later(a: System, b: System) {
    && a.cache.generation <= b.cache.generation
    && a.history <= b.history
    && |a.seen| == |b.seen|
    && forall t :: 0 <= t < |a.seen| ==> a.seen[t] <= b.seen[t]
  }

  lemma StepIsLater(m: Machine, s: System, t: nat, e: Event)
    requires Inv(m, s) && t < |s.threads| && Next(m, s, t, e).Some?
    ensures Later(s, Next(m, s, t, e).value)
  {
    hide Inv, Known, Correct, Answers, Ended, Reply, Suited, Engine.Update, Hosts.TablesOf, Conserved, Settled;
    LocalOf(m, s, t);
    var pc := s.threads[t];
    if pc.Guarding? && pc.inst < |s.instances| {
      HeldIsCurrent(m, s, t, pc.inst);
    }
  }

  /** Along a run generations only grow: the snapshot's, and those that a thread reads, from snapshots
      and instances alike. */
  lemma {:induction false} RunsMoveForward(m: Machine, n: nat, schedule: seq<(nat, Event)>, more: seq<(nat, Event)>)
    requires Run(m, n, schedule + more).Some?
    ensures Run(m, n, schedule).Some? && Later(Run(m, n, schedule).value, Run(m, n, schedule + more).value)
    decreases |more|
  {
    hide Inv, Next, Initial, Known, Correct, Answers, Ended;
    if more == [] {
      assert schedule + more == schedule;
    } else {
      var all := schedule + more;
      var before := more[..|more| - 1];
      assert all[..|all| - 1] == schedule + before;
      RunsMoveForward(m, n, schedule, before);
      RunInvariant(m, n, schedule + before);
      var (t, e) := all[|all| - 1];
      StepIsLater(m, Run(m, n, schedule + before).value, t, e);
    }
  }

  /** Installing the snapshot of a rejected update, as only Go does, leaves the configuration of every
      instance and of the cache as it was. */
  lemma RejectionInstallsNothingNew(
    m: Machine, s: System, t: nat, job: Job, held: seq<nat>, response: Engine.Response, gen: nat)
    requires Inv(m, s) && t < |s.threads| && s.threads[t] == Storing(job, held, response, gen) && !response.success
    ensures m.host.Go?
    ensures var after := AfterStoring(m, s, t, job, held, response, gen);
            && Current(after) == Current(s) && after.cache == Snapshot(gen, Hosts.NO_TABLES, None)
            && forall i :: 0 <= i < m.size ==> after.instances[i].engine == Current(s)
  {
    hide Inv, Conserved, Engine.Update;
    HolderIs(m, s, t);
    Engine.RejectedUpdateChangesNothing(Current(s), job.text, m.strict, m.sv);
    RejectedTables();
  }

  lemma RejectedTables()
    ensures Hosts.TablesOf(Engine.REJECTED) == Hosts.NO_TABLES
  {
    assert Hosts.KeySets(map[]) == map[];
  }

  // ---------------------------------------------------------------------------
  // Progress.
  // ---------------------------------------------------------------------------

  /** A step by which a call goes on: no new call, and no failure. */
  predicate Works(e: Event) { e.Proceed? || e.UpdateOne? }

  lemma EvaluatorGoesOn(m: Machine, s: System, t: nat)
    requires Shaped(m, s) && Conserved(m, s) && t < |s.threads|
    requires var pc := s.threads[t]; pc.Loading? || pc.Guarding? || pc.Reloading? || pc.Asking? || pc.Returning?
    ensures Evaluate(m, s, t).Some?
  {
    hide Conserved, Reply, Suited, AfterLoading, AfterGuarding, AfterReloading, AfterAsking, Engine.Load, Hosts.Fit,
      Engine.Consistent, Hosts.TablesOf, Known, Correct, Answers, Ended;
    HeldOnce(m, s, t);
    var pc := s.threads[t];
    if !pc.Loading? {
      assert pc.inst in Held(pc);
    }
  }

  lemma HoldsAllAtFirst(m: Machine, s: System, pc: Pc)
    requires s.history != [] && Local(m, s.cache, s.history, pc)
    ensures pc.UpdatingFirst? ==> |pc.held| == m.size
    ensures pc.Draining? ==> |pc.held| <= m.size
  {
    hide Answers, Ended, Known, Correct;
  }

  lemma HeldIsReal(m: Machine, s: System, t: nat, k: nat)
    requires Shaped(m, s) && Conserved(m, s) && t < |s.threads| && k < |Held(s.threads[t])|
    ensures Held(s.threads[t])[k] < |s.instances| && |s.pool| < m.size
  {
    hide Conserved, Held;
    HeldOnce(m, s, t);
    assert Held(s.threads[t])[k] in Held(s.threads[t]);
  }

  lemma UpdaterGoesOn(m: Machine, s: System, t: nat)
    requires Shaped(m, s) && Conserved(m, s) && t < |s.threads|
    requires var pc := s.threads[t];
             && (pc.UpdatingFirst? ==> pc.held != [])
             && Updating(pc) && !pc.Draining? && !(pc.UpdatingRest? && pc.todo != {})
    ensures Apply(m, s, t).Some?
  {
    hide Conserved, AfterLocking, AfterUpdatingFirst, AfterBumping, AfterStamping, AfterStoring;
    var pc := s.threads[t];
    if (pc.UpdatingFirst? || pc.Releasing?) && pc.held != [] {
      HeldIsReal(m, s, t, 0);
    } else if pc.Stamping? && pc.done < |pc.held| {
      HeldIsReal(m, s, t, pc.done);
    }
  }

  lemma OneMoreGoesOn(m: Machine, s: System, t: nat)
    requires Shaped(m, s) && Conserved(m, s) && t < |s.threads| && Local(m, s.cache, s.history, s.threads[t])
    requires s.threads[t].UpdatingRest? && s.threads[t].todo != {}
    ensures exists i :: Next(m, s, t, UpdateOne(i)).Some?
  {
    hide Conserved, Answers, Ended, AfterUpdatingOne, Engine.Load, Hosts.Fit, Engine.Consistent, Hosts.TablesOf, Known,
      Correct;
    HeldOnce(m, s, t);
    var i :| i in s.threads[t].todo;
    assert i in Held(s.threads[t]);
    assert Next(m, s, t, UpdateOne(i)).Some?;
  }

  /** A thread that is inside a call and waits for neither an instance nor the lock can go on. */
  lemma OthersGoOn(m: Machine, s: System, t: nat)
    requires Inv(m, s) && m.size > 0 && t < |s.threads|
    requires var pc := s.threads[t]; !AtRest(pc) && !pc.Taking? && !pc.Locking? && !pc.Draining?
    ensures exists e :: Works(e) && Next(m, s, t, e).Some?
  {
    hide Cached, Settled, Conserved, Locked, Threads, Local, Evaluate, Apply;
    LocalOf(m, s, t);
    var pc := s.threads[t];
    if pc.UpdatingRest? && pc.todo != {} {
      OneMoreGoesOn(m, s, t);
      var i :| Next(m, s, t, UpdateOne(i)).Some?;
      assert Works(UpdateOne(i));
    } else {
      if Updating(pc) {
        assert pc.UpdatingFirst? ==> |pc.held| == m.size by { HoldsAllAtFirst(m, s, pc); }
        UpdaterGoesOn(m, s, t);
      } else {
        EvaluatorGoesOn(m, s, t);
      }
      assert Works(Proceed) && Next(m, s, t, Proceed).Some?;
    }
  }

  /** The thread that holds an instance, if any is out. */
  lemma SomeoneIsOut(m: Machine, s: System) returns (t: nat)
    requires Inv(m, s) && m.size > 0 && s.pool == []
    ensures t < |s.threads| && Held(s.threads[t]) != []
  {
    hide Cached, Settled, Locked, Threads, Held, AllHeld, Everyone, Known, Correct, Answers, Ended;
    EveryoneOnce(m.size);
    assert (multiset(s.pool) + AllHeld(s.threads))[0] == 1;
    t := SomeoneHolds(s.threads, 0);
  }

  /** With an empty pool someone who holds an instance can go on: an updater that is still draining
      waits only for evaluators, and they do not wait for it. */
  lemma EmptyPoolGoesOn(m: Machine, s: System)
    requires Inv(m, s) && m.size > 0 && s.pool == []
    ensures exists t, e :: 0 <= t < |s.threads| && Works(e) && Next(m, s, t, e).Some?
  {
    hide Cached, Settled, Conserved, Locked, Threads, Next, Known, Correct, Answers, Ended;
    var t := SomeoneIsOut(m, s);
    if s.threads[t].Draining? {
      DrainingGoesOn(m, s, t);
    } else {
      OthersGoOn(m, s, t);
    }
  }

  lemma DrainingGoesOn(m: Machine, s: System, t: nat)
    requires Inv(m, s) && m.size > 0 && t < |s.threads| && s.threads[t].Draining?
    ensures exists u, e :: 0 <= u < |s.threads| && Works(e) && Next(m, s, u, e).Some?
  {
    hide Cached, Settled, Conserved, Locked, Threads, AfterStoring, Evaluate, Known, Correct, Answers, Ended;
    LocalOf(m, s, t);
    var held := s.threads[t].held;
    if |held| == m.size || s.pool != [] {
      assert Next(m, s, t, Proceed).Some?;
    } else {
      var i := Missing(m, held);
      var u := HolderOf(m, s, i);
      NotUpdating(m, s, t, u);
      OthersGoOn(m, s, u);
    }
  }

  lemma CoveringIsLong(n: nat, held: seq<nat>)
    requires forall i: nat :: i < n ==> i in held
    ensures n <= |held|
  {
    hide Everyone, Known, Correct, Answers, Ended;
    EveryoneOnce(n);
    var all := multiset(held);
    forall i: nat
      ensures Everyone(n)[i] <= all[i]
    {
      assert i < n ==> i in held;
    }
    assert Everyone(n) <= all;
    assert all == Everyone(n) + (all - Everyone(n));
  }

  /** A list that is shorter than the pool misses an instance. */
  lemma Missing(m: Machine, held: seq<nat>) returns (i: nat)
    requires |held| < m.size
    ensures i < m.size && i !in held
  {
    if forall i: nat :: i < m.size ==> i in held {
      CoveringIsLong(m.size, held);
    }
    i :| i < m.size && i !in held;
  }

  lemma HolderOf(m: Machine, s: System, i: nat) returns (u: nat)
    requires Inv(m, s) && i < m.size && i !in s.pool
    ensures u < |s.threads| && i in Held(s.threads[u])
  {
    hide Cached, Settled, Locked, Threads, Held, AllHeld, Everyone, Known, Correct, Answers, Ended;
    EveryoneOnce(m.size);
    assert (multiset(s.pool) + AllHeld(s.threads))[i] == 1;
    u := SomeoneHolds(s.threads, i);
  }

  /** While any call is pending, some thread that is inside a call can take a step. */
  lemma NoDeadlock(m: Machine, n: nat, schedule: seq<(nat, Event)>, t: nat)
    requires Run(m, n, schedule).Some? && m.size > 0
    requires var s := Run(m, n, schedule).value; t < |s.threads| && !AtRest(s.threads[t])
    ensures var s := Run(m, n, schedule).value;
            s.history != [] && exists u, e :: 0 <= u < |s.threads| && Works(e) && Next(m, s, u, e).Some?
  {
    hide Run, Cached, Settled, Conserved, Locked, Threads, Next, Known, Correct, Answers, Ended;
    RunInvariant(m, n, schedule);
    PendingGoesOn(m, Run(m, n, schedule).value, t);
  }

  lemma PendingGoesOn(m: Machine, s: System, t: nat)
    requires Inv(m, s) && m.size > 0 && t < |s.threads| && !AtRest(s.threads[t])
    ensures exists u, e :: 0 <= u < |s.threads| && Works(e) && Next(m, s, u, e).Some?
  {
    hide Cached, Settled, Conserved, Threads, Apply, Evaluate, Known, Correct, Answers, Ended;
    var pc := s.threads[t];
    if pc.Taking? {
      if s.pool == [] {
        EmptyPoolGoesOn(m, s);
      } else {
        TakingGoesOn(m, s, t);
      }
    } else if pc.Draining? {
      DrainingGoesOn(m, s, t);
    } else if pc.Locking? {
      if s.holder.None? {
        LockingGoesOn(m, s, t);
      } else if s.threads[s.holder.value].Draining? {
        DrainingGoesOn(m, s, s.holder.value);
      } else {
        OthersGoOn(m, s, s.holder.value);
      }
    } else {
      OthersGoOn(m, s, t);
    }
  }

  lemma TakingGoesOn(m: Machine, s: System, t: nat)
    requires t < |s.threads| && s.threads[t].Taking? && s.pool != [] && s.history != []
    ensures Works(Proceed) && Next(m, s, t, Proceed).Some?
  {
  }

  lemma LockingGoesOn(m: Machine, s: System, t: nat)
    requires t < |s.threads| && s.threads[t].Locking? && s.holder.None? && s.history != []
    ensures Works(Proceed) && Next(m, s, t, Proceed).Some?
  {
    hide Evaluate, AfterLocking, AfterLoading, AfterGuarding, AfterReloading, AfterAsking, AfterUpdatingFirst,
      AfterBumping, AfterStamping, AfterStoring, AfterUpdatingOne, AfterFailing, Engine.Load, Hosts.Fit,
      Engine.Consistent, Hosts.TablesOf, Known, Correct, Answers, Ended;
  }

  // ---------------------------------------------------------------------------
  // Every call ends.
  // ---------------------------------------------------------------------------

  /** A step that does not begin a call; it may be a failure. */
  predicate Continues(e: Event) { !e.StartEvaluation? && !e.StartUpdate? }

  /** How many steps a thread can still take in its call. */
  function Rank(m: Machine, pc: Pc): nat {
    match pc
    case Loading(call) => if call.text then 6 else 7
    case Taking(_, _) => 5
    case Guarding(_, _, _) => 4
    case Reloading(_, _, _) => 3
    case Asking(_, _, _, _) => 2
    case Returning(_, _, _, _) => 1
    case Locking(_) => 4 * m.size + 9
    case Draining(_, held) => (if |held| < m.size then m.size - |held| else 0) + 3 * m.size + 8
    case UpdatingFirst(_, held) => 3 * |held| + 7
    case UpdatingRest(_, held, _, todo) => |todo| + 2 * |held| + 6
    case Bumping(_, held, _) => 2 * |held| + 5
    case Stamping(_, held, _, _, done) => (if done < |held| then |held| - done else 0) + |held| + 4
    case Storing(_, held, _, _) => |held| + 3
    case Releasing(_, _, held) => |held| + 2
    case Unlocking(_, _) => 1
    case _ => 0
  }

  function TotalRank(m: Machine, threads: seq<Pc>): nat {
    if threads == [] then 0 else TotalRank(m, threads[..|threads| - 1]) + Rank(m, threads[|threads| - 1])
  }

  lemma {:induction false} TotalRankUpdate(m: Machine, threads: seq<Pc>, t: nat, pc: Pc)
    requires t < |threads|
    ensures TotalRank(m, threads[t := pc]) + Rank(m, threads[t]) == TotalRank(m, threads) + Rank(m, pc)
  {
    hide Rank, Known, Correct, Answers, Ended;
    var last := |threads| - 1;
    if t < last {
      TotalRankUpdate(m, threads[..last], t, pc);
      assert threads[t := pc][..last] == threads[..last][t := pc];
    } else {
      assert threads[t := pc][..last] == threads[..last];
    }
  }

  lemma {:induction false} ElementsAtMostLength(held: seq<nat>)
    ensures |Elements(held)| <= |held|
  {
    if held == [] {
      assert Elements(held) == {};
    } else {
      var rest := held[..|held| - 1];
      ElementsAtMostLength(rest);
      assert held == rest + [held[|held| - 1]];
      assert Elements(held) == Elements(rest) + {held[|held| - 1]};
    }
  }

  /** The step moves thread `t` only, and brings it closer to the end of its call. */
  predicate Advances(m: Machine, s: System, t: nat, after: System)
    requires t < |s.threads|
  {
    && |after.threads| == |s.threads|
    && after.threads == s.threads[t := after.threads[t]]
    && Rank(m, after.threads[t]) < Rank(m, s.threads[t])
  }

  lemma EvaluatorAdvances(m: Machine, s: System, t: nat)
    requires t < |s.threads| && Evaluate(m, s, t).Some?
    ensures Advances(m, s, t, Evaluate(m, s, t).value)
  {
    hide Reply, Suited, Engine.Load, Hosts.Fit, Engine.Consistent, Hosts.TablesOf, Known, Correct, Answers, Ended;
  }

  lemma UpdaterAdvances(m: Machine, s: System, t: nat)
    requires t < |s.threads| && s.history != [] && Apply(m, s, t).Some?
    requires s.threads[t].Draining? ==> |s.threads[t].held| <= m.size
    ensures Advances(m, s, t, Apply(m, s, t).value)
  {
    hide Engine.Update, Hosts.TablesOf, Elements, Hosts.Fit, Engine.Consistent, Known, Correct, Answers, Ended;
    var pc := s.threads[t];
    if pc.UpdatingFirst? && pc.held != [] {
      ElementsAtMostLength(pc.held[1..]);
    }
  }

  lemma OtherStepsAdvance(m: Machine, s: System, t: nat, e: Event)
    requires t < |s.threads| && s.history != [] && (e.Fail? || e.UpdateOne?) && Next(m, s, t, e).Some?
    ensures Advances(m, s, t, Next(m, s, t, e).value)
  {
    hide Engine.Update, Evaluate, Apply, Hosts.Fit, Engine.Consistent, Hosts.TablesOf, Known, Correct, Answers, Ended;
  }

  lemma StepAdvances(m: Machine, s: System, t: nat, e: Event)
    requires Inv(m, s) && t < |s.threads| && Continues(e) && Next(m, s, t, e).Some?
    ensures Advances(m, s, t, Next(m, s, t, e).value)
  {
    hide Cached, Settled, Conserved, Locked, Threads, Local, Evaluate, Apply, Advances, AfterUpdatingOne, AfterFailing;
    LocalOf(m, s, t);
    if !e.Proceed? {
      OtherStepsAdvance(m, s, t, e);
    } else if Updating(s.threads[t]) || s.threads[t].Locking? {
      HoldsAllAtFirst(m, s, s.threads[t]);
      UpdaterAdvances(m, s, t);
    } else {
      EvaluatorAdvances(m, s, t);
    }
  }

  /** From any reachable state, if no new call begins, at most `TotalRank` further steps are possible;
      with `NoDeadlock`, every pending evaluation and update ends. */
  lemma {:induction false} EveryCallEnds(m: Machine, n: nat, schedule: seq<(nat, Event)>, more: seq<(nat, Event)>)
    requires Run(m, n, schedule + more).Some?
    requires forall k :: 0 <= k < |more| ==> Continues(more[k].1)
    ensures Run(m, n, schedule).Some?
    ensures |more| + TotalRank(m, Run(m, n, schedule + more).value.threads)
         <= TotalRank(m, Run(m, n, schedule).value.threads)
    decreases |more|
  {
    hide Inv, Next, Initial, Rank, TotalRank, Known, Correct, Answers, Ended;
    if more == [] {
      assert schedule + more == schedule;
    } else {
      var all := schedule + more;
      var before := more[..|more| - 1];
      assert all[..|all| - 1] == schedule + before;
      EveryCallEnds(m, n, schedule, before);
      RunInvariant(m, n, schedule + before);
      var (t, e) := all[|all| - 1];
      assert (t, e) == more[|more| - 1];
      var s := Run(m, n, schedule + before).value;
      StepAdvances(m, s, t, e);
      TotalRankUpdate(m, s.threads, t, Next(m, s, t, e).value.threads[t]);
    }
  }
}
