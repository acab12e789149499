/** Every step of the pool protocol keeps the invariant. */
module PoolSteps {
  import opened Common
  import opened Json
  import opened Pool
  import opened PoolInvariant
  import Flags
  import Engine
  import Hosts

  // ---------------------------------------------------------------------------
  // Answers.
  // ---------------------------------------------------------------------------

  /** With a fitting snapshot and a context that suits it, an instance answers as to the simple call. */
  lemma ReplyIsSimple(m: Machine, call: Call, first: Snapshot, snap: Snapshot, engine: Flags.State)
    requires call.text || (
               && Hosts.Fit(snap.tables, engine, m.sv) && Engine.Consistent(engine, m.sv)
               && Hosts.Admissible(engine, call.key) && Flags.PlainContext(Obj(call.context))
               && Suited(m, call, first, snap))
    ensures Reply(m, call, first, snap, engine) == SimpleAnswer(m, engine, call)
  {
    hide Hosts.Fit, Engine.Consistent, Hosts.Admissible, Flags.PlainContext, Hosts.SentContext, Hosts.CallInstance,
      Flags.EvaluateFlag, Engine.Load, Hosts.TablesOf, Known, Correct, Answers, Ended;
    if call.text {
      Hosts.EmptyContextIsNull(engine, call.key, call.now, m.sv);
    } else if SerializedWith(m, first, snap) == snap {
      Hosts.SentIsSimple(m.host.Java?, snap.tables, engine, call.key, call.context, m.hasByIndex, call.now, m.sv);
    } else {
      Hosts.CoveredIsSimple(
        m.host.Java?, Hosts.RequiredFor(first.tables, call.key), snap.tables, engine, call.key, call.context,
        m.hasByIndex, call.now, m.sv);
    }
  }

  lemma ReplyIsCorrect(m: Machine, s: System, call: Call, first: Snapshot)
    requires s.history != [] && Cached(m, s) && call.start < |s.history|
    ensures Correct(m, s.history, call, Some(Reply(m, call, first, s.cache, Current(s))),
        Suited(m, call, first, s.cache))
  {
    hide Hosts.Fit, Engine.Consistent, Hosts.Admissible, Flags.PlainContext, Reply, SimpleAnswer, Suited, Engine.Load,
      Hosts.TablesOf, Answers, Ended;
    UnlessJava(m, call, first, s.cache);
    if Assured(m, s.history, call, Suited(m, call, first, s.cache)) {
      ReplyIsSimple(m, call, first, s.cache, Current(s));
    }
  }

  /** Go and .NET serialize after the guard. */
  lemma UnlessJava(m: Machine, call: Call, first: Snapshot, snap: Snapshot)
    ensures !m.host.Java? ==> Suited(m, call, first, snap)
  {
  }

  lemma CurrentSuits(m: Machine, call: Call, snap: Snapshot)
    ensures Suited(m, call, snap, snap)
  {
  }

  lemma CachedIsCorrect(m: Machine, s: System, call: Call)
    requires s.history != [] && Cached(m, s) && call.start < |s.history| && call.key in s.cache.tables.preEvaluated
    ensures Correct(m, s.history, call, Some(s.cache.tables.preEvaluated[call.key]), true)
  {
    hide Hosts.Fit, Engine.Consistent, Hosts.Simple, Engine.Load, Hosts.TablesOf, Answers, Ended;
    Hosts.CachedIsSimple(s.cache.tables, Current(s), call.key, call.context, call.now, m.sv);
    assert s.cache.tables.preEvaluated[call.key] == SimpleAnswer(m, s.history[|s.history| - 1], call);
  }

  // ---------------------------------------------------------------------------
  // Steps of an evaluator.
  // ---------------------------------------------------------------------------

  /** While a thread outside the critical section holds an instance, no update is under way, so the
      instance carries the current configuration and generation. */
  lemma HeldIsCurrent(m: Machine, s: System, t: nat, i: nat)
    requires Inv(m, s) && t < |s.threads| && !Updating(s.threads[t]) && i in Held(s.threads[t])
    ensures i < |s.instances| && s.instances[i] == Instance(Current(s), s.cache.generation)
  {
    hide Hosts.Fit, Engine.Consistent, Correct, Known, Answers, Ended, AllHeld, Everyone, Engine.Load, Hosts.TablesOf;
    HeldOnce(m, s, t);
    var pc := UpdaterPc(s);
    if |Held(pc)| == m.size && s.holder.Some? {
      HeldBySomeoneElse(m, s, t, s.holder.value);
    }
    assert s.holder.Some? ==> Local(m, s.cache, s.history, s.threads[s.holder.value]);
    assert Expected(m, pc, Current(s), s.cache.generation, i) == Instance(Current(s), s.cache.generation);
  }

  lemma LocalOf(m: Machine, s: System, t: nat)
    requires Inv(m, s) && t < |s.threads|
    ensures s.history != [] && |s.seen| == |s.threads|
    ensures Local(m, s.cache, s.history, s.threads[t]) && s.seen[t] <= s.cache.generation
  {
    hide Local, Cached, Settled, Conserved, Locked;
  }

  /** The snapshot that a call began with was not older than its start, and is the current one if no
      update was stored since. */
  lemma StartIsKnown(m: Machine, s: System, t: nat)
    requires Inv(m, s) && t < |s.threads|
    ensures s.history != [] && s.cache.generation == |s.history| - 1
    ensures var pc := s.threads[t];
            pc.Guarding? || pc.Reloading? || pc.Asking? ==>
              && pc.call.start < |s.history| && (pc.call.start < |s.history| - 1 || pc.first == s.cache)
  {
    hide Settled, Conserved, Locked, Hosts.Fit, Engine.Consistent, Served, Answers, Ended;
    var generation := s.cache.generation;
    LocalOf(m, s, t);
  }

  lemma TakingFrom(pool: seq<nat>, job: Job, held: seq<nat>)
    requires pool != []
    ensures multiset(pool[1..]) + multiset(Held(Draining(job, held + [pool[0]])))
         == multiset(pool) + multiset(Held(Draining(job, held)))
  {
    assert pool == [pool[0]] + pool[1..];
  }

  lemma TakingOne(pool: seq<nat>, call: Call, first: Snapshot)
    requires pool != []
    ensures multiset(pool[1..]) + multiset(Held(Guarding(call, first, pool[0])))
         == multiset(pool) + multiset(Held(Taking(call, first)))
  {
    assert pool == [pool[0]] + pool[1..];
  }

  lemma PuttingBack(pool: seq<nat>, job: Job, ending: Ending, held: seq<nat>)
    requires held != []
    ensures multiset(pool + [held[0]]) + multiset(Held(Releasing(job, ending, held[1..])))
         == multiset(pool) + multiset(Held(Releasing(job, ending, held)))
  {
    MovesOne(pool, held);
  }

  lemma MovesOne(pool: seq<nat>, held: seq<nat>)
    requires held != []
    ensures multiset(pool + [held[0]]) + multiset(held[1..]) == multiset(pool) + multiset(held)
  {
    var one, rest := [held[0]], held[1..];
    assert held == one + rest;
    assert multiset(pool + one) == multiset(pool) + multiset(one);
    assert multiset(one + rest) == multiset(one) + multiset(rest);
  }

  lemma LoadingKeeps(m: Machine, s: System, t: nat, call: Call)
    requires Inv(m, s) && t < |s.threads| && s.threads[t] == Loading(call)
    ensures Inv(m, AfterLoading(m, s, t, call))
  {
    hide Cached, Settled, Conserved, Locked, Correct, Threads, Answers, Ended;
    LocalOf(m, s, t);
    StartIsKnown(m, s, t);
    if call.key in s.cache.tables.preEvaluated {
      CachedIsCorrect(m, s, call);
    }
    KeepsOutside(m, s, t, AfterLoading(m, s, t, call).threads[t], s.pool, s.cache.generation);
  }

  lemma TakingKeeps(m: Machine, s: System, t: nat, call: Call, first: Snapshot)
    requires Inv(m, s) && t < |s.threads| && s.threads[t] == Taking(call, first) && s.pool != []
    ensures Inv(m, s.(pool := s.pool[1..]).To(t, Guarding(call, first, s.pool[0])))
  {
    hide Inv, Held, Known;
    LocalOf(m, s, t);
    TakingOne(s.pool, call, first);
    KeepsOutside(m, s, t, Guarding(call, first, s.pool[0]), s.pool[1..], s.seen[t]);
  }

  lemma GuardingKeeps(m: Machine, s: System, t: nat, call: Call, first: Snapshot, inst: nat)
    requires Inv(m, s) && t < |s.threads| && s.threads[t] == Guarding(call, first, inst) && inst < |s.instances|
    ensures Inv(m, AfterGuarding(s, t, call, first, inst))
  {
    hide Cached, Settled, Conserved, Locked, Threads, Correct, Answers, Ended;
    LocalOf(m, s, t);
    HeldIsCurrent(m, s, t, inst);
    KeepsOutside(m, s, t, AfterGuarding(s, t, call, first, inst).threads[t], s.pool, s.cache.generation);
  }

  lemma ReloadingKeeps(m: Machine, s: System, t: nat, call: Call, first: Snapshot, inst: nat)
    requires Inv(m, s) && t < |s.threads| && s.threads[t] == Reloading(call, first, inst)
    ensures Inv(m, AfterReloading(s, t, call, first, inst))
  {
    hide Cached, Settled, Conserved, Locked, Threads, Correct, Known, Answers, Ended;
    LocalOf(m, s, t);
    StartIsKnown(m, s, t);
    if call.key in s.cache.tables.preEvaluated {
      CachedIsCorrect(m, s, call);
    }
    KeepsOutside(m, s, t, AfterReloading(s, t, call, first, inst).threads[t], s.pool, s.cache.generation);
  }

  lemma AskingKeeps(m: Machine, s: System, t: nat, call: Call, first: Snapshot, snap: Snapshot, inst: nat)
    requires Inv(m, s) && t < |s.threads| && s.threads[t] == Asking(call, first, snap, inst) && inst < |s.instances|
    ensures Inv(m, AfterAsking(m, s, t, call, first, snap, inst))
  {
    hide Cached, Settled, Conserved, Locked, Threads, Correct, Reply, Suited, Known, Answers, Ended;
    LocalOf(m, s, t);
    HeldIsCurrent(m, s, t, inst);
    StartIsKnown(m, s, t);
    ReplyIsCorrect(m, s, call, first);
    CurrentSuits(m, call, s.cache);
    KeepsOutside(m, s, t, AfterAsking(m, s, t, call, first, snap, inst).threads[t], s.pool, s.seen[t]);
  }

  lemma ReturningKeeps(
    m: Machine, s: System, t: nat, call: Call, result: Option<Flags.Evaluation>, suited: bool, inst: nat)
    requires Inv(m, s) && t < |s.threads| && s.threads[t] == Returning(call, result, suited, inst)
    ensures Inv(m, s.(pool := s.pool + [inst]).To(t, Answered(call, result, suited)))
  {
    hide Cached, Settled, Conserved, Locked, Threads, Correct, Known, Answers, Ended;
    LocalOf(m, s, t);
    KeepsOutside(m, s, t, Answered(call, result, suited), s.pool + [inst], s.seen[t]);
  }

  lemma EvaluateKeeps(m: Machine, s: System, t: nat)
    requires Inv(m, s) && t < |s.threads| && Evaluate(m, s, t).Some?
    ensures Inv(m, Evaluate(m, s, t).value)
  {
    hide Inv, AfterLoading, AfterGuarding, AfterReloading, AfterAsking, Known, Correct, Answers, Ended;
    match s.threads[t]
    case Loading(call) => LoadingKeeps(m, s, t, call);
    case Taking(call, first) => TakingKeeps(m, s, t, call, first);
    case Guarding(call, first, inst) => GuardingKeeps(m, s, t, call, first, inst);
    case Reloading(call, first, inst) => ReloadingKeeps(m, s, t, call, first, inst);
    case Asking(call, first, snap, inst) => AskingKeeps(m, s, t, call, first, snap, inst);
    case Returning(call, result, suited, inst) => ReturningKeeps(m, s, t, call, result, suited, inst);
    case _ =>
  }

  // ---------------------------------------------------------------------------
  // Steps of an updater.
  // ---------------------------------------------------------------------------

  /** Places at which an updater has not yet updated anything, or no longer does. */
  predicate Quiet(pc: Pc) { AtRest(pc) || pc.Draining? || pc.UpdatingFirst? || pc.Releasing? || pc.Unlocking? }

  lemma QuietExpects(m: Machine, s: System, pc: Pc)
    requires s.history != [] && Quiet(pc)
    ensures forall i :: 0 <= i < m.size ==>
      Expected(m, pc, Current(s), s.cache.generation, i) == Instance(Current(s), s.cache.generation)
  {
  }

  lemma EndsWithoutResponse(m: Machine, cache: Snapshot, history: seq<Flags.State>, job: Job)
    ensures TooLarge(job.text) ==> Ended(m, cache, history, job, Refused)
    ensures Ended(m, cache, history, job, Failed)
  {
  }

  lemma LockingKeeps(m: Machine, s: System, t: nat, job: Job)
    requires Inv(m, s) && t < |s.threads| && s.threads[t] == Locking(job) && s.holder.None?
    ensures Inv(m, AfterLocking(m, s, t, job))
  {
    hide Hosts.Fit, Engine.Consistent, AllHeld, Everyone, TooLarge, Engine.Load, Hosts.TablesOf, Known, Correct,
      Answers, Ended;
    var after := AfterLocking(m, s, t, job);
    LocalOf(m, s, t);
    EndsWithoutResponse(m, s.cache, s.history, job);
    KeepsConserved(m, s, t, after.threads[t], after);
    KeepsThreads(m, s, t, after.threads[t], after);
  }

  lemma UnlockingKeeps(m: Machine, s: System, t: nat, job: Job, ending: Ending)
    requires Inv(m, s) && t < |s.threads| && s.threads[t] == Unlocking(job, ending)
    ensures Inv(m, s.(holder := None).To(t, Updated(job, ending)))
  {
    hide Hosts.Fit, Engine.Consistent, Conserved, Expected, Known, Correct, Answers, Ended;
    var next := Updated(job, ending);
    var after := s.(holder := None).To(t, next);
    assert Locked(after);
    QuietExpects(m, s, s.threads[t]);
    QuietExpects(m, s, Idle);
    LocalOf(m, s, t);
    KeepsConserved(m, s, t, next, after);
    KeepsThreads(m, s, t, next, after);
  }

  lemma HolderIs(m: Machine, s: System, t: nat)
    requires Inv(m, s) && t < |s.threads| && Updating(s.threads[t])
    ensures s.history != [] && UpdaterPc(s) == s.threads[t] && Local(m, s.cache, s.history, s.threads[t])
    ensures s.counter == s.cache.generation + (if s.threads[t].Stamping? || s.threads[t].Storing? then 1 else 0)
    ensures |s.instances| == m.size
    ensures forall i :: 0 <= i < m.size ==>
        s.instances[i] == Expected(m, s.threads[t], Current(s), s.cache.generation, i)
  {
    hide Local, Expected, Hosts.Fit, Engine.Consistent, Conserved, Updating, Engine.Load, Hosts.TablesOf;
    LocalOf(m, s, t);
  }

  /** Moving instances between the pool and the updater, before or after the update. */
  lemma QuietMoveKeeps(m: Machine, s: System, t: nat, pc: Pc, pool: seq<nat>)
    requires Inv(m, s) && t < |s.threads|
    requires Updating(s.threads[t]) && Quiet(s.threads[t]) && Updating(pc) && Quiet(pc)
    requires multiset(pool) + multiset(Held(pc)) == multiset(s.pool) + multiset(Held(s.threads[t]))
    requires Local(m, s.cache, s.history, pc)
    ensures Inv(m, s.(pool := pool).To(t, pc))
  {
    hide Inv, Held, Expected, Local, Updating;
    HolderIs(m, s, t);
    QuietExpects(m, s, s.threads[t]);
    QuietExpects(m, s, pc);
    assert !s.threads[t].Stamping? && !s.threads[t].Storing?;
    KeepsInside(m, s, t, pc, pool, s.instances, s.counter);
  }

  lemma DrainingKeeps(m: Machine, s: System, t: nat, job: Job, held: seq<nat>)
    requires Inv(m, s) && t < |s.threads| && s.threads[t] == Draining(job, held) && |held| != m.size && s.pool != []
    ensures Inv(m, s.(pool := s.pool[1..]).To(t, Draining(job, held + [s.pool[0]])))
  {
    hide Inv, Held, Local;
    HolderIs(m, s, t);
    TakingFrom(s.pool, job, held);
    OneMoreIsLocal(m, s, job, held, s.pool[0]);
    QuietMoveKeeps(m, s, t, Draining(job, held + [s.pool[0]]), s.pool[1..]);
  }

  lemma OneMoreIsLocal(m: Machine, s: System, job: Job, held: seq<nat>, i: nat)
    requires s.history != [] && Local(m, s.cache, s.history, Draining(job, held)) && |held| != m.size
    ensures Local(m, s.cache, s.history, Draining(job, held + [i]))
  {
  }

  lemma DrainedKeeps(m: Machine, s: System, t: nat, job: Job, held: seq<nat>)
    requires Inv(m, s) && t < |s.threads| && s.threads[t] == Draining(job, held) && |held| == m.size
    ensures Inv(m, s.To(t, UpdatingFirst(job, held)))
  {
    hide Inv, Local, Held;
    HolderIs(m, s, t);
    DrainedIsLocal(m, s, job, held);
    QuietMoveKeeps(m, s, t, UpdatingFirst(job, held), s.pool);
  }

  lemma DrainedIsLocal(m: Machine, s: System, job: Job, held: seq<nat>)
    requires s.history != [] && Local(m, s.cache, s.history, Draining(job, held)) && |held| == m.size
    ensures Local(m, s.cache, s.history, UpdatingFirst(job, held))
    ensures Held(UpdatingFirst(job, held)) == Held(Draining(job, held))
  {
  }

  lemma ReleasingKeeps(m: Machine, s: System, t: nat, job: Job, ending: Ending, held: seq<nat>)
    requires Inv(m, s) && t < |s.threads| && s.threads[t] == Releasing(job, ending, held) && held != []
    ensures Inv(m, s.(pool := s.pool + [held[0]]).To(t, Releasing(job, ending, held[1..])))
  {
    hide Inv, Held;
    HolderIs(m, s, t);
    PuttingBack(s.pool, job, ending, held);
    QuietMoveKeeps(m, s, t, Releasing(job, ending, held[1..]), s.pool + [held[0]]);
  }

  lemma ReleasedKeeps(m: Machine, s: System, t: nat, job: Job, ending: Ending)
    requires Inv(m, s) && t < |s.threads| && s.threads[t] == Releasing(job, ending, [])
    ensures Inv(m, s.To(t, Unlocking(job, ending)))
  {
    hide Inv, Known, Correct, Answers, Ended;
    HolderIs(m, s, t);
    QuietMoveKeeps(m, s, t, Unlocking(job, ending), s.pool);
  }

  /** In a full and duplicate-free list, everything but the first is in the tail, and only that. */
  lemma TailOf(held: seq<nat>, n: nat)
    requires |held| == n > 0
    requires forall i: nat :: multiset(held)[i] == if i < n then 1 else 0
    ensures held[0] < n && forall i: nat :: i < n ==> (i in held[1..] <==> i != held[0])
  {
    assert held == [held[0]] + held[1..];
    assert multiset(held) == multiset{held[0]} + multiset(held[1..]);
    forall i: nat | i < n
      ensures i in held[1..] <==> i != held[0]
    {
      assert multiset(held)[i] == 1;
    }
    assert multiset(held)[held[0]] >= 1;
  }

  lemma UpdatingFirstKeeps(m: Machine, s: System, t: nat, job: Job, held: seq<nat>)
    requires Inv(m, s) && t < |s.threads| && s.threads[t] == UpdatingFirst(job, held)
    requires held != [] && held[0] < |s.instances|
    ensures Inv(m, AfterUpdatingFirst(m, s, t, job, held))
  {
    hide Inv, Engine.Update, TooLarge, Expected, Local;
    HolderIs(m, s, t);
    var after := AfterUpdatingFirst(m, s, t, job, held);
    if after.threads[t].Releasing? {
      Engine.RejectedUpdateChangesNothing(Current(s), job.text, m.strict, m.sv);
      assert Expected(m, s.threads[t], Current(s), s.cache.generation, held[0])
          == Instance(Current(s), s.cache.generation) by {
        QuietExpects(m, s, s.threads[t]);
      }
      assert after.instances == s.instances;
      EndsWithoutResponse(m, s.cache, s.history, job);
      if !TooLarge(job.text) {
        RejectedEnds(m, s, t, job, held);
      }
      GivingBackKeeps(m, s, t, job, held, after.threads[t].ending);
    } else {
      UpdatedFirstKeeps(m, s, t, job, held);
    }
  }

  lemma RejectedEnds(m: Machine, s: System, t: nat, job: Job, held: seq<nat>)
    requires Inv(m, s) && t < |s.threads| && s.threads[t] == UpdatingFirst(job, held) && !TooLarge(job.text)
    ensures var r := Engine.Update(Current(s), job.text, m.strict, m.sv).1;
            !r.success && !m.host.Go? ==> Ended(m, s.cache, s.history, job, Finished(r))
  {
    hide Inv, TooLarge, Answers, Known, Correct, Engine.Update;
    LocalOf(m, s, t);
    var r := Engine.Update(Current(s), job.text, m.strict, m.sv).1;
    if !r.success && !m.host.Go? {
      FinishedEnds(m, s.cache, s.history, job, r, |s.history| - 1);
    }
  }

  /** The first update failed or was rejected: all instances are given back as they were. */
  lemma GivingBackKeeps(m: Machine, s: System, t: nat, job: Job, held: seq<nat>, ending: Ending)
    requires Inv(m, s) && t < |s.threads| && s.threads[t] == UpdatingFirst(job, held)
    requires Ended(m, s.cache, s.history, job, ending)
    ensures Inv(m, s.To(t, Releasing(job, ending, held)))
  {
    hide Inv, Local, Held, Ended;
    HolderIs(m, s, t);
    EndingIsLocal(m, s, job, held, ending);
    QuietMoveKeeps(m, s, t, Releasing(job, ending, held), s.pool);
  }

  lemma EndingIsLocal(m: Machine, s: System, job: Job, held: seq<nat>, ending: Ending)
    requires s.history != [] && Ended(m, s.cache, s.history, job, ending)
    ensures Local(m, s.cache, s.history, Releasing(job, ending, held))
    ensures Held(Releasing(job, ending, held)) == Held(UpdatingFirst(job, held))
  {
    hide Ended;
  }

  lemma UpdatedFirstKeeps(m: Machine, s: System, t: nat, job: Job, held: seq<nat>)
    requires Inv(m, s) && t < |s.threads| && s.threads[t] == UpdatingFirst(job, held)
    requires held != [] && held[0] < |s.instances|
    requires AfterUpdatingFirst(m, s, t, job, held).threads[t].UpdatingRest?
    ensures Inv(m, AfterUpdatingFirst(m, s, t, job, held))
  {
    hide Inv, Held, Engine.Update, TooLarge, Elements, Local, Expected;
    HolderIs(m, s, t);
    var after := AfterUpdatingFirst(m, s, t, job, held);
    FirstIsUpdated(m, s, t, job, held);
    KeepsInside(m, s, t, after.threads[t], s.pool, after.instances, after.counter);
  }

  /** After the first update, the others are left to do. */
  lemma FirstIsUpdated(m: Machine, s: System, t: nat, job: Job, held: seq<nat>)
    requires Inv(m, s) && t < |s.threads| && s.threads[t] == UpdatingFirst(job, held)
    requires held != [] && held[0] < |s.instances|
    requires AfterUpdatingFirst(m, s, t, job, held).threads[t].UpdatingRest?
    ensures var after := AfterUpdatingFirst(m, s, t, job, held);
            && s.history != [] && |after.instances| == m.size
            && Held(after.threads[t]) == Held(s.threads[t])
            && Local(m, s.cache, s.history, after.threads[t])
            && forall i :: 0 <= i < m.size ==>
                 after.instances[i] == Expected(m, after.threads[t], Current(s), s.cache.generation, i)
  {
    hide Inv, Engine.Update, TooLarge, Elements, Expected, Local, Held;
    HolderIs(m, s, t);
    QuietExpects(m, s, s.threads[t]);
    var response := Engine.Update(Current(s), job.text, m.strict, m.sv).1;
    assert s.instances[held[0]].engine == Current(s);
    OthersAreLeft(m, s, t, job, held);
    FirstIsExpected(m, s, job, held, response);
    JobHasStart(m, s, job, held);
    FirstIsLocal(m, s, job, held, response);
  }

  lemma JobHasStart(m: Machine, s: System, job: Job, held: seq<nat>)
    requires s.history != [] && Local(m, s.cache, s.history, UpdatingFirst(job, held))
    ensures job.start < |s.history|
  {
  }

  lemma OthersAreLeft(m: Machine, s: System, t: nat, job: Job, held: seq<nat>)
    requires Inv(m, s) && t < |s.threads| && s.threads[t] == UpdatingFirst(job, held) && held != []
    ensures |held| == m.size && held[0] < m.size
    ensures forall i: nat :: i < m.size ==> (i in Elements(held[1..]) <==> i != held[0])
  {
    hide Inv, Local, Held;
    HolderIs(m, s, t);
    AllAreHeld(m, s, job, held);
    DrainedAllOf(m, s, t);
    TailOf(held, m.size);
  }

  lemma AllAreHeld(m: Machine, s: System, job: Job, held: seq<nat>)
    requires s.history != [] && Local(m, s.cache, s.history, UpdatingFirst(job, held))
    ensures Held(UpdatingFirst(job, held)) == held && |held| == m.size
  {
  }

  lemma FirstIsExpected(m: Machine, s: System, job: Job, held: seq<nat>, response: Engine.Response)
    requires s.history != [] && held != [] && held[0] < m.size
    requires forall i: nat :: i < m.size ==> (i in Elements(held[1..]) <==> i != held[0])
    ensures forall i :: 0 <= i < m.size ==>
      Expected(m, UpdatingRest(job, held, response, Elements(held[1..])), Current(s), s.cache.generation, i)
      == Instance(if i == held[0] then After(m, Current(s), job.text) else Current(s), s.cache.generation)
  {
    hide After, Elements;
  }

  lemma FirstIsLocal(m: Machine, s: System, job: Job, held: seq<nat>, response: Engine.Response)
    requires s.history != [] && |held| == m.size > 0
    ensures Held(UpdatingRest(job, held, response, Elements(held[1..]))) == Held(UpdatingFirst(job, held))
    ensures Answers(m, s.history, job, response) ==>
      Local(m, s.cache, s.history, UpdatingRest(job, held, response, Elements(held[1..])))
  {
    hide Answers, Known, Correct;
  }

  lemma DrainedAllOf(m: Machine, s: System, t: nat)
    requires Inv(m, s) && t < |s.threads| && |Held(s.threads[t])| == m.size
    ensures s.pool == []
    ensures forall i: nat :: multiset(Held(s.threads[t]))[i] == if i < m.size then 1 else 0
    ensures forall u :: 0 <= u < |s.threads| && u != t ==> Held(s.threads[u]) == []
  {
    hide Cached, Settled, Threads, Locked, Held, Conserved, Known, Correct, Answers, Ended;
    DrainedAll(m, s, t);
  }

  lemma UpdatingOneKeeps(m: Machine, s: System, t: nat, i: nat)
    requires Inv(m, s) && t < |s.threads| && s.threads[t].UpdatingRest? && i in s.threads[t].todo && i < |s.instances|
    ensures Inv(m, AfterUpdatingOne(m, s, t, i))
  {
    hide Inv, Expected, Local, Held, Engine.Update;
    HolderIs(m, s, t);
    var after := AfterUpdatingOne(m, s, t, i);
    OneIsUpdated(m, s, t, i);
    KeepsInside(m, s, t, after.threads[t], s.pool, after.instances, s.counter);
  }

  lemma OneIsUpdated(m: Machine, s: System, t: nat, i: nat)
    requires Inv(m, s) && t < |s.threads| && s.threads[t].UpdatingRest? && i in s.threads[t].todo && i < |s.instances|
    ensures var after := AfterUpdatingOne(m, s, t, i);
            && s.history != [] && |after.instances| == m.size
            && Held(after.threads[t]) == Held(s.threads[t])
            && Local(m, s.cache, s.history, after.threads[t])
            && forall j :: 0 <= j < m.size ==>
                 after.instances[j] == Expected(m, after.threads[t], Current(s), s.cache.generation, j)
  {
    hide Inv, Engine.Update, Answers, Known, Correct;
    HolderIs(m, s, t);
  }

  lemma UpdatingRestKeeps(m: Machine, s: System, t: nat, job: Job, held: seq<nat>, response: Engine.Response)
    requires Inv(m, s) && t < |s.threads| && s.threads[t] == UpdatingRest(job, held, response, {})
    ensures Inv(m, s.To(t, Bumping(job, held, response)))
  {
    hide Inv, Expected, Local, Held;
    HolderIs(m, s, t);
    AllAreUpdated(m, s, job, held, response);
    KeepsInside(m, s, t, Bumping(job, held, response), s.pool, s.instances, s.counter);
  }

  lemma AllAreUpdated(m: Machine, s: System, job: Job, held: seq<nat>, response: Engine.Response)
    requires s.history != []
    ensures var before, after := UpdatingRest(job, held, response, {}), Bumping(job, held, response);
            && Held(after) == Held(before)
            && (Local(m, s.cache, s.history, before) ==> Local(m, s.cache, s.history, after))
            && forall i :: 0 <= i < m.size ==>
                 Expected(m, after, Current(s), s.cache.generation, i)
                     == Expected(m, before, Current(s), s.cache.generation, i)
  {
    hide Answers, Known, Correct, After;
  }

  lemma BumpingKeeps(m: Machine, s: System, t: nat, job: Job, held: seq<nat>, response: Engine.Response)
    requires Inv(m, s) && t < |s.threads| && s.threads[t] == Bumping(job, held, response)
    ensures Inv(m, AfterBumping(s, t, job, held, response))
  {
    hide Inv, Expected, Local, Held;
    HolderIs(m, s, t);
    var next := Stamping(job, held, response, s.counter + 1, 0);
    ExpectedUnstamped(m, job, held, response, s.counter + 1, Current(s), s.cache.generation);
    StampingIsLocal(m, s, s.threads[t], next);
    KeepsInside(m, s, t, next, s.pool, s.instances, s.counter + 1);
  }

  /** The local variables of an updater that stamps the next generation. */
  lemma StampingIsLocal(m: Machine, s: System, pc: Pc, next: Pc)
    requires s.history != [] && Local(m, s.cache, s.history, pc) && next.Stamping? && next.done <= |next.held|
    requires next.gen == s.cache.generation + 1
    requires pc == Bumping(next.job, next.held, next.response)
          || (pc.Stamping? && next == pc.(done := next.done))
    ensures Local(m, s.cache, s.history, next) && Held(next) == Held(pc)
  {
    hide Answers, Known, Correct;
  }

  lemma ExpectedUnstamped(
    m: Machine, job: Job, held: seq<nat>, response: Engine.Response, gen: nat, current: Flags.State,
        generation: nat)
    ensures forall i :: 0 <= i < m.size ==>
      Expected(m, Stamping(job, held, response, gen, 0), current, generation, i)
      == Expected(m, Bumping(job, held, response), current, generation, i)
  {
    hide After, Known, Correct, Answers, Ended;
  }

  lemma StampingKeeps(
    m: Machine, s: System, t: nat, job: Job, held: seq<nat>, response: Engine.Response, gen: nat, done: nat)
    requires Inv(m, s) && t < |s.threads| && s.threads[t] == Stamping(job, held, response, gen, done)
    requires done < |held| && held[done] < |s.instances|
    ensures Inv(m, AfterStamping(s, t, job, held, response, gen, done))
  {
    hide Inv, Expected, Local, Held;
    HolderIs(m, s, t);
    var next := Stamping(job, held, response, gen, done + 1);
    ExpectedStamped(m, job, held, response, gen, done, Current(s), s.cache.generation);
    StampingGeneration(m, s, s.threads[t]);
    StampingIsLocal(m, s, s.threads[t], next);
    KeepsInside(m, s, t, next, s.pool, AfterStamping(s, t, job, held, response, gen, done).instances, s.counter);
  }

  lemma StampingGeneration(m: Machine, s: System, pc: Pc)
    requires s.history != [] && Local(m, s.cache, s.history, pc) && pc.Stamping?
    ensures pc.gen == s.cache.generation + 1
  {
    hide Answers, Known, Correct;
  }

  lemma ExpectedStamped(
    m: Machine, job: Job, held: seq<nat>, response: Engine.Response, gen: nat, done: nat, current: Flags.State,
        generation: nat)
    requires done < |held|
    ensures forall i :: 0 <= i < m.size ==>
      Expected(m, Stamping(job, held, response, gen, done + 1), current, generation, i)
      == if i == held[done]
          then Expected(m, Stamping(job, held, response, gen, done), current, generation, i).(generation := gen)
         else Expected(m, Stamping(job, held, response, gen, done), current, generation, i)
  {
    hide After, Known, Correct, Answers, Ended;
    assert held[..done + 1] == held[..done] + [held[done]];
  }

  lemma StampedKeeps(m: Machine, s: System, t: nat, job: Job, held: seq<nat>, response: Engine.Response, gen: nat)
    requires Inv(m, s) && t < |s.threads| && s.threads[t] == Stamping(job, held, response, gen, |held|)
    ensures Inv(m, s.To(t, Storing(job, held, response, gen)))
  {
    hide Inv, Engine.Update, Conserved, Answers, After, Known, Correct;
    HolderIs(m, s, t);
    assert forall i: nat :: i < m.size ==> i in held[..|held|] by {
      DrainedAllOf(m, s, t);
      AllOf(held, m.size);
    }
    KeepsInside(m, s, t, Storing(job, held, response, gen), s.pool, s.instances, s.counter);
  }

  lemma AllOf(held: seq<nat>, n: nat)
    requires forall i: nat :: multiset(held)[i] == if i < n then 1 else 0
    ensures forall i: nat :: i < n ==> i in held[..|held|]
  {
    assert held[..|held|] == held;
    forall i: nat | i < n
      ensures i in held
    {
      assert multiset(held)[i] == 1;
    }
  }

  // ---------------------------------------------------------------------------
  // Installing a snapshot.
  // ---------------------------------------------------------------------------

  /** Answers stay linear as the history grows. */
  lemma CorrectIsKept(
    m: Machine, history: seq<Flags.State>, new_: Flags.State, call: Call, r: Option<Flags.Evaluation>, suited: bool)
    requires Correct(m, history, call, r, suited)
    ensures Correct(m, history + [new_], call, r, suited)
  {
    hide Flags.PlainContext, Hosts.Admissible, SimpleAnswer, Engine.Load, Hosts.Fit, Engine.Consistent, Hosts.TablesOf,
      Answers, Ended;
    var longer := history + [new_];
    assert forall j :: 0 <= j < |history| ==> longer[j] == history[j];
    if r.Some? && Assured(m, longer, call, suited) {
      assert Assured(m, history, call, suited) by {
        forall j | AllAdmissible(longer, call) && call.start <= j < |history|
          ensures Hosts.Admissible(history[j], call.key)
        {
          assert Hosts.Admissible(longer[j], call.key);
        }
      }
      var j :| call.start <= j < |history| && r.value == SimpleAnswer(m, history[j], call);
      assert r.value == SimpleAnswer(m, longer[j], call);
    }
  }

  /** Threads that hold nothing and are not updating survive the installation of a newer snapshot. */
  lemma LocalIsKept(m: Machine, s: System, cache: Snapshot, new_: Flags.State, pc: Pc)
    requires s.history != [] && Local(m, s.cache, s.history, pc) && !Updating(pc) && Held(pc) == []
    requires s.cache.generation < cache.generation == |s.history|
    ensures Local(m, cache, s.history + [new_], pc)
  {
    hide Correct, Engine.Load, Hosts.Fit, Engine.Consistent, Hosts.TablesOf, Answers, Ended;
    if pc.Answered? {
      CorrectIsKept(m, s.history, new_, pc.call, pc.result, pc.suited);
    } else if pc.Updated? {
      EndedIsKept(m, s.cache, s.history, new_, cache, pc.job, pc.ending);
    }
  }

  lemma StoringThreads(m: Machine, s: System, t: nat, pc: Pc, after: System, new_: Flags.State)
    requires Inv(m, s) && t < |s.threads| && pc.Storing? && s.threads[t] == pc
    requires after.cache.generation > s.cache.generation && after.history == s.history + [new_] && after.seen == s.seen
    requires after.cache.generation == |s.history|
    requires after.threads == s.threads[t := Releasing(pc.job, Finished(pc.response), pc.held)]
    requires Ended(m, after.cache, after.history, pc.job, Finished(pc.response))
    ensures Threads(m, after)
  {
    hide Cached, Settled, Locked, Conserved, Correct, Known, Answers, Ended;
    LocalOf(m, s, t);
    DrainedAllOf(m, s, t);
    forall u | 0 <= u < |after.threads|
      ensures Local(m, after.cache, after.history, after.threads[u]) && after.seen[u] <= after.cache.generation
    {
      LocalOf(m, s, u);
      if u != t {
        NotUpdating(m, s, t, u);
        LocalIsKept(m, s, after.cache, new_, s.threads[u]);
      }
    }
  }

  lemma NotUpdating(m: Machine, s: System, t: nat, u: nat)
    requires Inv(m, s) && t < |s.threads| && u < |s.threads| && t != u && Updating(s.threads[t])
    ensures !Updating(s.threads[u])
  {
    hide Cached, Settled, Threads, Conserved, Updating, Known, Correct, Answers, Ended;
  }

  lemma ResponsePublishes(current: Flags.State, text: string, strict: bool, sv: Flags.Services, generation: nat)
    ensures var (after, r) := Engine.Update(current, text, strict, sv); Published(SnapshotOf(generation, r), after)
  {
    hide Engine.Load, Hosts.TablesOf;
  }

  lemma StoringCache(m: Machine, s: System, t: nat, job: Job, held: seq<nat>, response: Engine.Response, gen: nat)
    requires Inv(m, s) && t < |s.threads| && s.threads[t] == Storing(job, held, response, gen)
    ensures Cached(m, AfterStoring(m, s, t, job, held, response, gen))
    ensures Locked(AfterStoring(m, s, t, job, held, response, gen))
  {
    hide Engine.Update, Engine.Consistent, Hosts.Fit, Hosts.TablesOf, Conserved, Settled, Threads, Known, Correct;
    HolderIs(m, s, t);
    Hosts.UpdateFits(Current(s), job.text, m.strict, m.sv);
    Hosts.UpdateIsConsistent(Current(s), job.text, m.strict, m.sv);
    ResponsePublishes(Current(s), job.text, m.strict, m.sv, gen);
  }

  lemma StoringSettled(m: Machine, s: System, t: nat, job: Job, held: seq<nat>, response: Engine.Response, gen: nat)
    requires Inv(m, s) && t < |s.threads| && s.threads[t] == Storing(job, held, response, gen)
    ensures Settled(m, AfterStoring(m, s, t, job, held, response, gen))
    ensures gen == s.cache.generation + 1
  {
    hide Inv, Engine.Update, Conserved, Answers, Known, Correct;
    HolderIs(m, s, t);
    var after := AfterStoring(m, s, t, job, held, response, gen);
    var next := Releasing(job, Finished(response), held);
    assert UpdaterPc(after) == next by {
      HolderStays(m, s, t, next, after);
    }
  }

  lemma HolderStays(m: Machine, s: System, t: nat, pc: Pc, after: System)
    requires Inv(m, s) && t < |s.threads| && Updating(s.threads[t])
    requires after.holder == s.holder && after.threads == s.threads[t := pc]
    ensures UpdaterPc(after) == pc
  {
    hide Cached, Settled, Threads, Conserved, Updating, Known, Correct, Answers, Ended;
  }

  /** The update has taken effect. */
  lemma StoredEnds(m: Machine, s: System, t: nat, job: Job, held: seq<nat>, response: Engine.Response, gen: nat)
    requires Inv(m, s) && t < |s.threads| && s.threads[t] == Storing(job, held, response, gen)
    ensures var after := AfterStoring(m, s, t, job, held, response, gen);
            && after.cache.generation == |s.history|
            && Ended(m, after.cache, after.history, job, Finished(response))
  {
    hide Inv, Engine.Update, SnapshotOf, TooLarge, Ended, Known, Served;
    LocalOf(m, s, t);
    StartIsKnown(m, s, t);
    SnapshotGeneration(gen, response);
    var after := AfterStoring(m, s, t, job, held, response, gen);
    assert TookEffect(m, after.cache, after.history, job.text, response, |s.history| - 1);
    FinishedEnds(m, after.cache, after.history, job, response, |s.history| - 1);
  }

  lemma FinishedEnds(
    m: Machine, cache: Snapshot, history: seq<Flags.State>, job: Job, r: Engine.Response, j: nat)
    requires !TooLarge(job.text) && job.start <= j < |history| && TookEffect(m, cache, history, job.text, r, j)
    ensures Ended(m, cache, history, job, Finished(r))
  {
    hide TookEffect, TooLarge;
  }

  lemma SnapshotGeneration(generation: nat, r: Engine.Response)
    ensures SnapshotOf(generation, r).generation == generation
  {
  }

  /** What an update ended with remains so as later ones are stored. */
  lemma EndedIsKept(
    m: Machine, cache: Snapshot, history: seq<Flags.State>, new_: Flags.State, later: Snapshot, job: Job,
    ending: Ending)
    requires Ended(m, cache, history, job, ending) && later.generation == |history|
    ensures Ended(m, later, history + [new_], job, ending)
  {
    hide Engine.Update, SnapshotOf, TooLarge;
    if ending.Finished? {
      var j :| job.start <= j < |history| && TookEffect(m, cache, history, job.text, ending.response, j);
      var longer := history + [new_];
      assert longer[j] == history[j];
      assert j + 1 < |history| ==> longer[j + 1] == history[j + 1];
      assert TookEffect(m, later, longer, job.text, ending.response, j);
    }
  }

  lemma StoringKeeps(m: Machine, s: System, t: nat, job: Job, held: seq<nat>, response: Engine.Response, gen: nat)
    requires Inv(m, s) && t < |s.threads| && s.threads[t] == Storing(job, held, response, gen)
    ensures Inv(m, AfterStoring(m, s, t, job, held, response, gen))
  {
    hide Cached, Settled, Locked, Threads, Engine.Update, AllHeld, Everyone, Known, Correct, Answers, Ended;
    var after := AfterStoring(m, s, t, job, held, response, gen);
    StoringCache(m, s, t, job, held, response, gen);
    StoringSettled(m, s, t, job, held, response, gen);
    StoredEnds(m, s, t, job, held, response, gen);
    StoringThreads(m, s, t, s.threads[t], after, after.history[|s.history|]);
    KeepsConserved(m, s, t, Releasing(job, Finished(response), held), after);
  }

  lemma ApplyKeeps(m: Machine, s: System, t: nat)
    requires Inv(m, s) && t < |s.threads| && Apply(m, s, t).Some?
    ensures Inv(m, Apply(m, s, t).value)
  {
    hide Cached, Settled, Locked, Threads, Conserved, AfterLocking, AfterUpdatingFirst, AfterBumping, AfterStamping,
      AfterStoring, Known, Correct, Answers, Ended;
    match s.threads[t]
    case Locking(job) => LockingKeeps(m, s, t, job);
    case Draining(job, held) =>
      if |held| == m.size {
        DrainedKeeps(m, s, t, job, held);
      } else {
        DrainingKeeps(m, s, t, job, held);
      }
    case UpdatingFirst(job, held) => UpdatingFirstKeeps(m, s, t, job, held);
    case UpdatingRest(job, held, response, _) => UpdatingRestKeeps(m, s, t, job, held, response);
    case Bumping(job, held, response) => BumpingKeeps(m, s, t, job, held, response);
    case Stamping(job, held, response, gen, done) =>
      if done < |held| {
        StampingKeeps(m, s, t, job, held, response, gen, done);
      } else {
        HolderIs(m, s, t);
        StampedKeeps(m, s, t, job, held, response, gen);
      }
    case Storing(job, held, response, gen) => StoringKeeps(m, s, t, job, held, response, gen);
    case Releasing(job, ending, held) =>
      if held == [] {
        ReleasedKeeps(m, s, t, job, ending);
      } else {
        ReleasingKeeps(m, s, t, job, ending, held);
      }
    case Unlocking(job, ending) => UnlockingKeeps(m, s, t, job, ending);
    case _ =>
  }
}
