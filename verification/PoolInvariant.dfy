/** What every step of the pool protocol keeps. */
module PoolInvariant {
  import opened Common
  import opened Json
  import opened Pool
  import Flags
  import Engine
  import Hosts

  // ---------------------------------------------------------------------------
  // The invariant.
  // ---------------------------------------------------------------------------

  predicate Shaped(m: Machine, s: System) {
    |s.instances| == m.size && |s.seen| == |s.threads| && s.history != []
  }

  /** Pooled and held instances are the original ones, each once. */
  predicate Conserved(m: Machine, s: System) {
    multiset(s.pool) + AllHeld(s.threads) == Everyone(m.size)
  }

  /** The lock's holder is the one thread in the critical section. */
  predicate Locked(s: System) {
    && (s.holder.Some? ==> s.holder.value < |s.threads|)
    && forall t :: 0 <= t < |s.threads| ==> (Updating(s.threads[t]) <==> s.holder == Some(t))
  }

  function UpdaterPc(s: System): Pc {
    if s.holder.Some? && s.holder.value < |s.threads| then s.threads[s.holder.value] else Idle
  }

  function Current(s: System): Flags.State
    requires s.history != []
  {
    s.history[|s.history| - 1]
  }

  /** The flag-set metadata of a snapshot, if it has any, are those of the configuration. */
  predicate Published(cache: Snapshot, current: Flags.State) {
    cache.metadata.Some? ==> current.loaded.Some? && cache.metadata.value == current.loaded.value.metadata
  }

  /** The snapshot's tables fit the current configuration, and its generation is the number of
      snapshots before it; the counter is ahead only while an updater stamps. */
  ghost predicate Cached(m: Machine, s: System)
    requires s.history != []
  {
    && Hosts.Fit(s.cache.tables, Current(s), m.sv) && Published(s.cache, Current(s))
    && (forall j :: 0 <= j < |s.history| ==> Engine.Consistent(s.history[j], m.sv))
    && s.cache.generation == |s.history| - 1
    && s.counter == s.cache.generation + (if UpdaterPc(s).Stamping? || UpdaterPc(s).Storing? then 1 else 0)
  }

  ghost function After(m: Machine, current: Flags.State, text: string): Flags.State {
    Engine.Update(current, text, m.strict, m.sv).0
  }

  /** What instance `i` is while the updater is at `pc`: outside of the update itself every instance
      carries the current configuration and the generation of the current snapshot. */
  ghost function Expected(m: Machine, pc: Pc, current: Flags.State, generation: nat, i: nat): Instance {
    match pc
    case UpdatingRest(job, _, _, todo) =>
      Instance(if i in todo then current else After(m, current, job.text), generation)
    case Bumping(job, _, _) => Instance(After(m, current, job.text), generation)
    case Stamping(job, held, _, gen, done) =>
      Instance(After(m, current, job.text), if done <= |held| && i in held[..done] then gen else generation)
    case Storing(job, _, _, gen) => Instance(After(m, current, job.text), gen)
    case _ => Instance(current, generation)
  }

  ghost predicate Settled(m: Machine, s: System)
    requires s.history != []
  {
    forall i :: 0 <= i < |s.instances| ==>
        s.instances[i] == Expected(m, UpdaterPc(s), Current(s), s.cache.generation, i)
  }

  /** A snapshot that was read is no newer than the current one, and is that one if as new. */
  predicate Known(cache: Snapshot, snap: Snapshot) {
    snap.generation <= cache.generation && (snap.generation == cache.generation ==> snap == cache)
  }

  /** The answer is the simple evaluation under a configuration that was current during the call. */
  ghost predicate Linear(m: Machine, history: seq<Flags.State>, call: Call, r: Flags.Evaluation) {
    exists j :: call.start <= j < |history| && r == SimpleAnswer(m, history[j], call)
  }

  /** Every configuration that has been current since the call began is admissible for its key. */
  ghost predicate AllAdmissible(history: seq<Flags.State>, call: Call) {
    forall j :: call.start <= j < |history| ==> Hosts.Admissible(history[j], call.key)
  }

  /** What a right answer rests on. Java's text overload filters nothing and needs nothing. Elsewhere
      the context must suit the snapshot (on Go and .NET it always does), be plain, and meet admissible
      configurations only. */
  ghost predicate Assured(m: Machine, history: seq<Flags.State>, call: Call, suited: bool) {
    || call.text
    || ((!m.host.Java? || suited) && Flags.PlainContext(Obj(call.context)) && AllAdmissible(history, call))
  }

  ghost predicate Correct(
    m: Machine, history: seq<Flags.State>, call: Call, r: Option<Flags.Evaluation>, suited: bool) {
    r.Some? && Assured(m, history, call, suited) ==> Linear(m, history, call, r.value)
  }

  /** The update's response is that of position `j` of the history. An accepted configuration is what
      follows there, and until the next update it is what the snapshot publishes; a rejected one
      changes nothing, and only Go installs a snapshot for it. */
  ghost predicate TookEffect(
    m: Machine, cache: Snapshot, history: seq<Flags.State>, text: string, r: Engine.Response, j: nat)
    requires j < |history|
  {
    var (after, response) := Engine.Update(history[j], text, m.strict, m.sv);
    && r == response
    && (r.success || m.host.Go? ==>
          && j + 1 < |history| && history[j + 1] == after
          && (cache.generation == j + 1 ==> cache == SnapshotOf(j + 1, r)))
  }

  /** What the ending of an update says. */
  ghost predicate Ended(m: Machine, cache: Snapshot, history: seq<Flags.State>, job: Job, ending: Ending) {
    match ending
    case Refused => TooLarge(job.text)
    case Failed => true
    case Finished(r) =>
      && !TooLarge(job.text)
      && exists j :: job.start <= j < |history| && TookEffect(m, cache, history, job.text, r, j)
  }

  /** What a thread's local variables satisfy. */
  ghost predicate Local(m: Machine, cache: Snapshot, history: seq<Flags.State>, pc: Pc)
    requires history != []
  {
    match pc
    case Loading(call) => call.start < |history|
    case Taking(call, first) => call.start <= first.generation && Known(cache, first)
    case Guarding(call, first, _) => call.start <= first.generation && Known(cache, first)
    case Reloading(call, first, _) => call.start <= first.generation && Known(cache, first)
    case Asking(call, first, snap, _) => call.start <= first.generation && Known(cache, first) && snap == cache
    case Returning(call, result, suited, _) => Served(m, history, call, result, suited)
    case Answered(call, result, suited) => Served(m, history, call, result, suited)
    case Locking(job) => job.start < |history|
    case Draining(job, held) => job.start < |history| && |held| <= m.size
    case UpdatingFirst(job, held) => job.start < |history| && |held| == m.size
    case UpdatingRest(job, held, response, todo) =>
      |held| == m.size && Answers(m, history, job, response) && forall i :: i in todo ==> i in held
    case Bumping(job, held, response) => |held| == m.size && Answers(m, history, job, response)
    case Stamping(job, held, response, gen, done) =>
      |held| == m.size && Answers(m, history, job, response) && gen == cache.generation + 1 && done <= |held|
    case Storing(job, held, response, gen) =>
      |held| == m.size && Answers(m, history, job, response) && gen == cache.generation + 1
    case Releasing(job, ending, _) => Ended(m, cache, history, job, ending)
    case Unlocking(job, ending) => Ended(m, cache, history, job, ending)
    case Updated(job, ending) => Ended(m, cache, history, job, ending)
    case Idle => true
  }

  /** A correct answer; its context suits unless an update was stored during the call. */
  ghost predicate Served(
    m: Machine, history: seq<Flags.State>, call: Call, result: Option<Flags.Evaluation>, suited: bool) {
    && call.start < |history| && Correct(m, history, call, result, suited)
    && (suited || call.start < |history| - 1)
  }

  /** The response is that of the engine; only Go carries on with a rejection. */
  ghost predicate Answers(m: Machine, history: seq<Flags.State>, job: Job, response: Engine.Response)
    requires history != []
  {
    && job.start < |history| && !TooLarge(job.text) && (response.success || m.host.Go?)
    && response == Engine.Update(history[|history| - 1], job.text, m.strict, m.sv).1
  }

  ghost predicate Threads(m: Machine, s: System)
    requires s.history != [] && |s.seen| == |s.threads|
  {
    forall t :: 0 <= t < |s.threads| ==> Local(m, s.cache, s.history, s.threads[t]) && s.seen[t] <= s.cache.generation
  }

  ghost predicate Inv(m: Machine, s: System) {
    Shaped(m, s) && Conserved(m, s) && Locked(s) && Cached(m, s) && Settled(m, s) && Threads(m, s)
  }

  // ---------------------------------------------------------------------------
  // Consequences of conservation.
  // ---------------------------------------------------------------------------

  /** A thread that holds something holds it alone; it is a real instance and not in the pool. */
  lemma HeldOnce(m: Machine, s: System, t: nat)
    requires Conserved(m, s) && t < |s.threads|
    ensures multiset(s.pool) + multiset(Held(s.threads[t])) <= Everyone(m.size)
    ensures forall i :: i in Held(s.threads[t]) ==> i < m.size && i !in s.pool
    ensures |s.pool| + |Held(s.threads[t])| <= m.size
  {
    hide Held, AllHeld, Everyone;
    HeldWithin(s.threads, t);
    EveryoneOnce(m.size);
    var held := multiset(Held(s.threads[t]));
    assert AllHeld(s.threads) == held + (AllHeld(s.threads) - held);
    assert Everyone(m.size) == (multiset(s.pool) + held) + (AllHeld(s.threads) - held);
    forall i | i in Held(s.threads[t])
      ensures i < m.size && i !in s.pool
    {
      assert held[i] >= 1 && Everyone(m.size)[i] >= multiset(s.pool)[i] + 1;
    }
  }

  /** Two threads never hold the same instance. */
  lemma HeldBySomeoneElse(m: Machine, s: System, t: nat, u: nat)
    requires Conserved(m, s) && t < |s.threads| && u < |s.threads| && t != u
    ensures |Held(s.threads[t])| + |Held(s.threads[u])| <= m.size
    ensures forall i :: i in Held(s.threads[t]) ==> i !in Held(s.threads[u])
  {
    hide Held, AllHeld, Everyone;
    HeldApart(s.threads, t, u);
    EveryoneOnce(m.size);
    var a, b := multiset(Held(s.threads[t])), multiset(Held(s.threads[u]));
    assert a + b <= Everyone(m.size);
    assert Everyone(m.size) == (a + b) + (Everyone(m.size) - (a + b));
    forall i | i in Held(s.threads[t])
      ensures i !in Held(s.threads[u])
    {
      assert a[i] >= 1 && Everyone(m.size)[i] >= a[i] + b[i];
    }
  }

  /** An updater that has drained the pool holds every instance, once, and nobody else holds any. */
  lemma DrainedAll(m: Machine, s: System, t: nat)
    requires Conserved(m, s) && t < |s.threads| && |Held(s.threads[t])| == m.size
    ensures s.pool == []
    ensures forall i: nat :: multiset(Held(s.threads[t]))[i] == if i < m.size then 1 else 0
    ensures forall u :: 0 <= u < |s.threads| && u != t ==> Held(s.threads[u]) == []
  {
    hide Held, AllHeld, Everyone;
    HeldOnce(m, s, t);
    EveryoneOnce(m.size);
    var held := multiset(Held(s.threads[t]));
    assert held <= Everyone(m.size);
    FullSubset(held, Everyone(m.size));
    forall u | 0 <= u < |s.threads| && u != t
      ensures Held(s.threads[u]) == []
    {
      HeldBySomeoneElse(m, s, t, u);
    }
  }

  // ---------------------------------------------------------------------------
  // Parts of the invariant that a step of one thread keeps.
  // ---------------------------------------------------------------------------

  lemma KeepsConserved(m: Machine, s: System, t: nat, pc: Pc, after: System)
    requires Conserved(m, s) && t < |s.threads| && after.threads == s.threads[t := pc]
    requires multiset(after.pool) + multiset(Held(pc)) == multiset(s.pool) + multiset(Held(s.threads[t]))
    ensures Conserved(m, after)
  {
    hide Held, AllHeld, Everyone;
    AllHeldUpdate(s.threads, t, pc);
    Balance(
      multiset(after.pool), AllHeld(after.threads), multiset(Held(pc)),
      multiset(s.pool), AllHeld(s.threads), multiset(Held(s.threads[t])));
  }

  lemma Balance(
    p: multiset<nat>, a: multiset<nat>, h: multiset<nat>, q: multiset<nat>, b: multiset<nat>, g: multiset<nat>)
    requires p + h == q + g && a + g == b + h
    ensures p + a == q + b
  {
    forall i
      ensures (p + a)[i] == (q + b)[i]
    {
      assert (p + h)[i] == (q + g)[i] && (a + g)[i] == (b + h)[i];
    }
  }

  lemma KeepsThreads(m: Machine, s: System, t: nat, pc: Pc, after: System)
    requires Shaped(m, s) && Threads(m, s) && t < |s.threads| && after.threads == s.threads[t := pc]
    requires after.cache == s.cache && after.history == s.history && |after.seen| == |s.seen|
    requires Local(m, s.cache, s.history, pc)
    requires forall u :: 0 <= u < |s.seen| && u != t ==> after.seen[u] == s.seen[u]
    requires after.seen[t] <= s.cache.generation
    ensures Threads(m, after)
  {
    hide Local;
    forall u | 0 <= u < |after.threads|
      ensures Local(m, s.cache, s.history, after.threads[u]) && after.seen[u] <= s.cache.generation
    {
      assert Local(m, s.cache, s.history, s.threads[u]);
    }
  }

  /** A step outside the critical section, on which the thread has read `generation`. */
  lemma KeepsOutside(m: Machine, s: System, t: nat, pc: Pc, pool: seq<nat>, generation: nat)
    requires Inv(m, s) && t < |s.threads| && !Updating(s.threads[t]) && !Updating(pc)
    requires multiset(pool) + multiset(Held(pc)) == multiset(s.pool) + multiset(Held(s.threads[t]))
    requires Local(m, s.cache, s.history, pc) && generation <= s.cache.generation
    ensures Inv(m, s.(pool := pool).To(t, pc))
    ensures Inv(m, s.(pool := pool).To(t, pc).Sees(t, generation))
  {
    hide Held, AllHeld, Everyone, Local, Expected, Hosts.Fit, Engine.Consistent, Updating;
    var after := s.(pool := pool).To(t, pc);
    assert s.seen[t] <= s.cache.generation;
    KeepsConserved(m, s, t, pc, after);
    KeepsThreads(m, s, t, pc, after);
    assert UpdaterPc(after) == UpdaterPc(s);
    KeepsThreads(m, s, t, pc, after.Sees(t, generation));
    assert UpdaterPc(after.Sees(t, generation)) == UpdaterPc(s);
  }

  /** A step inside the critical section that installs nothing. */
  lemma KeepsInside(m: Machine, s: System, t: nat, pc: Pc, pool: seq<nat>, instances: seq<Instance>, counter: nat)
    requires Inv(m, s) && t < |s.threads| && Updating(s.threads[t]) && Updating(pc)
    requires multiset(pool) + multiset(Held(pc)) == multiset(s.pool) + multiset(Held(s.threads[t]))
    requires Local(m, s.cache, s.history, pc)
    requires counter == s.cache.generation + (if pc.Stamping? || pc.Storing? then 1 else 0)
    requires |instances| == m.size
    requires forall i :: 0 <= i < m.size ==> instances[i] == Expected(m, pc, Current(s), s.cache.generation, i)
    ensures Inv(m, s.(pool := pool, instances := instances, counter := counter).To(t, pc))
  {
    hide Held, AllHeld, Everyone, Local, Expected, Hosts.Fit, Engine.Consistent, Updating;
    var after := s.(pool := pool, instances := instances, counter := counter).To(t, pc);
    KeepsConserved(m, s, t, pc, after);
    KeepsThreads(m, s, t, pc, after);
    assert UpdaterPc(after) == pc;
  }
}
