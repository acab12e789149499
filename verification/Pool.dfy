/** The instance pool of the Go, .NET and Java hosts as atomic steps of any number of threads:
    go/evaluator.go:216-273, go/evaluate.go:66-118, dotnet/src/FlagdEvaluator/FlagEvaluator.cs:56-184,
    java/src/main/java/dev/openfeature/flagd/evaluator/FlagEvaluator.java:244-307, 374-407, 487-552. */
module Pool {
  import opened Common
  import opened Json
  import Flags
  import Engine
  import Hosts

  // ---------------------------------------------------------------------------
  // State.
  // ---------------------------------------------------------------------------

  datatype Host = Go | DotNet | Java

  datatype Machine = Machine(host: Host, size: nat, strict: bool, hasByIndex: bool, sv: Flags.Services)

  const MAX_CONFIG_SIZE: nat := 100 * 1024 * 1024

  /** cacheSnapshot: replaced as a whole, never changed. */
  datatype Snapshot = Snapshot(generation: nat, tables: Hosts.Tables, metadata: Option<map<string, Json>>)

  const EMPTY_SNAPSHOT: Snapshot := Snapshot(0, Hosts.NO_TABLES, None)

  function SnapshotOf(generation: nat, r: Engine.Response): Snapshot {
    Snapshot(generation, Hosts.TablesOf(r), r.flagSetMetadata)
  }

  /** wasmInstance: a private engine and the generation that was stamped on it. */
  datatype Instance = Instance(engine: Flags.State, generation: nat)

  /** One evaluation. `text`: Java's overload for a serialized context. `start`: the configuration
      that was current when the call began, as a position in the history. */
  datatype Call = Call(key: string, context: map<string, Json>, now: int, text: bool, start: nat)

  /** One update. `start`: as for a call. */
  datatype Job = Job(text: string, start: nat)

  /** What an update ends with: too large a text, an error on the way, or the response of the first
      instance, which Go and .NET return; Java throws unless it is a success. */
  datatype Ending = Refused | Failed | Finished(response: Engine.Response)

  /** Where a thread is. No result stands for an error that is returned or thrown. */
  datatype Pc =
    | Idle
    | Loading(call: Call)
    | Taking(call: Call, first: Snapshot)
    | Guarding(call: Call, first: Snapshot, inst: nat)
    | Reloading(call: Call, first: Snapshot, inst: nat)
    | Asking(call: Call, first: Snapshot, snap: Snapshot, inst: nat)
    | Returning(call: Call, result: Option<Flags.Evaluation>, suited: bool, inst: nat)
    | Answered(call: Call, result: Option<Flags.Evaluation>, suited: bool)
    | Locking(job: Job)
    | Draining(job: Job, held: seq<nat>)
    | UpdatingFirst(job: Job, held: seq<nat>)
    | UpdatingRest(job: Job, held: seq<nat>, response: Engine.Response, todo: set<nat>)
    | Bumping(job: Job, held: seq<nat>, response: Engine.Response)
    | Stamping(job: Job, held: seq<nat>, response: Engine.Response, gen: nat, done: nat)
    | Storing(job: Job, held: seq<nat>, response: Engine.Response, gen: nat)
    | Releasing(job: Job, ending: Ending, held: seq<nat>)
    | Unlocking(job: Job, ending: Ending)
    | Updated(job: Job, ending: Ending)

  /** `pool`: a first-in first-out queue of instance numbers. `history`: the engine state of every
      cache that was ever installed, the current one last. `seen`: the newest generation each thread has read. */
  datatype System = System(
    pool: seq<nat>, instances: seq<Instance>, cache: Snapshot, counter: nat, holder: Option<nat>,
    threads: seq<Pc>, history: seq<Flags.State>, seen: seq<nat>)
  {
    function To(t: nat, pc: Pc): System
      requires t < |threads|
    {
      this.(threads := threads[t := pc])
    }

    function Sees(t: nat, generation: nat): System {
      if t < |seen| then this.(seen := seen[t := generation]) else this
    }
  }

  function Initial(m: Machine, threads: nat): System {
    System(
      seq(m.size, i => i), seq(m.size, _ => Instance(Flags.EMPTY, 0)), EMPTY_SNAPSHOT, 0, None,
      seq(threads, _ => Idle), [Flags.EMPTY], seq(threads, _ => 0))
  }

  /** The instances that a thread at this place has taken from the pool and not put back. */
  function Held(pc: Pc): seq<nat> {
    match pc
    case Guarding(_, _, inst) => [inst]
    case Reloading(_, _, inst) => [inst]
    case Asking(_, _, _, inst) => [inst]
    case Returning(_, _, _, inst) => [inst]
    case Draining(_, held) => held
    case UpdatingFirst(_, held) => held
    case UpdatingRest(_, held, _, _) => held
    case Bumping(_, held, _) => held
    case Stamping(_, held, _, _, _) => held
    case Storing(_, held, _, _) => held
    case Releasing(_, _, held) => held
    case _ => []
  }

  predicate AtRest(pc: Pc) { pc.Idle? || pc.Answered? || pc.Updated? }

  /** The thread is inside the critical section of the update lock. */
  predicate Updating(pc: Pc) {
    || pc.Draining? || pc.UpdatingFirst? || pc.UpdatingRest? || pc.Bumping?
    || pc.Stamping? || pc.Storing? || pc.Releasing? || pc.Unlocking?
  }

  // ---------------------------------------------------------------------------
  // What an evaluator asks and how it is answered.
  // ---------------------------------------------------------------------------

  /** Java serializes with the snapshot it loaded first and does not redo it after a reload. */
  function SerializedWith(m: Machine, first: Snapshot, snap: Snapshot): Snapshot {
    if m.host.Java? then first else snap
  }

  function Sent(m: Machine, call: Call, first: Snapshot, snap: Snapshot): Json {
    if call.text then (if call.context == map[] then Null else Obj(call.context))
    else
      var required := Hosts.RequiredFor(SerializedWith(m, first, snap).tables, call.key);
      Hosts.SentContext(m.host.Java?, required, call.key, call.context, call.now)
  }

  function Reply(m: Machine, call: Call, first: Snapshot, snap: Snapshot, engine: Flags.State): Flags.Evaluation {
    if call.text then Hosts.WasmEvaluate(engine, call.key, Sent(m, call, first, snap), call.now, m.sv)
    else Hosts.CallInstance(snap.tables, engine, call.key, Sent(m, call, first, snap), m.hasByIndex, call.now, m.sv)
  }

  /** The context that was sent suits the snapshot that the call is made with. */
  predicate Suited(m: Machine, call: Call, first: Snapshot, snap: Snapshot) {
    || call.text
    || SerializedWith(m, first, snap) == snap
    || Hosts.Covers(Hosts.RequiredFor(first.tables, call.key), snap.tables, call.key, call.context)
  }

  function SimpleAnswer(m: Machine, s: Flags.State, call: Call): Flags.Evaluation {
    Hosts.Simple(s, call.key, call.context, call.now, m.sv)
  }

  // ---------------------------------------------------------------------------
  // Steps. `None`: the thread has to wait.
  // ---------------------------------------------------------------------------

  datatype Event =
    | StartEvaluation(key: string, context: map<string, Json>, now: int, text: bool)
    | StartUpdate(config: string)
    | Proceed
    | Fail
    | UpdateOne(inst: nat)

  function AfterLoading(m: Machine, s: System, t: nat, call: Call): System
    requires t < |s.threads|
  {
    var next :=
      if call.key in s.cache.tables.preEvaluated then Answered(call, Some(s.cache.tables.preEvaluated[call.key]), true)
      else if m.host.Java? && !call.text && call.context == map[] then Loading(call.(text := true))
      else Taking(call, s.cache);
    s.To(t, next).Sees(t, s.cache.generation)
  }

  function AfterGuarding(s: System, t: nat, call: Call, first: Snapshot, inst: nat): System
    requires t < |s.threads| && inst < |s.instances|
  {
    var generation := s.instances[inst].generation;
    var next :=
      if first.generation != generation then Reloading(call, first, inst) else Asking(call, first, first, inst);
    s.To(t, next).Sees(t, generation)
  }

  function AfterReloading(s: System, t: nat, call: Call, first: Snapshot, inst: nat): System
    requires t < |s.threads|
  {
    var next :=
      if call.key in s.cache.tables.preEvaluated then
        Returning(call, Some(s.cache.tables.preEvaluated[call.key]), true, inst)
      else Asking(call, first, s.cache, inst);
    s.To(t, next).Sees(t, s.cache.generation)
  }

  function AfterAsking(m: Machine, s: System, t: nat, call: Call, first: Snapshot, snap: Snapshot, inst: nat): System
    requires t < |s.threads| && inst < |s.instances|
  {
    var reply := Reply(m, call, first, snap, s.instances[inst].engine);
    s.To(t, Returning(call, Some(reply), Suited(m, call, first, snap), inst))
  }

  function Evaluate(m: Machine, s: System, t: nat): Option<System>
    requires t < |s.threads|
  {
    match s.threads[t]
    case Loading(call) => Some(AfterLoading(m, s, t, call))
    case Taking(call, first) =>
      if s.pool == [] then None else Some(s.(pool := s.pool[1..]).To(t, Guarding(call, first, s.pool[0])))
    case Guarding(call, first, inst) =>
      if inst < |s.instances| then Some(AfterGuarding(s, t, call, first, inst)) else None
    case Reloading(call, first, inst) => Some(AfterReloading(s, t, call, first, inst))
    case Asking(call, first, snap, inst) =>
      if inst < |s.instances| then Some(AfterAsking(m, s, t, call, first, snap, inst)) else None
    case Returning(call, result, suited, inst) =>
      if |s.pool| < m.size then Some(s.(pool := s.pool + [inst]).To(t, Answered(call, result, suited))) else None
    case _ => None
  }

  function Elements(held: seq<nat>): set<nat> { set i | i in held }

  predicate TooLarge(text: string) { |text| > MAX_CONFIG_SIZE }

  /** Go and Java refuse a large configuration before they drain the pool. */
  function AfterLocking(m: Machine, s: System, t: nat, job: Job): System
    requires t < |s.threads|
  {
    var next := if TooLarge(job.text) && !m.host.DotNet? then Unlocking(job, Refused) else Draining(job, []);
    s.(holder := Some(t)).To(t, next)
  }

  /** The first instance decides: on a rejection Go goes on, .NET and Java give the instances back. */
  ghost function AfterUpdatingFirst(m: Machine, s: System, t: nat, job: Job, held: seq<nat>): System
    requires t < |s.threads| && held != [] && held[0] < |s.instances|
  {
    if TooLarge(job.text) then s.To(t, Releasing(job, Refused, held))
    else
      var inst := s.instances[held[0]];
      var (after, response) := Engine.Update(inst.engine, job.text, m.strict, m.sv);
      var next :=
        if response.success || m.host.Go? then UpdatingRest(job, held, response, Elements(held[1..]))
        else Releasing(job, Finished(response), held);
      s.(instances := s.instances[held[0] := inst.(engine := after)]).To(t, next)
  }

  function AfterBumping(s: System, t: nat, job: Job, held: seq<nat>, response: Engine.Response): System
    requires t < |s.threads|
  {
    s.(counter := s.counter + 1).To(t, Stamping(job, held, response, s.counter + 1, 0))
  }

  function AfterStamping(
    s: System, t: nat, job: Job, held: seq<nat>, response: Engine.Response, gen: nat, done: nat): System
    requires t < |s.threads| && done < |held| && held[done] < |s.instances|
  {
    var inst := s.instances[held[done]].(generation := gen);
    s.(instances := s.instances[held[done] := inst]).To(t, Stamping(job, held, response, gen, done + 1))
  }

  ghost function AfterStoring(
    m: Machine, s: System, t: nat, job: Job, held: seq<nat>, response: Engine.Response, gen: nat): System
    requires t < |s.threads| && s.history != []
  {
    var after := Engine.Update(s.history[|s.history| - 1], job.text, m.strict, m.sv).0;
    var next := Releasing(job, Finished(response), held);
    s.(cache := SnapshotOf(gen, response), history := s.history + [after]).To(t, next)
  }

  ghost function Apply(m: Machine, s: System, t: nat): Option<System>
    requires t < |s.threads| && s.history != []
  {
    match s.threads[t]
    case Locking(job) => if s.holder.None? then Some(AfterLocking(m, s, t, job)) else None
    case Draining(job, held) =>
      if |held| == m.size then Some(s.To(t, UpdatingFirst(job, held)))
      else if s.pool == [] then None
      else Some(s.(pool := s.pool[1..]).To(t, Draining(job, held + [s.pool[0]])))
    case UpdatingFirst(job, held) =>
      if held != [] && held[0] < |s.instances| then Some(AfterUpdatingFirst(m, s, t, job, held)) else None
    case UpdatingRest(job, held, response, todo) =>
      if todo == {} then Some(s.To(t, Bumping(job, held, response))) else None
    case Bumping(job, held, response) => Some(AfterBumping(s, t, job, held, response))
    case Stamping(job, held, response, gen, done) =>
      if done >= |held| then Some(s.To(t, Storing(job, held, response, gen)))
      else if held[done] < |s.instances| then Some(AfterStamping(s, t, job, held, response, gen, done))
      else None
    case Storing(job, held, response, gen) => Some(AfterStoring(m, s, t, job, held, response, gen))
    case Releasing(job, ending, held) =>
      if held == [] then Some(s.To(t, Unlocking(job, ending)))
      else if |s.pool| < m.size then Some(s.(pool := s.pool + [held[0]]).To(t, Releasing(job, ending, held[1..])))
      else None
    case Unlocking(job, ending) => Some(s.(holder := None).To(t, Updated(job, ending)))
    case _ => None
  }

  /** One of the parallel updates of the other instances. */
  ghost function AfterUpdatingOne(m: Machine, s: System, t: nat, i: nat): System
    requires t < |s.threads| && s.threads[t].UpdatingRest? && i < |s.instances|
  {
    var pc := s.threads[t];
    var after := Engine.Update(s.instances[i].engine, pc.job.text, m.strict, m.sv).0;
    s.(instances := s.instances[i := s.instances[i].(engine := after)]).To(t, pc.(todo := pc.todo - {i}))
  }

  /** An error on the way: the evaluator still puts its instance back, the updater all of them. */
  function AfterFailing(s: System, t: nat): Option<System>
    requires t < |s.threads|
  {
    match s.threads[t]
    case Asking(call, _, _, inst) => Some(s.To(t, Returning(call, None, true, inst)))
    case UpdatingFirst(job, held) => Some(s.To(t, Releasing(job, Failed, held)))
    case _ => None
  }

  /** The step that thread `t` takes on `e`. */
  ghost function Next(m: Machine, s: System, t: nat, e: Event): Option<System>
    requires t < |s.threads| && s.history != []
  {
    var pc := s.threads[t];
    match e
    case StartEvaluation(key, context, now, text) =>
      if AtRest(pc) && (text ==> m.host.Java?) then
        Some(s.To(t, Loading(Call(key, context, now, text, |s.history| - 1))))
      else None
    case StartUpdate(config) =>
      if AtRest(pc) then Some(s.To(t, Locking(Job(config, |s.history| - 1)))) else None
    case Proceed => if Updating(pc) || pc.Locking? then Apply(m, s, t) else Evaluate(m, s, t)
    case Fail => AfterFailing(s, t)
    case UpdateOne(i) =>
      if pc.UpdatingRest? && i in pc.todo && i < |s.instances| then Some(AfterUpdatingOne(m, s, t, i)) else None
  }

  // ---------------------------------------------------------------------------
  // Where the instances are.
  // ---------------------------------------------------------------------------

  /** Every instance number below `n`, once. */
  function Everyone(n: nat): multiset<nat> {
    if n == 0 then multiset{} else Everyone(n - 1) + multiset{n - 1}
  }

  /** All instances that threads hold, with repetitions. */
  function AllHeld(threads: seq<Pc>): multiset<nat> {
    if threads == [] then multiset{}
    else AllHeld(threads[..|threads| - 1]) + multiset(Held(threads[|threads| - 1]))
  }

  lemma {:induction false} EveryoneOnce(n: nat)
    ensures |Everyone(n)| == n
    ensures forall i: nat :: Everyone(n)[i] == if i < n then 1 else 0
  {
    if n > 0 {
      EveryoneOnce(n - 1);
    }
  }

  lemma {:induction false} AllHeldUpdate(threads: seq<Pc>, t: nat, pc: Pc)
    requires t < |threads|
    ensures AllHeld(threads[t := pc]) + multiset(Held(threads[t])) == AllHeld(threads) + multiset(Held(pc))
  {
    hide Held;
    var last := |threads| - 1;
    var before, after := AllHeld(threads[..last]), AllHeld(threads[t := pc][..last]);
    if t < last {
      AllHeldUpdate(threads[..last], t, pc);
      assert threads[t := pc][..last] == threads[..last][t := pc];
      Reorder(after, multiset(Held(threads[t])), before, multiset(Held(pc)), multiset(Held(threads[last])));
    } else {
      assert threads[t := pc][..last] == threads[..last];
      Reorder(multiset{}, multiset(Held(pc)), multiset(Held(pc)), multiset{}, before);
    }
  }

  lemma Reorder(a: multiset<nat>, b: multiset<nat>, c: multiset<nat>, d: multiset<nat>, e: multiset<nat>)
    requires a + b == c + d
    ensures a + e + b == c + e + d
    ensures e + (a + b) == e + (c + d)
  {
    assert a + e + b == (a + b) + e;
    assert c + e + d == (c + d) + e;
  }

  lemma IdleHoldsNothing()
    ensures Held(Idle) == []
  {
  }

  lemma Sum(a: multiset<nat>, b: multiset<nat>, c: multiset<nat>, d: multiset<nat>)
    requires a + b == c + multiset{} && d <= a
    ensures b + d <= c
  {
    assert c + multiset{} == c;
  }

  lemma HeldWithin(threads: seq<Pc>, t: nat)
    requires t < |threads|
    ensures multiset(Held(threads[t])) <= AllHeld(threads)
  {
    hide Held, AllHeld;
    AllHeldUpdate(threads, t, Idle);
    IdleHoldsNothing();
    Sum(AllHeld(threads[t := Idle]), multiset(Held(threads[t])), AllHeld(threads), multiset{});
  }

  /** What two different threads hold is held separately. */
  lemma HeldApart(threads: seq<Pc>, t: nat, u: nat)
    requires t < |threads| && u < |threads| && t != u
    ensures multiset(Held(threads[t])) + multiset(Held(threads[u])) <= AllHeld(threads)
  {
    hide Held, AllHeld;
    AllHeldUpdate(threads, t, Idle);
    HeldWithin(threads[t := Idle], u);
    assert multiset(Held(Idle)) == multiset{} by {
      IdleHoldsNothing();
    }
    Sum(AllHeld(threads[t := Idle]), multiset(Held(threads[t])), AllHeld(threads), multiset(Held(threads[u])));
  }

  lemma FullSubset(a: multiset<nat>, b: multiset<nat>)
    requires a <= b && |a| == |b|
    ensures a == b
  {
    assert b == a + (b - a);
    assert |b - a| == 0;
  }
}
