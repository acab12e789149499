/** go/evaluator.go and go/evaluate.go as a single thread runs them: instances, pool, caches and the
    two operations, updating in place. Module Pool has the same operations cut into steps. */
module GoHost {
  import opened Common
  import opened Json
  import opened Flags
  import Engine
  import Hosts
  import Pool

  /** buildCacheSnapshot. */
  method BuildCacheSnapshot(r: Engine.Response, generation: nat) returns (snap: Pool.Snapshot)
    ensures snap == Pool.SnapshotOf(generation, r)
  {
    var preEvaluated: map<string, Evaluation> := map[];
    if r.preEvaluated.Some? {
      preEvaluated := r.preEvaluated.value;
    }
    var keyCache: map<string, set<string>> := map[];
    if r.requiredContextKeys.Some? {
      var table := r.requiredContextKeys.value;
      var todo := table.Keys;
      while todo != {}
        invariant todo <= table.Keys && keyCache.Keys == table.Keys - todo
        invariant forall k :: k in keyCache ==> keyCache[k] == Hosts.KeySets(table)[k]
      {
        var flagKey :| flagKey in todo;
        var keySet: set<string> := {};
        for i := 0 to |table[flagKey]|
          invariant keySet == set x | x in table[flagKey][..i]
        {
          keySet := keySet + {table[flagKey][i]};
        }
        assert table[flagKey][..|table[flagKey]|] == table[flagKey];
        keyCache := keyCache[flagKey := keySet];
        todo := todo - {flagKey};
      }
      assert keyCache == Hosts.KeySets(table);
    }
    var flagIndex: map<string, nat> := map[];
    if r.flagIndices.Some? {
      flagIndex := r.flagIndices.value;
    }
    var flagSetMetadata: Option<map<string, Json>> := None;
    if r.flagSetMetadata.Some? {
      flagSetMetadata := r.flagSetMetadata;
    }
    return Pool.Snapshot(generation, Hosts.Tables(preEvaluated, keyCache, flagIndex), flagSetMetadata);
  }

  /** serializeFilteredContext, as the object that it writes. */
  method SerializeFilteredContext(context: map<string, Json>, required: set<string>, key: string, now: int)
    returns (r: map<string, Json>)
    ensures r == Hosts.HostFiltered(false, key, context, required, now)
  {
    r := map[];
    var todo := required;
    while todo != {}
      invariant todo <= required
      invariant r == map k | k in required && k !in todo && k in context && !Hosts.Skips(false, k) :: context[k]
    {
      var k :| k in todo;
      todo := todo - {k};
      if k == "targetingKey" || k == "$flagd.flagKey" || k == "$flagd.timestamp" || k !in context {
        continue;
      }
      r := r[k := context[k]];
    }
    assert r == map k | k in required && k in context && !Hosts.Skips(false, k) :: context[k];
    r := r["targetingKey" := if "targetingKey" in context then context["targetingKey"] else Str("")];
    r := r["$flagd" := FlagdProperties(key, now)];
  }

  class WasmInstance {
    const engine: Engine.FlagEvaluator
    var generation: nat

    constructor (strict: bool, sv: Services)
      ensures fresh(engine) && engine.Abstract() == EMPTY && engine.strict == strict && engine.sv == sv
      ensures generation == 0
    {
      engine := new Engine.FlagEvaluator(strict, sv);
      generation := 0;
    }
  }

  function Engines(instances: seq<WasmInstance>): set<Engine.FlagEvaluator> {
    set i | 0 <= i < |instances| :: instances[i].engine
  }

  lemma OneMoreEngine(instances: seq<WasmInstance>, inst: WasmInstance)
    ensures Engines(instances + [inst]) == Engines(instances) + {inst.engine}
  {
    var all := instances + [inst];
    assert all[|instances|] == inst && forall i :: 0 <= i < |instances| ==> all[i] == instances[i];
  }

  ghost predicate Distinct(instances: seq<WasmInstance>) {
    forall i, j :: 0 <= i < j < |instances| ==>
      instances[i] != instances[j] && instances[i].engine != instances[j].engine
  }

  /** Every instance holds `state` and carries `generation`. */
  ghost predicate AllCarry(instances: seq<WasmInstance>, state: State, generation: nat)
    reads instances, Engines(instances)
  {
    forall i :: 0 <= i < |instances| ==>
      instances[i].engine.Abstract() == state && instances[i].generation == generation
  }

  class GoEvaluator {
    const poolSize: nat
    const strict: bool
    const hasByIndex: bool
    const sv: Services
    var pool: seq<WasmInstance>
    var cache: Pool.Snapshot
    var generation: nat
    ghost var state: State

    ghost predicate Valid()
      reads this, pool, Engines(pool)
    {
      && |pool| == poolSize > 0 && Distinct(pool)
      && (forall i :: 0 <= i < |pool| ==> pool[i].engine.strict == strict && pool[i].engine.sv == sv)
      && AllCarry(pool, state, generation)
      && cache.generation == generation
      && Hosts.Fit(cache.tables, state, sv) && Engine.Consistent(state, sv)
    }

    /** A requested size that is not positive means the number of processors. */
    constructor (requested: int, processors: nat, strict: bool, hasByIndex: bool, sv: Services)
      requires processors > 0
      ensures Valid() && fresh(pool) && fresh(Engines(pool))
      ensures poolSize == if requested <= 0 then processors else requested
      ensures state == EMPTY && cache == Pool.EMPTY_SNAPSHOT
    {
      var size: nat := if requested <= 0 then processors else requested;
      poolSize := size;
      this.strict := strict;
      this.hasByIndex := hasByIndex;
      this.sv := sv;
      cache := Pool.EMPTY_SNAPSHOT;
      generation := 0;
      state := EMPTY;
      pool := [];
      new;
      Hosts.EmptyFits(sv);
      while |pool| < size
        invariant |pool| <= size && fresh(pool) && fresh(Engines(pool)) && Distinct(pool)
        invariant forall i :: 0 <= i < |pool| ==> pool[i].engine.strict == strict && pool[i].engine.sv == sv
        invariant AllCarry(pool, EMPTY, 0)
        invariant cache == Pool.EMPTY_SNAPSHOT && generation == 0 && state == EMPTY
      {
        var inst := new WasmInstance(strict, sv);
        ghost var before := pool;
        pool := pool + [inst];
        OneMoreEngine(before, inst);
      }
    }

    method Drain() returns (instances: seq<WasmInstance>)
      requires |pool| == poolSize
      modifies this`pool
      ensures instances == old(pool) && pool == []
    {
      instances := [];
      for i := 0 to poolSize
        invariant instances + pool == old(pool) && |instances| == i
      {
        instances := instances + [pool[0]];
        pool := pool[1..];
      }
    }

    /** The first instance gives the response, the others follow. */
    method UpdateAll(instances: seq<WasmInstance>, config: string, ghost before: State) returns (r: Engine.Response)
      requires instances != [] && Distinct(instances)
      requires forall i :: 0 <= i < |instances| ==>
        && instances[i].engine.strict == strict && instances[i].engine.sv == sv
        && instances[i].engine.Abstract() == before
      modifies Engines(instances)
      ensures r == Engine.Update(before, config, strict, sv).1
      ensures forall i :: 0 <= i < |instances| ==>
        && instances[i].engine.strict == strict
        && instances[i].engine.Abstract() == Engine.Update(before, config, strict, sv).0
    {
      hide Engine.Update;
      r := instances[0].engine.UpdateState(config);
      for i := 1 to |instances|
        invariant forall j :: 0 <= j < |instances| ==> instances[j].engine.strict == strict
        invariant forall j :: 0 <= j < i ==>
            instances[j].engine.Abstract() == Engine.Update(before, config, strict, sv).0
        invariant forall j :: i <= j < |instances| ==> instances[j].engine.Abstract() == before
      {
        var other := instances[i].engine.UpdateState(config);
      }
    }

    method Stamp(instances: seq<WasmInstance>, gen: nat)
      requires Distinct(instances)
      modifies instances
      ensures forall i :: 0 <= i < |instances| ==> instances[i].generation == gen
    {
      for i := 0 to |instances|
        invariant forall j :: 0 <= j < i ==> instances[j].generation == gen
      {
        instances[i].generation := gen;
      }
    }

    /** The new generation, stamped on all instances and on the new snapshot. */
    method Publish(instances: seq<WasmInstance>, response: Engine.Response, ghost after: State)
      requires Distinct(instances)
      modifies this`generation, this`cache, this`state, instances
      ensures generation == old(generation) + 1 && state == after
      ensures cache == Pool.SnapshotOf(generation, response)
      ensures forall i :: 0 <= i < |instances| ==> instances[i].generation == generation
    {
      generation := generation + 1;
      var snap := BuildCacheSnapshot(response, generation);
      Stamp(instances, generation);
      cache := snap;
      state := after;
    }

    method GiveBack(instances: seq<WasmInstance>)
      modifies this`pool
      ensures pool == old(pool) + instances
    {
      for i := 0 to |instances|
        invariant pool == old(pool) + instances[..i]
      {
        pool := pool + [instances[i]];
      }
    }

    /** Everything that happens to the drained instances, and to the snapshot. */
    method Renew(instances: seq<WasmInstance>, config: string) returns (r: Engine.Response)
      requires instances != [] && Distinct(instances)
      requires forall i :: 0 <= i < |instances| ==>
        instances[i].engine.strict == strict && instances[i].engine.sv == sv
      requires AllCarry(instances, state, generation)
      modifies this`generation, this`cache, this`state, instances, Engines(instances)
      ensures (state, r) == Engine.Update(old(state), config, strict, sv)
      ensures generation == old(generation) + 1 && cache == Pool.SnapshotOf(generation, r)
      ensures AllCarry(instances, state, generation)
      ensures forall i :: 0 <= i < |instances| ==> instances[i].engine.strict == strict
    {
      hide Engine.Update, Hosts.TablesOf, Pool.SnapshotOf;
      r := UpdateAll(instances, config, state);
      Publish(instances, r, Engine.Update(state, config, strict, sv).0);
    }

    static lemma SnapshotHas(generation: nat, r: Engine.Response)
      ensures Pool.SnapshotOf(generation, r).generation == generation
      ensures Pool.SnapshotOf(generation, r).tables == Hosts.TablesOf(r)
    {
    }

    /** UpdateState: a rejected configuration installs an empty snapshot under a new generation, and
        leaves every instance's configuration as it was. */
    method UpdateState(config: string) returns (r: Option<Engine.Response>)
      requires Valid()
      modifies this, pool, Engines(pool)
      ensures Valid() && pool == old(pool)
      ensures r.None? <==> Pool.TooLarge(config)
      ensures r.None? ==> state == old(state) && cache == old(cache)
      ensures r.Some? ==>
        && (state, r.value) == Engine.Update(old(state), config, strict, sv)
        && cache == Pool.SnapshotOf(old(generation) + 1, r.value)
    {
      hide Distinct, AllCarry, Engine.Update, Hosts.Fit, Engine.Consistent, Hosts.TablesOf, Pool.SnapshotOf;
      if |config| > Pool.MAX_CONFIG_SIZE {
        return None;
      }
      var instances := Drain();
      Hosts.UpdateFits(state, config, strict, sv);
      Hosts.UpdateIsConsistent(state, config, strict, sv);
      var response := Renew(instances, config);
      SnapshotHas(generation, response);
      GiveBack(instances);
      assert pool == instances;
      return Some(response);
    }

    /** The call of an instance: the context filtered if the rule's keys are known, nothing sent for
        an empty one, and the flag addressed by its index if possible. */
    method Ask(
      inst: WasmInstance, snap: Pool.Snapshot, key: string, context: map<string, Json>,
      now: int) returns (r: Evaluation)
      ensures key !in snap.tables.preEvaluated ==>
        r == Hosts.Answer(false, snap.tables, inst.engine.Abstract(), key, context, hasByIndex, now, sv)
    {
      hide Hosts.WasmEvaluate, Hosts.WasmByIndex, Hosts.HostFiltered;
      var sent := Null;
      if key in snap.tables.required && context != map[] {
        var filtered := SerializeFilteredContext(context, snap.tables.required[key], key, now);
        sent := Obj(filtered);
      } else if context != map[] {
        sent := Obj(context);
      }
      if key in snap.tables.indices && hasByIndex && key in snap.tables.required {
        return Hosts.WasmByIndex(inst.engine.Abstract(), snap.tables.indices[key], sent, now, sv);
      }
      return Hosts.WasmEvaluate(inst.engine.Abstract(), key, sent, now, sv);
    }

    /** evaluateFlag. */
    method EvaluateFlag(key: string, context: map<string, Json>, now: int) returns (r: Evaluation)
      requires pool != []
      modifies this`pool
      ensures multiset(pool) == multiset(old(pool))
      ensures old(Valid()) ==> Valid()
      ensures old(Valid()) ==> r == Hosts.Answer(false, cache.tables, state, key, context, hasByIndex, now, sv)
      ensures old(Valid()) && Hosts.Admissible(state, key) && PlainContext(Obj(context)) ==>
        r == Hosts.Simple(state, key, context, now, sv)
    {
      hide Hosts.Fit, Engine.Consistent, Hosts.Admissible, PlainContext, Hosts.Simple, Hosts.Answer, Distinct;
      if Valid() && Hosts.Admissible(state, key) && PlainContext(Obj(context)) {
        Hosts.AnswerIsSimple(false, cache.tables, state, key, context, hasByIndex, now, sv);
      }
      var snap := cache;
      if key in snap.tables.preEvaluated {
        Hosts.HitIsAnswer(false, snap.tables, state, key, context, hasByIndex, now, sv);
        return snap.tables.preEvaluated[key];
      }
      var inst := pool[0];
      pool := pool[1..];
      if snap.generation != inst.generation {
        snap := cache;
      }
      if key in snap.tables.preEvaluated {
        Hosts.HitIsAnswer(false, snap.tables, state, key, context, hasByIndex, now, sv);
        r := snap.tables.preEvaluated[key];
      } else {
        r := Ask(inst, snap, key, context, now);
      }
      Rotated(old(pool), pool + [inst]);
      pool := pool + [inst];
    }

    lemma Rotated(before: seq<WasmInstance>, after: seq<WasmInstance>)
      requires before != [] && after == before[1..] + [before[0]]
      ensures multiset(after) == multiset(before)
      ensures Distinct(before) ==> Distinct(after)
      ensures forall i :: 0 <= i < |after| ==> after[i] == before[if i + 1 < |before| then i + 1 else 0]
    {
      assert before == [before[0]] + before[1..];
    }
  }
}
