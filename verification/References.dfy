/** src/model/feature_flag.rs: inlining of `{"$ref": name}` objects into targeting rules. */
module References {
  import opened Common
  import opened Json

  const MAX_REF_DEPTH: nat := 64

  datatype RefError = DepthExceeded | Circular(name: string) | NotFound(name: string)

  type Evaluators = map<string, Json>

  /** The name in an object whose only member is a string `$ref`. */
  function RefName(v: Json): Option<string> {
    if v.Obj? && v.members.Keys == {"$ref"} && v.members["$ref"].Str?
    then Some(v.members["$ref"].s)
    else None
  }

  /** A reference is an object with nothing but a string under `$ref`. */
  lemma RefNameIff(v: Json, name: string)
    ensures RefName(v) == Some(name) <==> v == Obj(map["$ref" := Str(name)])
  {
    assert "$ref" in map["$ref" := Str(name)];
    if RefName(v) == Some(name) {
      assert v.members == map["$ref" := Str(name)];
    }
  }

  // ---------------------------------------------------------------------------
  // Specification: when resolution succeeds, what it gives, which errors it can give.
  // ---------------------------------------------------------------------------

  function Left(depth: nat): nat { if depth <= MAX_REF_DEPTH then MAX_REF_DEPTH + 1 - depth else 0 }

  ghost predicate Resolvable(v: Json, evals: Evaluators, visited: set<string>, depth: nat)
    decreases Left(depth), v
  {
    && depth <= MAX_REF_DEPTH
    && match v
       case Obj(members) =>
         if RefName(v).Some? then
           var name := RefName(v).value;
           name !in visited && name in evals && Resolvable(evals[name], evals, visited + {name}, depth + 1)
         else
           forall k :: k in members ==> Resolvable(members[k], evals, visited, depth)
       case Arr(items) => forall i :: 0 <= i < |items| ==> Resolvable(items[i], evals, visited, depth)
       case _ => true
  }

  /** The rule with every reference replaced by the resolved body of its evaluator. */
  ghost function Inline(v: Json, evals: Evaluators, visited: set<string>, depth: nat): Json
    requires Resolvable(v, evals, visited, depth)
    decreases Left(depth), v
  {
    match v
    case Obj(members) =>
      if RefName(v).Some? then
        Inline(evals[RefName(v).value], evals, visited + {RefName(v).value}, depth + 1)
      else
        Obj(map k | k in members :: Inline(members[k], evals, visited, depth))
    case Arr(items) => Arr(seq(|items|, i requires 0 <= i < |items| => Inline(items[i], evals, visited, depth)))
    case _ => v
  }

  /** `e` is an error that some visiting order meets first. */
  ghost predicate CanFail(v: Json, evals: Evaluators, visited: set<string>, depth: nat, e: RefError)
    decreases Left(depth), v
  {
    if depth > MAX_REF_DEPTH then e == DepthExceeded
    else
      match v
      case Obj(members) =>
        if RefName(v).Some? then
          var name := RefName(v).value;
          if name in visited then e == Circular(name)
          else if name !in evals then e == NotFound(name)
          else CanFail(evals[name], evals, visited + {name}, depth + 1, e)
        else
          exists k :: k in members && CanFail(members[k], evals, visited, depth, e)
      case Arr(items) => exists i :: 0 <= i < |items| && CanFail(items[i], evals, visited, depth, e)
      case _ => false
  }

  // ---------------------------------------------------------------------------
  // The code.
  // ---------------------------------------------------------------------------

  /** One resolution: the evaluators, and the `visited` set that the recursion shares. */
  class Resolver {
    const evaluators: Evaluators
    var visited: set<string>

    constructor (evaluators: Evaluators)
      ensures this.evaluators == evaluators && visited == {}
    {
      this.evaluators := evaluators;
      visited := {};
    }

    /** Along every call chain `visited` holds exactly `depth` evaluator names; a successful call
        leaves it as it found it. */
    method Resolve(value: Json, depth: nat) returns (r: Result<Json, RefError>)
      requires |visited| == depth && visited <= evaluators.Keys
      modifies this
      ensures r.Ok? <==> Resolvable(value, evaluators, old(visited), depth)
      ensures r.Ok? ==> r.value == Inline(value, evaluators, old(visited), depth) && visited == old(visited)
      ensures r.Err? ==> CanFail(value, evaluators, old(visited), depth, r.error)
      decreases Left(depth), value, 1
    {
      if depth > MAX_REF_DEPTH {
        return Err(DepthExceeded);
      }
      match value {
        case Obj(members) =>
          SingleMember(value);
          if |members| == 1 && "$ref" in members && members["$ref"].Str? {
            var name := members["$ref"].s;
            if name in visited {
              return Err(Circular(name));
            }
            if name !in evaluators {
              return Err(NotFound(name));
            }
            visited := visited + {name};
            r := Resolve(evaluators[name], depth + 1);
            if r.Err? {
              return;
            }
            visited := visited - {name};
            return;
          }
          r := ResolveMembers(value, depth);
        case Arr(items) => r := ResolveItems(value, depth);
        case _ => return Ok(value);
      }
    }

    /** The loop over an object that is not a reference; depth counts hops only. */
    method ResolveMembers(value: Json, depth: nat) returns (r: Result<Json, RefError>)
      requires |visited| == depth <= MAX_REF_DEPTH && visited <= evaluators.Keys
      requires value.Obj? && RefName(value).None?
      modifies this
      ensures r.Ok? <==> Resolvable(value, evaluators, old(visited), depth)
      ensures r.Ok? ==> r.value == Inline(value, evaluators, old(visited), depth) && visited == old(visited)
      ensures r.Err? ==> CanFail(value, evaluators, old(visited), depth, r.error)
      decreases Left(depth), value, 0
    {
      var members := value.members;
      var resolved: map<string, Json> := map[];
      var todo := members.Keys;
      while todo != {}
        invariant todo <= members.Keys && visited == old(visited)
        invariant resolved.Keys == members.Keys - todo
        invariant forall k :: k in resolved ==> Resolvable(members[k], evaluators, visited, depth)
        invariant forall k :: k in resolved ==> resolved[k] == Inline(members[k], evaluators, visited, depth)
      {
        var key :| key in todo;
        r := Resolve(members[key], depth);
        if r.Err? {
          return;
        }
        resolved := resolved[key := r.value];
        todo := todo - {key};
      }
      return Ok(Obj(resolved));
    }

    method ResolveItems(value: Json, depth: nat) returns (r: Result<Json, RefError>)
      requires |visited| == depth <= MAX_REF_DEPTH && visited <= evaluators.Keys
      requires value.Arr?
      modifies this
      ensures r.Ok? <==> Resolvable(value, evaluators, old(visited), depth)
      ensures r.Ok? ==> r.value == Inline(value, evaluators, old(visited), depth) && visited == old(visited)
      ensures r.Err? ==> CanFail(value, evaluators, old(visited), depth, r.error)
      decreases Left(depth), value, 0
    {
      var items := value.items;
      var resolved := [];
      var i := 0;
      while i < |items|
        invariant i <= |items| && |resolved| == i && visited == old(visited)
        invariant forall k :: 0 <= k < i ==> Resolvable(items[k], evaluators, visited, depth)
        invariant forall k :: 0 <= k < i ==> resolved[k] == Inline(items[k], evaluators, visited, depth)
      {
        r := Resolve(items[i], depth);
        if r.Err? {
          return;
        }
        resolved := resolved + [r.value];
        i := i + 1;
      }
      return Ok(Arr(resolved));
    }
  }

  lemma SingleMember(v: Json)
    requires v.Obj?
    ensures |v.members| == 1 && "$ref" in v.members <==> v.members.Keys == {"$ref"}
  {
    if |v.members| == 1 && "$ref" in v.members {
      var rest := v.members.Keys - {"$ref"};
      assert |rest| == 0;
      assert v.members.Keys == {"$ref"};
    }
    if v.members.Keys == {"$ref"} {
      assert |v.members.Keys| == 1;
    }
  }

  // ---------------------------------------------------------------------------
  // Exactly when resolution fails.
  // ---------------------------------------------------------------------------

  /** The names that a rule references itself, before any of them is looked up. */
  ghost function Names(v: Json): set<string> {
    match v
    case Obj(members) =>
      if RefName(v).Some? then {RefName(v).value}
      else set k, n | k in members && n in Names(members[k]) :: n
    case Arr(items) => set i, n | 0 <= i < |items| && n in Names(items[i]) :: n
    case _ => {}
  }

  /** A chain of hops: the rule names c[0], whose body names c[1], and so on. */
  ghost predicate Chain(v: Json, evals: Evaluators, c: seq<string>)
    decreases |c|
  {
    c == [] || (c[0] in Names(v) && (|c| > 1 ==> c[0] in evals && Chain(evals[c[0]], evals, c[1..])))
  }

  ghost predicate NoRepeat(c: seq<string>) { forall i, j :: 0 <= i < j < |c| ==> c[i] != c[j] }

  /** Every name on the chain exists, none comes twice, and there are at most 64 hops. */
  ghost predicate GoodChain(c: seq<string>, evals: Evaluators) {
    GoodFrom(c, evals, {}, 0)
  }

  ghost predicate GoodFrom(c: seq<string>, evals: Evaluators, visited: set<string>, depth: nat) {
    && (forall i :: 0 <= i < |c| ==> c[i] in evals && c[i] !in visited)
    && NoRepeat(c)
    && |c| + depth <= MAX_REF_DEPTH
  }

  /** What resolvability says of each name the rule references. */
  lemma {:induction false} ResolvableNames(v: Json, evals: Evaluators, visited: set<string>, depth: nat, n: string)
    requires Resolvable(v, evals, visited, depth) && n in Names(v)
    ensures n !in visited && n in evals && Resolvable(evals[n], evals, visited + {n}, depth + 1)
    decreases v
  {
    match v
    case Obj(members) =>
      if RefName(v).None? {
        var k :| k in members && n in Names(members[k]);
        ResolvableNames(members[k], evals, visited, depth, n);
      }
    case Arr(items) =>
      var i :| 0 <= i < |items| && n in Names(items[i]);
      ResolvableNames(items[i], evals, visited, depth, n);
  }

  lemma {:induction false} ResolvableChainsAreGood(
    v: Json, evals: Evaluators, visited: set<string>, depth: nat, c: seq<string>)
    requires Resolvable(v, evals, visited, depth) && Chain(v, evals, c)
    ensures GoodFrom(c, evals, visited, depth)
    decreases c
  {
    if c != [] {
      ResolvableNames(v, evals, visited, depth, c[0]);
      ResolvableChainsAreGood(evals[c[0]], evals, visited + {c[0]}, depth + 1, c[1..]);
      assert forall i :: 0 < i < |c| ==> c[i] == c[1..][i - 1];
    }
  }

  lemma GoodTail(n: string, rest: seq<string>, evals: Evaluators, visited: set<string>, depth: nat)
    ensures GoodFrom([n] + rest, evals, visited, depth) ==> GoodFrom(rest, evals, visited + {n}, depth + 1)
  {
    var c := [n] + rest;
    forall i | 0 <= i < |rest|
      ensures rest[i] == c[i + 1] && (NoRepeat(c) ==> rest[i] != n)
    {
      assert c[0] == n;
    }
    assert NoRepeat(c) ==> NoRepeat(rest);
  }

  lemma {:induction false} BadChain(
    v: Json, evals: Evaluators, visited: set<string>, depth: nat) returns (c: seq<string>)
    requires !Resolvable(v, evals, visited, depth) && depth <= MAX_REF_DEPTH
    ensures Chain(v, evals, c) && !GoodFrom(c, evals, visited, depth)
    decreases Left(depth), v
  {
    match v
    case Obj(members) =>
      if RefName(v).Some? {
        var n := RefName(v).value;
        c := [n];
        if n !in visited && n in evals && depth < MAX_REF_DEPTH {
          var rest := BadChain(evals[n], evals, visited + {n}, depth + 1);
          c := [n] + rest;
          assert c[1..] == rest;
          GoodTail(n, rest, evals, visited, depth);
        }
      } else {
        var k :| k in members && !Resolvable(members[k], evals, visited, depth);
        c := BadChain(members[k], evals, visited, depth);
      }
    case Arr(items) =>
      var i :| 0 <= i < |items| && !Resolvable(items[i], evals, visited, depth);
      c := BadChain(items[i], evals, visited, depth);
    case _ => c := [];
  }

  /** Resolution succeeds exactly when every reachable name exists, no reachable chain comes back
      to a name, and no chain makes more than 64 hops. */
  lemma SucceedsIffChainsAreGood(v: Json, evals: Evaluators)
    ensures Resolvable(v, evals, {}, 0) <==> forall c :: Chain(v, evals, c) ==> GoodChain(c, evals)
  {
    if Resolvable(v, evals, {}, 0) {
      forall c | Chain(v, evals, c)
        ensures GoodChain(c, evals)
      {
        ResolvableChainsAreGood(v, evals, {}, 0, c);
      }
    } else {
      var c := BadChain(v, evals, {}, 0);
      assert !GoodChain(c, evals);
    }
  }

  lemma {:induction false} SubsetSize<T>(a: set<T>, b: set<T>)
    requires a <= b
    ensures |a| <= |b|
  {
    if a != {} {
      var x :| x in a;
      SubsetSize(a - {x}, b - {x});
    }
  }

  /** With at most 64 evaluators the depth error cannot occur: a cycle is found first. */
  lemma {:induction false} DepthErrorNeedsManyEvaluators(v: Json, evals: Evaluators, visited: set<string>, depth: nat)
    requires |visited| == depth && visited <= evals.Keys
    requires CanFail(v, evals, visited, depth, DepthExceeded)
    ensures |evals| > MAX_REF_DEPTH
    decreases Left(depth), v
  {
    if depth > MAX_REF_DEPTH {
      SubsetSize(visited, evals.Keys);
    } else {
      match v
      case Obj(members) =>
        if RefName(v).Some? {
          var n := RefName(v).value;
          DepthErrorNeedsManyEvaluators(evals[n], evals, visited + {n}, depth + 1);
        } else {
          var k :| k in members && CanFail(members[k], evals, visited, depth, DepthExceeded);
          DepthErrorNeedsManyEvaluators(members[k], evals, visited, depth);
        }
      case Arr(items) =>
        var i :| 0 <= i < |items| && CanFail(items[i], evals, visited, depth, DepthExceeded);
        DepthErrorNeedsManyEvaluators(items[i], evals, visited, depth);
    }
  }

  // ---------------------------------------------------------------------------
  // Inlining preserves meaning.
  // ---------------------------------------------------------------------------

  /** A compositional semantics of rules, of any kind: what a leaf, an array and an object mean. */
  datatype Semantics<!D> = Semantics(onLeaf: Json -> D, onArray: seq<D> -> D, onObject: map<string, D> -> D)

  ghost function Meaning<D(!new)>(sem: Semantics<D>, v: Json): D
    decreases v, 1
  {
    match v
    case Obj(_) => sem.onObject(MembersMeaning(sem, v))
    case Arr(_) => sem.onArray(ItemsMeaning(sem, v))
    case _ => sem.onLeaf(v)
  }

  ghost function MembersMeaning<D(!new)>(sem: Semantics<D>, v: Json): map<string, D>
    requires v.Obj?
    decreases v, 0
  {
    map k | k in v.members :: Meaning(sem, v.members[k])
  }

  ghost function ItemsMeaning<D(!new)>(sem: Semantics<D>, v: Json): seq<D>
    requires v.Arr?
    decreases v, 0
  {
    seq(|v.items|, i requires 0 <= i < |v.items| => Meaning(sem, v.items[i]))
  }

  /** The same semantics on unresolved rules: each reference is looked up when it is met. `hops`
      bounds how many lookups may be nested; `None` is a missing name or too many of them. */
  ghost function LookupMeaning<D(!new)>(sem: Semantics<D>, v: Json, evals: Evaluators, hops: nat): Option<D>
    decreases hops, v, 1
  {
    match v
    case Obj(_) =>
      if RefName(v).Some? then
        if hops == 0 || RefName(v).value !in evals then None
        else LookupMeaning(sem, evals[RefName(v).value], evals, hops - 1)
      else
        var ms := LookupMembers(sem, v, evals, hops);
        if ms.Some? then Some(sem.onObject(ms.value)) else None
    case Arr(_) =>
      var xs := LookupItems(sem, v, evals, hops);
      if xs.Some? then Some(sem.onArray(xs.value)) else None
    case _ => Some(sem.onLeaf(v))
  }

  ghost function LookupMembers<D(!new)>(sem: Semantics<D>, v: Json, evals: Evaluators, hops: nat): Option<map<string,
      D>>
    requires v.Obj?
    decreases hops, v, 0
  {
    if forall k :: k in v.members ==> LookupMeaning(sem, v.members[k], evals, hops).Some?
    then Some(map k | k in v.members :: LookupMeaning(sem, v.members[k], evals, hops).value)
    else None
  }

  ghost function LookupItems<D(!new)>(sem: Semantics<D>, v: Json, evals: Evaluators, hops: nat): Option<seq<D>>
    requires v.Arr?
    decreases hops, v, 0
  {
    if forall i :: 0 <= i < |v.items| ==> LookupMeaning(sem, v.items[i], evals, hops).Some?
    then Some(seq(|v.items|, i requires 0 <= i < |v.items| => LookupMeaning(sem, v.items[i], evals, hops).value))
    else None
  }

  lemma {:induction false} InlinePreservesMeaningFrom<D(!new)>(
    sem: Semantics<D>, v: Json, evals: Evaluators, visited: set<string>, depth: nat, hops: nat)
    requires Resolvable(v, evals, visited, depth) && hops + depth >= MAX_REF_DEPTH
    ensures LookupMeaning(sem, v, evals, hops) == Some(Meaning(sem, Inline(v, evals, visited, depth)))
    decreases Left(depth), v
  {
    var r := Inline(v, evals, visited, depth);
    match v
    case Obj(members) =>
      if RefName(v).Some? {
        var n := RefName(v).value;
        assert depth + 1 <= MAX_REF_DEPTH;
        InlinePreservesMeaningFrom(sem, evals[n], evals, visited + {n}, depth + 1, hops - 1);
      } else {
        forall k | k in members
          ensures LookupMeaning(sem, members[k], evals, hops) == Some(Meaning(sem, r.members[k]))
        {
          InlinePreservesMeaningFrom(sem, members[k], evals, visited, depth, hops);
        }
        assert LookupMembers(sem, v, evals, hops).value == MembersMeaning(sem, r);
      }
    case Arr(items) =>
      forall i | 0 <= i < |items|
        ensures LookupMeaning(sem, items[i], evals, hops) == Some(Meaning(sem, r.items[i]))
      {
        InlinePreservesMeaningFrom(sem, items[i], evals, visited, depth, hops);
      }
      assert LookupItems(sem, v, evals, hops).value == ItemsMeaning(sem, r);
    case _ =>
  }

  /** Whatever rules mean, the inlined rule means what the original means with its references
      looked up at use. */
  lemma InlinePreservesMeaning<D(!new)>(sem: Semantics<D>, v: Json, evals: Evaluators, hops: nat)
    requires Resolvable(v, evals, {}, 0) && hops >= MAX_REF_DEPTH
    ensures LookupMeaning(sem, v, evals, hops) == Some(Meaning(sem, Inline(v, evals, {}, 0)))
  {
    InlinePreservesMeaningFrom(sem, v, evals, {}, 0, hops);
  }

  // ---------------------------------------------------------------------------
  // Is anything left to resolve?
  // ---------------------------------------------------------------------------

  /** The value itself is a string, directly or through references. */
  ghost predicate LeadsToString(v: Json, evals: Evaluators, visited: set<string>, depth: nat)
    requires Resolvable(v, evals, visited, depth)
    decreases Left(depth), v
  {
    if RefName(v).Some? then LeadsToString(evals[RefName(v).value], evals, visited + {RefName(v).value}, depth + 1)
    else v.Str?
  }

  /** Somewhere in the rule, or in a body it references, a `$ref` member holds a reference that
      leads to a string. */
  ghost predicate MakesRef(v: Json, evals: Evaluators, visited: set<string>, depth: nat)
    requires Resolvable(v, evals, visited, depth)
    decreases Left(depth), v
  {
    match v
    case Obj(members) =>
      if RefName(v).Some? then MakesRef(evals[RefName(v).value], evals, visited + {RefName(v).value}, depth + 1)
      else
        || (members.Keys == {"$ref"} && LeadsToString(members["$ref"], evals, visited, depth))
        || exists k :: k in members && MakesRef(members[k], evals, visited, depth)
    case Arr(items) => exists i :: 0 <= i < |items| && MakesRef(items[i], evals, visited, depth)
    case _ => false
  }

  lemma {:induction false} LeadsToStringMeaning(v: Json, evals: Evaluators, visited: set<string>, depth: nat)
    requires Resolvable(v, evals, visited, depth)
    ensures Inline(v, evals, visited, depth).Str? <==> LeadsToString(v, evals, visited, depth)
    decreases Left(depth), v
  {
    if RefName(v).Some? {
      LeadsToStringMeaning(evals[RefName(v).value], evals, visited + {RefName(v).value}, depth + 1);
    }
  }

  lemma NamesOfParts(v: Json)
    requires RefName(v).None?
    ensures v.Obj? ==> (Names(v) == {} <==> forall k :: k in v.members ==> Names(v.members[k]) == {})
    ensures v.Arr? ==> (Names(v) == {} <==> forall i :: 0 <= i < |v.items| ==> Names(v.items[i]) == {})
  {
    if v.Obj? {
      assert forall k, n :: k in v.members && n in Names(v.members[k]) ==> n in Names(v);
    }
    if v.Arr? {
      assert forall i, n :: 0 <= i < |v.items| && n in Names(v.items[i]) ==> n in Names(v);
    }
  }

  /** The output still holds a reference exactly when the rule makes one. */
  lemma {:induction false} OutputHasNoRefs(v: Json, evals: Evaluators, visited: set<string>, depth: nat)
    requires Resolvable(v, evals, visited, depth)
    ensures Names(Inline(v, evals, visited, depth)) == {} <==> !MakesRef(v, evals, visited, depth)
    decreases Left(depth), v
  {
    var r := Inline(v, evals, visited, depth);
    match v
    case Obj(members) =>
      if RefName(v).Some? {
        OutputHasNoRefs(evals[RefName(v).value], evals, visited + {RefName(v).value}, depth + 1);
      } else {
        assert r.members.Keys == members.Keys;
        forall k | k in members
          ensures Names(r.members[k]) == {} <==> !MakesRef(members[k], evals, visited, depth)
        {
          OutputHasNoRefs(members[k], evals, visited, depth);
        }
        if members.Keys == {"$ref"} {
          LeadsToStringMeaning(members["$ref"], evals, visited, depth);
        }
        if RefName(r).None? {
          NamesOfParts(r);
        }
      }
    case Arr(items) =>
      forall i | 0 <= i < |items|
        ensures Names(r.items[i]) == {} <==> !MakesRef(items[i], evals, visited, depth)
      {
        OutputHasNoRefs(items[i], evals, visited, depth);
      }
      NamesOfParts(r);
    case _ =>
  }

  lemma {:induction false} NoStringBodies(v: Json, evals: Evaluators, visited: set<string>, depth: nat)
    requires Resolvable(v, evals, visited, depth)
    requires forall n :: n in evals ==> !evals[n].Str?
    ensures !v.Str? ==> !LeadsToString(v, evals, visited, depth)
    ensures !MakesRef(v, evals, visited, depth)
    decreases Left(depth), v
  {
    match v
    case Obj(members) =>
      if RefName(v).Some? {
        NoStringBodies(evals[RefName(v).value], evals, visited + {RefName(v).value}, depth + 1);
      } else {
        forall k | k in members
          ensures (!members[k].Str? ==> !LeadsToString(members[k], evals, visited, depth))
              && !MakesRef(members[k], evals, visited, depth)
        {
          NoStringBodies(members[k], evals, visited, depth);
        }
      }
    case Arr(items) =>
      forall i | 0 <= i < |items|
        ensures !MakesRef(items[i], evals, visited, depth)
      {
        NoStringBodies(items[i], evals, visited, depth);
      }
    case _ =>
  }

  /** A rule without references resolves to itself, whatever the evaluators are. */
  lemma {:induction false} NothingToResolve(v: Json, evals: Evaluators, visited: set<string>, depth: nat)
    requires Names(v) == {} && depth <= MAX_REF_DEPTH
    ensures Resolvable(v, evals, visited, depth) && Inline(v, evals, visited, depth) == v
    decreases v
  {
    match v
    case Obj(members) =>
      assert RefName(v).None?;
      forall k | k in members
        ensures Resolvable(members[k], evals, visited, depth) && Inline(members[k], evals, visited, depth) == members[k]
      {
        assert forall n :: n in Names(members[k]) ==> n in Names(v);
        NothingToResolve(members[k], evals, visited, depth);
      }
    case Arr(items) =>
      forall i | 0 <= i < |items|
        ensures Resolvable(items[i], evals, visited, depth) && Inline(items[i], evals, visited, depth) == items[i]
      {
        assert forall n :: n in Names(items[i]) ==> n in Names(v);
        NothingToResolve(items[i], evals, visited, depth);
      }
    case _ =>
  }

  /** When no evaluator is a bare string, one pass resolves everything: a second pass, with these
      or any other evaluators, changes nothing. */
  lemma SecondPassIsIdentity(v: Json, evals: Evaluators, others: Evaluators)
    requires Resolvable(v, evals, {}, 0)
    requires forall n :: n in evals ==> !evals[n].Str?
    ensures var r := Inline(v, evals, {}, 0); Resolvable(r, others, {}, 0) && Inline(r, others, {}, 0) == r
  {
    NoStringBodies(v, evals, {}, 0);
    OutputHasNoRefs(v, evals, {}, 0);
    NothingToResolve(Inline(v, evals, {}, 0), others, {}, 0);
  }

  /** With a string body the claim fails: here the output is itself a reference, to a name that
      nobody defined. */
  lemma StringBodyLeavesARef()
    ensures
      var evals := map["a" := Str("b")];
      var rule := Obj(map["$ref" := Obj(map["$ref" := Str("a")])]);
      && Resolvable(rule, evals, {}, 0)
      && Inline(rule, evals, {}, 0) == Obj(map["$ref" := Str("b")])
      && !Resolvable(Inline(rule, evals, {}, 0), evals, {}, 0)
  {
    var evals := map["a" := Str("b")];
    var inner := Obj(map["$ref" := Str("a")]);
    var rule := Obj(map["$ref" := inner]);
    assert RefName(inner) == Some("a") && RefName(rule) == None;
    assert Resolvable(evals["a"], evals, {} + {"a"}, 1);
    assert Inline(inner, evals, {}, 0) == Str("b");
    assert rule.members["$ref"] == inner;
    assert Inline(rule, evals, {}, 0) == Obj(map["$ref" := Str("b")]);
    assert RefName(Inline(rule, evals, {}, 0)) == Some("b");
  }
}
