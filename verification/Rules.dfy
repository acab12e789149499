/** Compiled targeting rules: their evaluation (src/operators/), and the extraction of the context
    keys they read (src/evaluator.rs:881-1059). The nodes are those of the rule library; its
    built-in operators are parameters, except the two that read variables. */
module Rules {
  import opened Common
  import opened Text
  import opened Json
  import Fractional
  import SemVer

  datatype OpCode = Var | Exists | Pure(name: string)

  /** The two operators that the crate registers itself. */
  datatype CustomOperator = FractionalOperator | SemVerOperator

  /** A piece of a variable path. */
  datatype Segment = Field(name: string) | FieldOrIndex(name: string, index: nat) | Index(index: nat) {
    function Name(): string { if Index? then Decimal(index) else name }
  }

  datatype Member = Member(name: string, value: Node)

  datatype Node =
    | Value(value: Json)
    | Array(nodes: seq<Node>)
    | Builtin(opcode: OpCode, args: seq<Node>)
    | Custom(operator: CustomOperator, args: seq<Node>)
    | Structured(fields: seq<Member>)
    | CompiledVar(segments: seq<Segment>, default: Option<Node>)
    | CompiledExists(segments: seq<Segment>)
    | SplitRegex(args: seq<Node>)
    | Throw(error: Json)
    | Unknown(tag: nat)

  /** The reasons that the operators give for refusing their arguments. */
  datatype ArgumentError =
    | NoBucketDefinition | BucketNotArray | BucketsNotArray
    | TooFewOperands | OperatorNotString | VarNotString | NotResolvable | BadPath

  datatype EvalError =
    | InvalidArguments(reason: ArgumentError)
    | VariableNotFound(path: string)
    | WrongType(path: string)
    | BadBuckets(error: Fractional.BucketError)
    | Thrown(payload: Json)
    | OtherError(text: string)

  type Outcome = Result<Json, EvalError>

  /** What the rule library and the hash function compute. A built-in operator sees the context
      only through its evaluated arguments; an unknown node may read all of it. */
  datatype Library = Library(
    operator: (string, seq<Outcome>) -> Outcome,
    split: seq<Outcome> -> Outcome,
    unknown: (nat, Json) -> Outcome,
    murmur: string -> U32)

  // ---------------------------------------------------------------------------
  // Variables.
  // ---------------------------------------------------------------------------

  function Step(v: Json, part: string): Option<Json> {
    match v
    case Obj(members) => v.Get(part)
    case Arr(items) =>
      var i := ParseU64(part);
      if i.Some? && i.value < |items| then Some(items[i.value]) else None
    case _ => None
  }

  function Navigate(v: Json, parts: seq<string>): Option<Json> {
    if parts == [] then Some(v)
    else
      match Step(v, parts[0])
      case None => None
      case Some(next) => Navigate(next, parts[1..])
  }

  function LookupPath(root: Json, path: string): Option<Json> {
    if path == "" then Some(root) else Navigate(root, Split(path, '.'))
  }

  function StepSegment(v: Json, s: Segment): Option<Json> {
    match v
    case Obj(_) => v.Get(s.Name())
    case Arr(items) =>
      if !s.Field? && s.index < |items| then Some(items[s.index]) else None
    case _ => None
  }

  function NavigateSegments(v: Json, segments: seq<Segment>): Option<Json> {
    if segments == [] then Some(v)
    else
      match StepSegment(v, segments[0])
      case None => None
      case Some(next) => NavigateSegments(next, segments[1..])
  }

  /** The path that the evaluated first argument of `var` denotes. */
  function PathOf(v: Json): Option<string> {
    match v
    case Str(s) => Some(s)
    case Null => Some("")
    case Num(n) => Some(n.ToText())
    case Arr(items) => if items == [] then Some("") else PathOf(items[0])
    case _ => None
  }

  // ---------------------------------------------------------------------------
  // Evaluation.
  // ---------------------------------------------------------------------------

  function Eval(n: Node, root: Json, lib: Library): Outcome
    decreases n, 1
  {
    match n
    case Value(v) => Ok(v)
    case Array(nodes) =>
      (match Collect(EvalAll(nodes, root, lib))
       case Ok(items) => Ok(Arr(items))
       case Err(e) => Err(e))
    case Builtin(Pure(name), args) => lib.operator(name, EvalAll(args, root, lib))
    case Builtin(opcode, args) => EvalVariable(opcode.Exists?, EvalAll(args, root, lib), root)
    case Custom(FractionalOperator, args) => EvalFractional(EvalAll(args, root, lib), root, lib.murmur)
    case Custom(SemVerOperator, args) => EvalSemVer(RawAll(args), root)
    case Structured(fields) =>
      var outs := seq(|fields|, i requires 0 <= i < |fields| => Eval(fields[i].value, root, lib));
      (match Collect(outs)
       case Ok(items) => Ok(Obj(map i | 0 <= i < |fields| ::
           fields[i].name := items[LastNamed(fields, fields[i].name)]))
       case Err(e) => Err(e))
    case CompiledVar(segments, default) =>
      (match NavigateSegments(root, segments)
       case Some(v) => Ok(v)
       case None => if default.Some? then Eval(default.value, root, lib) else Ok(Null))
    case CompiledExists(segments) => Ok(Bool(NavigateSegments(root, segments).Some?))
    case SplitRegex(args) => lib.split(EvalAll(args, root, lib))
    case Throw(error) => Err(Thrown(error))
    case Unknown(tag) => lib.unknown(tag, root)
  }

  function EvalAll(nodes: seq<Node>, root: Json, lib: Library): (outs: seq<Outcome>)
    ensures |outs| == |nodes|
    decreases nodes, 0
  {
    seq(|nodes|, i requires 0 <= i < |nodes| => Eval(nodes[i], root, lib))
  }

  /** All values, or the first error. */
  function Collect(outs: seq<Outcome>): (r: Result<seq<Json>, EvalError>)
    ensures r.Ok? ==> |r.value| == |outs|
  {
    if outs == [] then Ok([])
    else if outs[0].Err? then Err(outs[0].error)
    else
      match Collect(outs[1..])
      case Err(e) => Err(e)
      case Ok(rest) => Ok([outs[0].value] + rest)
  }

  /** A later member of the same name replaces an earlier one. */
  function LastNamed(fields: seq<Member>, name: string): (i: nat)
    requires exists i :: 0 <= i < |fields| && fields[i].name == name
    ensures i < |fields| && fields[i].name == name
    decreases |fields|
  {
    if fields[|fields| - 1].name == name then |fields| - 1 else LastNamed(fields[..|fields| - 1], name)
  }

  /** `var` and `exists` on an evaluated path; a missing variable takes the default, if any. */
  function EvalVariable(exists_: bool, args: seq<Outcome>, root: Json): Outcome {
    if args == [] then Ok(if exists_ then Bool(true) else root)
    else if args[0].Err? then args[0]
    else
      match PathOf(args[0].value)
      case None => Err(InvalidArguments(BadPath))
      case Some(path) =>
        var found := LookupPath(root, path);
        if exists_ then Ok(Bool(found.Some?))
        else if found.Some? then Ok(found.value)
        else if |args| > 1 then args[1]
        else Ok(Null)
  }

  /** The bucketing key: an explicit string, else flag key and targeting key from the context. */
  function BucketKey(first: Json, root: Json): (string, nat) {
    if first.Str? then (first.s, 1)
    else
      var flagd := root.Get("$flagd");
      var flagKey := if flagd.Some? then flagd.value.Get("flagKey") else None;
      (Json.TextOrEmpty(flagKey) + Json.TextOrEmpty(root.Get("targetingKey")), 0)
  }

  /** `[name, weight]` as it is, `[name]` with weight one. */
  function BucketPair(items: seq<Json>): seq<Json> {
    if |items| >= 2 then items[..2] else if |items| == 1 then [items[0], Num(Int(1))] else []
  }

  function FlattenBuckets(args: seq<Outcome>): Result<seq<Json>, EvalError> {
    if args == [] then Ok([])
    else if args[0].Err? then Err(args[0].error)
    else if !args[0].value.Arr? then Err(InvalidArguments(BucketNotArray))
    else
      match FlattenBuckets(args[1..])
      case Err(e) => Err(e)
      case Ok(rest) => Ok(BucketPair(args[0].value.items) + rest)
  }

  function BucketValues(args: seq<Outcome>, start: nat): Result<seq<Json>, EvalError>
    requires start <= |args|
  {
    if start == 1 && |args| == 2 then
      if args[1].Err? then Err(args[1].error)
      else if args[1].value.Arr? then Ok(args[1].value.items)
      else Err(InvalidArguments(BucketsNotArray))
    else FlattenBuckets(args[start..])
  }

  function EvalFractional(args: seq<Outcome>, root: Json, murmur: string -> U32): Outcome {
    if args == [] then Err(InvalidArguments(NoBucketDefinition))
    else if args[0].Err? then args[0]
    else
      var (key, start) := BucketKey(args[0].value, root);
      match BucketValues(args, start)
      case Err(e) => Err(e)
      case Ok(buckets) =>
        match Fractional.FractionalValue(key, buckets, murmur)
        case Err(e) => Err(BadBuckets(e))
        case Ok(name) => Ok(Str(name))
  }

  /** FractionalOperator::evaluate, given what its arguments evaluate to. */
  method EvaluateFractional(args: seq<Outcome>, root: Json, murmur: string -> U32) returns (r: Outcome)
    ensures r == EvalFractional(args, root, murmur)
  {
    if args == [] {
      return Err(InvalidArguments(NoBucketDefinition));
    }
    if args[0].Err? {
      return args[0];
    }
    var (key, start) := BucketKey(args[0].value, root);
    var buckets: seq<Json> := [];
    if start == 1 && |args| == 2 {
      if args[1].Err? {
        return args[1];
      }
      if !args[1].value.Arr? {
        return Err(InvalidArguments(BucketsNotArray));
      }
      buckets := args[1].value.items;
    } else {
      var collected := CollectBuckets(args[start..]);
      if collected.Err? {
        return Err(collected.error);
      }
      buckets := collected.value;
    }
    var name := Fractional.Fractional(key, buckets, murmur);
    match name {
      case Ok(s) => return Ok(Str(s));
      case Err(e) => return Err(BadBuckets(e));
    }
  }

  /** The loop over separate bucket definitions. */
  method CollectBuckets(args: seq<Outcome>) returns (r: Result<seq<Json>, EvalError>)
    ensures r == FlattenBuckets(args)
  {
    var buckets: seq<Json> := [];
    var i := 0;
    PrependNothing(FlattenBuckets(args));
    assert args[0..] == args;
    while i < |args|
      invariant i <= |args|
      invariant FlattenBuckets(args) == Prepend(buckets, FlattenBuckets(args[i..]))
    {
      assert args[i..][1..] == args[i + 1..];
      if args[i].Err? {
        return Err(args[i].error);
      }
      if !args[i].value.Arr? {
        return Err(InvalidArguments(BucketNotArray));
      }
      var def := args[i].value.items;
      PrependMoves(buckets, BucketPair(def), FlattenBuckets(args[i + 1..]));
      OneOrTwo(buckets, BucketPair(def));
      if |def| >= 2 {
        buckets := buckets + [def[0]] + [def[1]];
      } else if |def| == 1 {
        buckets := buckets + [def[0]] + [Num(Int(1))];
      }
      i := i + 1;
    }
    assert buckets + [] == buckets;
    return Ok(buckets);
  }

  lemma OneOrTwo(xs: seq<Json>, ys: seq<Json>)
    ensures ys == [] ==> xs + ys == xs
    ensures |ys| == 2 ==> xs + ys == xs + [ys[0]] + [ys[1]]
  {
  }

  // ---------------------------------------------------------------------------
  // sem_ver receives its arguments as rule source.
  // ---------------------------------------------------------------------------

  function OpName(op: OpCode): string {
    match op
    case Var => "var"
    case Exists => "exists"
    case Pure(name) => name
  }

  /** The rule source of a node, as custom operators receive it. */
  function Raw(n: Node): Json
    decreases n, 1
  {
    match n
    case Value(v) => v
    case Array(nodes) => Arr(RawAll(nodes))
    case Builtin(op, args) => Obj(map[OpName(op) := RawArgs(args)])
    case Custom(FractionalOperator, args) => Obj(map["fractional" := RawArgs(args)])
    case Custom(SemVerOperator, args) => Obj(map["sem_ver" := RawArgs(args)])
    case Structured(fields) =>
      Obj(map i | 0 <= i < |fields| :: fields[i].name := Raw(fields[LastNamed(fields, fields[i].name)].value))
    case CompiledVar(segments, default) =>
      var path := Str(SegmentsToPath(segments));
      Obj(map["var" := if default.Some? then Arr([path, Raw(default.value)]) else path])
    case CompiledExists(segments) => Obj(map["exists" := Str(SegmentsToPath(segments))])
    case SplitRegex(args) => Obj(map["split" := RawArgs(args)])
    case Throw(error) => Obj(map["throw" := error])
    case Unknown(_) => Null
  }

  function RawAll(nodes: seq<Node>): (raws: seq<Json>)
    ensures |raws| == |nodes|
    decreases nodes, 0
  {
    seq(|nodes|, i requires 0 <= i < |nodes| => Raw(nodes[i]))
  }

  /** A single argument stands alone, several in an array. */
  function RawArgs(args: seq<Node>): Json
    decreases args, 1
  {
    if |args| == 1 then Raw(args[0]) else Arr(RawAll(args))
  }

  /** `data.get(part)` down a path: objects only. */
  function Descend(v: Json, parts: seq<string>): Option<Json> {
    if parts == [] then Some(v)
    else
      match v.Get(parts[0])
      case None => None
      case Some(next) => Descend(next, parts[1..])
  }

  function TextOf(v: Json, path: string): Result<string, EvalError> {
    match v
    case Str(s) => Ok(s)
    case Num(n) => Ok(n.ToText())
    case Null => Ok("")
    case _ => Err(WrongType(path))
  }

  function ResolvedString(v: Json, root: Json): Result<string, EvalError> {
    match v
    case Str(s) => Ok(s)
    case Num(n) => Ok(n.ToText())
    case Null => Ok("")
    case Obj(members) =>
      if "var" !in members then Err(InvalidArguments(NotResolvable))
      else if !members["var"].Str? then Err(InvalidArguments(VarNotString))
      else
        var path := members["var"].s;
        (match Descend(root, Split(path, '.'))
         case None => Err(VariableNotFound(path))
         case Some(data) => TextOf(data, path))
    case _ => Err(InvalidArguments(NotResolvable))
  }

  /** resolve_string_from_context of src/operators/common.rs. */
  method ResolveStringFromContext(v: Json, root: Json) returns (r: Result<string, EvalError>)
    ensures r == ResolvedString(v, root)
  {
    match v {
      case Str(s) => return Ok(s);
      case Obj(members) =>
        if "var" !in members {
          return Err(InvalidArguments(NotResolvable));
        }
        if !members["var"].Str? {
          return Err(InvalidArguments(VarNotString));
        }
        var path := members["var"].s;
        var parts := Split(path, '.');
        var current := root;
        var i := 0;
        assert parts[0..] == parts;
        while i < |parts|
          invariant i <= |parts|
          invariant Descend(root, parts) == Descend(current, parts[i..])
        {
          assert parts[i..][1..] == parts[i + 1..];
          var next := current.Get(parts[i]);
          if next.None? {
            return Err(VariableNotFound(path));
          }
          current := next.value;
          i := i + 1;
        }
        match current {
          case Str(s) => return Ok(s);
          case Num(n) => return Ok(n.ToText());
          case Null => return Ok("");
          case _ => return Err(WrongType(path));
        }
      case Num(n) => return Ok(n.ToText());
      case Null => return Ok("");
      case _ => return Err(InvalidArguments(NotResolvable));
    }
  }

  function EvalSemVer(args: seq<Json>, root: Json): Outcome {
    if |args| < 3 then Err(InvalidArguments(TooFewOperands))
    else
      match ResolvedString(args[0], root)
      case Err(e) => Err(e)
      case Ok(version) =>
        if !args[1].Str? then Err(InvalidArguments(OperatorNotString))
        else
          match ResolvedString(args[2], root)
          case Err(e) => Err(e)
          case Ok(target) =>
            match SemVer.SemVer(version, args[1].s, target)
            case Ok(b) => Ok(Bool(b))
            case Err(_) => Ok(Bool(false))
  }

  // ---------------------------------------------------------------------------
  // Key extraction.
  // ---------------------------------------------------------------------------

  function SegmentNames(segments: seq<Segment>): (names: seq<string>)
    ensures |names| == |segments|
  {
    seq(|segments|, i requires 0 <= i < |segments| => segments[i].Name())
  }

  function SegmentsToPath(segments: seq<Segment>): string { Join(SegmentNames(segments), '.') }

  /** extract_var_path: the path that is visible without evaluating anything. */
  function ExtractVarPath(n: Node): Option<string> {
    match n
    case Value(Str(s)) => Some(s)
    case Value(Null) => Some("")
    case Array(nodes) => if nodes == [] then Some("") else ExtractVarPath(nodes[0])
    case _ => None
  }

  predicate ReadsVariables(op: OpCode) { op.Var? || op.Exists? }

  /** Some variable of the rule is the whole context. */
  predicate ReadsAll(n: Node)
    decreases n, 1
  {
    match n
    case Value(_) => false
    case Array(nodes) => AnyReadsAll(nodes)
    case Builtin(op, args) =>
      || (ReadsVariables(op) && args != [] && ExtractVarPath(args[0]) == Some(""))
      || AnyReadsAll(args)
    case Custom(_, args) => AnyReadsAll(args)
    case Structured(fields) => AnyFieldReadsAll(fields)
    case CompiledVar(segments, default) => SegmentsToPath(segments) == "" || (default.Some? && ReadsAll(default.value))
    case CompiledExists(segments) => SegmentsToPath(segments) == ""
    case SplitRegex(args) => AnyReadsAll(args)
    case Throw(_) => false
    case Unknown(_) => true
  }

  predicate AnyReadsAll(nodes: seq<Node>)
    decreases nodes, 0
  {
    exists i :: 0 <= i < |nodes| && ReadsAll(nodes[i])
  }

  predicate AnyFieldReadsAll(fields: seq<Member>)
    decreases fields, 0
  {
    exists i :: 0 <= i < |fields| && ReadsAll(fields[i].value)
  }

  /** Keys that enrichment puts into the context itself. */
  predicate IsReserved(key: string) { IsPrefixOf("$flagd", key) }

  /** The top-level key of a path, unless enrichment supplies it. */
  function TopKey(path: string): set<string> {
    var key := Split(path, '.')[0];
    if IsReserved(key) then {} else {key}
  }

  /** The top-level keys of the statically visible variables of the rule. */
  function ReadKeys(n: Node): set<string>
    decreases n, 1
  {
    match n
    case Value(_) => {}
    case Array(nodes) => AllReadKeys(nodes)
    case Builtin(op, args) =>
      AllReadKeys(args)
      + if ReadsVariables(op) && args != []
          && ExtractVarPath(args[0]).Some? then TopKey(ExtractVarPath(args[0]).value) else {}
    case Custom(_, args) => AllReadKeys(args)
    case Structured(fields) => FieldsReadKeys(fields)
    case CompiledVar(segments, default) =>
      TopKey(SegmentsToPath(segments)) + if default.Some? then ReadKeys(default.value) else {}
    case CompiledExists(segments) => TopKey(SegmentsToPath(segments))
    case SplitRegex(args) => AllReadKeys(args)
    case Throw(_) => {}
    case Unknown(_) => {}
  }

  function AllReadKeys(nodes: seq<Node>): set<string>
    decreases nodes, 0
  {
    set i, k | 0 <= i < |nodes| && k in ReadKeys(nodes[i]) :: k
  }

  function FieldsReadKeys(fields: seq<Member>): set<string>
    decreases fields, 0
  {
    set i, k | 0 <= i < |fields| && k in ReadKeys(fields[i].value) :: k
  }

  lemma AllReadKeysPrefix(nodes: seq<Node>, i: nat)
    requires i < |nodes|
    ensures AllReadKeys(nodes[..i + 1]) == AllReadKeys(nodes[..i]) + ReadKeys(nodes[i])
  {
    var a, b := nodes[..i], nodes[..i + 1];
    assert forall j :: 0 <= j < i ==> a[j] == b[j];
    assert b[i] == nodes[i];
  }

  lemma FieldsReadKeysPrefix(fields: seq<Member>, i: nat)
    requires i < |fields|
    ensures FieldsReadKeys(fields[..i + 1]) == FieldsReadKeys(fields[..i]) + ReadKeys(fields[i].value)
  {
    var a, b := fields[..i], fields[..i + 1];
    assert forall j :: 0 <= j < i ==> a[j] == b[j];
    assert b[i] == fields[i];
  }

  function RequiredKeys(n: Node): Option<set<string>> {
    if ReadsAll(n) then None else Some({"targetingKey"} + ReadKeys(n))
  }

  /** walk_node_for_vars: a traversal that adds to a shared set and gives up at the first node that
      needs the whole context. */
  class KeyCollector {
    var keys: set<string>

    constructor ()
      ensures keys == {"targetingKey"}
    {
      keys := {"targetingKey"};
    }

    method AddPath(path: string) returns (ok: bool)
      modifies this
      ensures ok <==> path != ""
      ensures keys == old(keys) + if ok then TopKey(path) else {}
    {
      if path == "" {
        return false;
      }
      var first := Split(path, '.')[0];
      if !IsPrefixOf("$flagd", first) {
        keys := keys + {first};
      }
      return true;
    }

    method Walk(n: Node) returns (ok: bool)
      modifies this
      ensures ok <==> !ReadsAll(n)
      ensures ok ==> keys == old(keys) + ReadKeys(n)
      decreases n, 1
    {
      match n {
        case Value(_) => return true;
        case Array(nodes) => ok := WalkAll(nodes);
        case Builtin(op, args) =>
          if (op == Var || op == Exists) && args != [] {
            var path := ExtractVarPath(args[0]);
            if path.Some? {
              ok := AddPath(path.value);
              if !ok {
                return;
              }
            }
          }
          ok := WalkAll(args);
        case Custom(_, args) => ok := WalkAll(args);
        case Structured(fields) => ok := WalkFields(fields);
        case CompiledVar(segments, default) =>
          ok := AddPath(SegmentsToPath(segments));
          if ok && default.Some? {
            ok := Walk(default.value);
          }
        case CompiledExists(segments) => ok := AddPath(SegmentsToPath(segments));
        case SplitRegex(args) => ok := WalkAll(args);
        case Throw(_) => return true;
        case Unknown(_) => return false;
      }
    }

    method WalkAll(nodes: seq<Node>) returns (ok: bool)
      modifies this
      ensures ok <==> !AnyReadsAll(nodes)
      ensures ok ==> keys == old(keys) + AllReadKeys(nodes)
      decreases nodes, 0
    {
      var i := 0;
      while i < |nodes|
        invariant i <= |nodes|
        invariant forall j :: 0 <= j < i ==> !ReadsAll(nodes[j])
        invariant keys == old(keys) + AllReadKeys(nodes[..i])
      {
        ok := Walk(nodes[i]);
        if !ok {
          return;
        }
        AllReadKeysPrefix(nodes, i);
        i := i + 1;
      }
      assert nodes[..i] == nodes;
      return true;
    }

    method WalkFields(fields: seq<Member>) returns (ok: bool)
      modifies this
      ensures ok <==> !AnyFieldReadsAll(fields)
      ensures ok ==> keys == old(keys) + FieldsReadKeys(fields)
      decreases fields, 0
    {
      var i := 0;
      while i < |fields|
        invariant i <= |fields|
        invariant forall j :: 0 <= j < i ==> !ReadsAll(fields[j].value)
        invariant keys == old(keys) + FieldsReadKeys(fields[..i])
      {
        ok := Walk(fields[i].value);
        if !ok {
          return;
        }
        FieldsReadKeysPrefix(fields, i);
        i := i + 1;
      }
      assert fields[..i] == fields;
      return true;
    }
  }

  method ExtractRequiredContextKeys(n: Node) returns (r: Option<set<string>>)
    ensures r == RequiredKeys(n)
  {
    var collector := new KeyCollector();
    var ok := collector.Walk(n);
    return if ok then Some(collector.keys) else None;
  }

  // ---------------------------------------------------------------------------
  // Non-interference.
  // ---------------------------------------------------------------------------

  /** The rule shows its variables to the extraction: every var and exists has a path that can be
      read off, no first path segment holds a dot, and no sem_ver operand is a literal object that
      merely looks like a variable. */
  ghost predicate Static(n: Node)
    decreases n
  {
    match n
    case Value(_) => true
    case Array(nodes) => forall i :: 0 <= i < |nodes| ==> Static(nodes[i])
    case Builtin(op, args) =>
      && (ReadsVariables(op) ==> args != [] && ExtractVarPath(args[0]).Some?)
      && forall i :: 0 <= i < |args| ==> Static(args[i])
    case Custom(op, args) =>
      && (op.SemVerOperator? && |args| >= 3 ==> HonestOperand(args[0]) && HonestOperand(args[2]))
      && forall i :: 0 <= i < |args| ==> Static(args[i])
    case Structured(fields) => forall i :: 0 <= i < |fields| ==> Static(fields[i].value)
    case CompiledVar(segments, default) => StaticSegments(segments) && (default.Some? ==> Static(default.value))
    case CompiledExists(segments) => StaticSegments(segments)
    case SplitRegex(args) => forall i :: 0 <= i < |args| ==> Static(args[i])
    case Throw(_) => true
    case Unknown(_) => true
  }

  predicate StaticSegments(segments: seq<Segment>) { segments != [] ==> '.' !in segments[0].Name() }

  predicate HonestOperand(n: Node) {
    Raw(n).Obj? && "var" in Raw(n).members ==> n.CompiledVar? || (n.Builtin? && n.opcode.Var?)
  }

  /** A path begins with such a key: it holds no dot. */
  predicate IsSegment(k: string) { '.' !in k }

  /** The two contexts give the same answer for every key of K and every reserved key, as far as a
      path can begin with it. */
  predicate Agree(a: map<string, Json>, b: map<string, Json>, keys: set<string>) {
    && (forall k :: k in keys && IsSegment(k) ==> Obj(a).Get(k) == Obj(b).Get(k))
    && (forall k :: k in a.Keys + b.Keys && IsSegment(k) && IsReserved(k) ==> Obj(a).Get(k) == Obj(b).Get(k))
  }

  lemma AgreeOn(a: map<string, Json>, b: map<string, Json>, keys: set<string>, path: string)
    requires Agree(a, b, keys) && TopKey(path) <= keys
    ensures Obj(a).Get(Split(path, '.')[0]) == Obj(b).Get(Split(path, '.')[0])
  {
    var k := Split(path, '.')[0];
    SplitPartsHaveNone(path, '.');
    if !IsReserved(k) {
      assert k in TopKey(path);
    }
  }

  lemma SegmentsAgree(a: map<string, Json>, b: map<string, Json>, keys: set<string>, segments: seq<Segment>)
    requires Agree(a, b, keys) && TopKey(SegmentsToPath(segments)) <= keys
    requires StaticSegments(segments) && SegmentsToPath(segments) != ""
    ensures NavigateSegments(Obj(a), segments) == NavigateSegments(Obj(b), segments)
  {
    SplitJoinFirst(SegmentNames(segments), '.');
    AgreeOn(a, b, keys, SegmentsToPath(segments));
  }

  lemma {:induction false} StaticPathIsRead(n: Node, root: Json, lib: Library)
    requires ExtractVarPath(n).Some? && Eval(n, root, lib).Ok?
    ensures PathOf(Eval(n, root, lib).value) == ExtractVarPath(n)
  {
    match n
    case Value(_) =>
    case Array(nodes) =>
      var outs := EvalAll(nodes, root, lib);
      if nodes != [] {
        assert outs[0] == Eval(nodes[0], root, lib);
        StaticPathIsRead(nodes[0], root, lib);
      }
  }

  lemma VariableAgrees(
    op: OpCode, args: seq<Node>, outs: seq<Outcome>, a: map<string, Json>, b: map<string, Json>, lib: Library,
    keys: set<string>)
    requires ReadsVariables(op) && args != [] && ExtractVarPath(args[0]).Some? && ExtractVarPath(args[0]) != Some("")
    requires outs == EvalAll(args, Obj(a), lib)
    requires TopKey(ExtractVarPath(args[0]).value) <= keys && Agree(a, b, keys)
    ensures EvalVariable(op.Exists?, outs, Obj(a)) == EvalVariable(op.Exists?, outs, Obj(b))
  {
    assert outs[0] == Eval(args[0], Obj(a), lib);
    if outs[0].Ok? {
      StaticPathIsRead(args[0], Obj(a), lib);
      AgreeOn(a, b, keys, ExtractVarPath(args[0]).value);
    }
  }

  lemma OperandIsRead(n: Node, path: string)
    requires HonestOperand(n) && Raw(n).Obj? && "var" in Raw(n).members && Raw(n).members["var"] == Str(path)
    ensures TopKey(path) <= ReadKeys(n)
  {
    if n.Builtin? {
      assert |n.args| == 1 && Raw(n.args[0]) == Str(path);
      assert n.args[0] == Value(Str(path));
    } else {
      assert n.default.None?;
    }
  }

  /** What sem_ver reads of the root context is a key that the extraction reports. */
  lemma OperandAgrees(n: Node, a: map<string, Json>, b: map<string, Json>, keys: set<string>)
    requires HonestOperand(n) && !ReadsAll(n) && ReadKeys(n) <= keys && Agree(a, b, keys)
    ensures ResolvedString(Raw(n), Obj(a)) == ResolvedString(Raw(n), Obj(b))
  {
    var raw := Raw(n);
    if raw.Obj? && "var" in raw.members && raw.members["var"].Str? {
      var path := raw.members["var"].s;
      OperandIsRead(n, path);
      AgreeOn(a, b, keys, path);
    }
  }

  lemma FractionalAgrees(
    outs: seq<Outcome>, a: map<string, Json>, b: map<string, Json>, keys: set<string>, murmur: string -> U32)
    requires Agree(a, b, keys) && "targetingKey" in keys
    ensures EvalFractional(outs, Obj(a), murmur) == EvalFractional(outs, Obj(b), murmur)
  {
    assert IsReserved("$flagd");
    assert Obj(a).Get("$flagd") == Obj(b).Get("$flagd");
  }

  lemma AllReadKeysOf(nodes: seq<Node>, i: nat)
    requires i < |nodes|
    ensures ReadKeys(nodes[i]) <= AllReadKeys(nodes)
    ensures ReadsAll(nodes[i]) ==> AnyReadsAll(nodes)
  {
  }

  lemma {:induction false} EvalAllAgrees(
    nodes: seq<Node>, a: map<string, Json>, b: map<string, Json>, lib: Library, keys: set<string>)
    requires (forall i :: 0 <= i < |nodes| ==> Static(nodes[i])) && !AnyReadsAll(nodes) && AllReadKeys(nodes) <= keys
    requires Agree(a, b, keys) && "targetingKey" in keys
    ensures EvalAll(nodes, Obj(a), lib) == EvalAll(nodes, Obj(b), lib)
    decreases nodes, 0
  {
    forall i | 0 <= i < |nodes|
      ensures Eval(nodes[i], Obj(a), lib) == Eval(nodes[i], Obj(b), lib)
    {
      AllReadKeysOf(nodes, i);
      EvalAgrees(nodes[i], a, b, lib, keys);
    }
  }

  /** Non-interference: a static rule that does not read the whole context gives the same result on
      any two contexts that agree on its extracted keys and on the reserved ones. */
  lemma {:induction false} EvalAgrees(
    n: Node, a: map<string, Json>, b: map<string, Json>, lib: Library, keys: set<string>)
    requires Static(n) && !ReadsAll(n) && ReadKeys(n) <= keys
    requires Agree(a, b, keys) && "targetingKey" in keys
    ensures Eval(n, Obj(a), lib) == Eval(n, Obj(b), lib)
    decreases n, 1
  {
    match n
    case Value(_) =>
    case Array(nodes) => EvalAllAgrees(nodes, a, b, lib, keys);
    case Builtin(op, args) =>
      EvalAllAgrees(args, a, b, lib, keys);
      if ReadsVariables(op) {
        VariableAgrees(op, args, EvalAll(args, Obj(a), lib), a, b, lib, keys);
      }
    case Custom(FractionalOperator, args) =>
      EvalAllAgrees(args, a, b, lib, keys);
      FractionalAgrees(EvalAll(args, Obj(a), lib), a, b, keys, lib.murmur);
    case Custom(SemVerOperator, args) =>
      if |args| >= 3 {
        AllReadKeysOf(args, 0);
        AllReadKeysOf(args, 2);
        OperandAgrees(args[0], a, b, keys);
        OperandAgrees(args[2], a, b, keys);
      }
    case Structured(fields) =>
      forall i | 0 <= i < |fields|
        ensures Eval(fields[i].value, Obj(a), lib) == Eval(fields[i].value, Obj(b), lib)
      {
        assert forall k :: k in ReadKeys(fields[i].value) ==> k in ReadKeys(n);
        EvalAgrees(fields[i].value, a, b, lib, keys);
      }
      assert seq(|fields|, i requires 0 <= i < |fields| => Eval(fields[i].value, Obj(a), lib))
          == seq(|fields|, i requires 0 <= i < |fields| => Eval(fields[i].value, Obj(b), lib));
    case CompiledVar(segments, default) =>
      SegmentsAgree(a, b, keys, segments);
      if default.Some? {
        EvalAgrees(default.value, a, b, lib, keys);
      }
    case CompiledExists(segments) => SegmentsAgree(a, b, keys, segments);
    case SplitRegex(args) => EvalAllAgrees(args, a, b, lib, keys);
    case Throw(_) =>
    case Unknown(_) =>
  }

  /** Filtering soundness, in the terms of the extraction's answer. */
  lemma RequiredKeysSuffice(n: Node, keys: set<string>, a: map<string, Json>, b: map<string, Json>, lib: Library)
    requires Static(n) && RequiredKeys(n) == Some(keys) && Agree(a, b, keys)
    ensures Eval(n, Obj(a), lib) == Eval(n, Obj(b), lib)
  {
    EvalAgrees(n, a, b, lib, keys);
  }

  // ---------------------------------------------------------------------------
  // Rules of one variable: when the extracted keys suffice, and when not.
  // ---------------------------------------------------------------------------

  /** Filtering by `keys` cannot change the result of the rule. */
  ghost predicate KeysSuffice(n: Node, keys: set<string>, lib: Library) {
    forall a: map<string, Json>, b: map<string, Json> ::
      Agree(a, b, keys) ==> Eval(n, Obj(a), lib) == Eval(n, Obj(b), lib)
  }

  /** Whatever the context, the argument denotes the path `path`. */
  ghost predicate Denotes(arg: Node, path: string, lib: Library) {
    forall root: map<string, Json> ::
      var r := Eval(arg, Obj(root), lib);
      r.Ok? && PathOf(r.value) == Some(path)
  }

  /** The keys cover what the variable reads: its top-level key, or for the empty path the whole
      context, of which `exists` only says that it is there. */
  predicate Covered(op: OpCode, path: string, keys: set<string>) {
    if path == "" then op.Exists? else TopKey(path) <= keys
  }

  lemma VariableValue(op: OpCode, arg: Node, path: string, root: map<string, Json>, lib: Library)
    requires ReadsVariables(op) && Denotes(arg, path, lib)
    ensures Eval(Builtin(op, [arg]), Obj(root), lib)
         == Ok(if op.Exists? then Bool(LookupPath(Obj(root), path).Some?) else LookupPath(Obj(root), path).GetOr(Null))
  {
    hide LookupPath;
    assert EvalAll([arg], Obj(root), lib) == [Eval(arg, Obj(root), lib)];
  }

  /** Objects nested along the parts, and `true` at their end. */
  function Nested(parts: seq<string>): Json {
    if parts == [] then Bool(true) else Obj(map[parts[0] := Nested(parts[1..])])
  }

  lemma {:induction false} NestedIsReached(parts: seq<string>)
    ensures Navigate(Nested(parts), parts) == Some(Bool(true))
  {
    if parts != [] {
      NestedIsReached(parts[1..]);
    }
  }

  lemma {:induction false} Longer(keys: set<string>) returns (bound: nat)
    ensures forall k :: k in keys ==> |k| <= bound
  {
    bound := 0;
    if keys != {} {
      var k :| k in keys;
      bound := Longer(keys - {k});
      bound := bound + |k|;
    }
  }

  /** A key that is neither reserved nor among `keys`. */
  lemma FreshKey(keys: set<string>) returns (k: string)
    ensures k !in keys && !IsReserved(k)
  {
    var bound := Longer(keys);
    k := seq(bound + 1, _ => 'x');
    assert k[0] != "$flagd"[0];
  }

  /** Two contexts that agree on the keys, and on which an uncovered variable differs. */
  lemma UncoveredDiffers(op: OpCode, path: string, keys: set<string>) returns (a: map<string, Json>)
    requires ReadsVariables(op) && !Covered(op, path, keys)
    ensures Agree(a, map[], keys)
    ensures LookupPath(Obj(a), path).GetOr(Null) != LookupPath(Obj(map[]), path).GetOr(Null)
    ensures path != "" ==> LookupPath(Obj(a), path).Some? && LookupPath(Obj(map[]), path).None?
  {
    if path == "" {
      var k := FreshKey(keys);
      a := map[k := Null];
      assert k in a;
    } else {
      var parts := Split(path, '.');
      a := map[parts[0] := Nested(parts[1..])];
      NestedIsReached(parts);
    }
  }

  /** For a rule of one variable, filtering by `keys` is right under all contexts exactly when the
      keys cover the path. */
  lemma KeysSufficeIffCovered(op: OpCode, arg: Node, path: string, keys: set<string>, lib: Library)
    requires ReadsVariables(op) && Denotes(arg, path, lib)
    ensures KeysSuffice(Builtin(op, [arg]), keys, lib) <==> Covered(op, path, keys)
  {
    hide Eval, Agree, LookupPath, TopKey, Denotes;
    if Covered(op, path, keys) {
      forall a: map<string, Json>, b: map<string, Json> | Agree(a, b, keys)
        ensures Eval(Builtin(op, [arg]), Obj(a), lib) == Eval(Builtin(op, [arg]), Obj(b), lib)
      {
        VariableValue(op, arg, path, a, lib);
        VariableValue(op, arg, path, b, lib);
        CoveredAgrees(op, path, keys, a, b);
      }
    } else {
      var a := UncoveredDiffers(op, path, keys);
      VariableValue(op, arg, path, a, lib);
      VariableValue(op, arg, path, map[], lib);
    }
  }

  lemma CoveredAgrees(op: OpCode, path: string, keys: set<string>, a: map<string, Json>, b: map<string, Json>)
    requires Covered(op, path, keys) && Agree(a, b, keys)
    ensures LookupPath(Obj(a), path).Some? <==> LookupPath(Obj(b), path).Some?
    ensures path != "" ==> LookupPath(Obj(a), path) == LookupPath(Obj(b), path)
  {
    if path != "" {
      AgreeOn(a, b, keys, path);
    }
  }

  /** The extraction's answer for such a rule: a visible path contributes its key, any other path
      nothing but what its computation reads. */
  lemma OneVariableKeys(op: OpCode, arg: Node)
    requires ReadsVariables(op)
    ensures var visible := ExtractVarPath(arg);
            RequiredKeys(Builtin(op, [arg]))
            == if visible == Some("") || ReadsAll(arg) then None
               else Some({"targetingKey"} + ReadKeys(arg) + if visible.Some? then TopKey(visible.value) else {})
  {
    hide ExtractVarPath, TopKey;
    var n, visible := Builtin(op, [arg]), ExtractVarPath(arg);
    assert AllReadKeys([arg]) == ReadKeys(arg) by {
      AllReadKeysPrefix([arg], 0);
      assert [arg][..1] == [arg] && [arg][..0] == [] && AllReadKeys([]) == {};
    }
    assert AnyReadsAll([arg]) <==> ReadsAll(arg) by {
      assert [arg][0] == arg;
    }
    var own := if visible.Some? then TopKey(visible.value) else {};
    assert {"targetingKey"} + (ReadKeys(arg) + own) == {"targetingKey"} + ReadKeys(arg) + own;
  }

  /** A path that cannot be read off is skipped, not widened to the whole context
      (src/evaluator.rs:923-935): what hosts then filter by is right exactly when the path's own key is
      the targeting key, or read anyway while the path is computed. */
  lemma SkippedPathSufficesIff(op: OpCode, arg: Node, path: string, lib: Library)
    requires ReadsVariables(op) && Denotes(arg, path, lib) && ExtractVarPath(arg).None? && !ReadsAll(arg)
    ensures var keys := {"targetingKey"} + ReadKeys(arg);
            && RequiredKeys(Builtin(op, [arg])) == Some(keys)
            && (KeysSuffice(Builtin(op, [arg]), keys, lib) <==> Covered(op, path, keys))
  {
    hide KeysSuffice, Covered, Denotes, ReadKeys, ReadsAll, RequiredKeys, ExtractVarPath;
    OneVariableKeys(op, arg);
    assert {"targetingKey"} + ReadKeys(arg) + {} == {"targetingKey"} + ReadKeys(arg);
    KeysSufficeIffCovered(op, arg, path, {"targetingKey"} + ReadKeys(arg), lib);
  }

  /** A literal path that is neither a string nor null: a number, or an array. */
  lemma LiteralPathSufficesIff(op: OpCode, v: Json, path: string, lib: Library)
    requires ReadsVariables(op) && !v.Str? && !v.Null? && PathOf(v) == Some(path)
    ensures RequiredKeys(Builtin(op, [Value(v)])) == Some({"targetingKey"})
    ensures KeysSuffice(Builtin(op, [Value(v)]), {"targetingKey"}, lib) <==> Covered(op, path, {"targetingKey"})
  {
    hide KeysSuffice, Covered, RequiredKeys;
    var arg := Value(v);
    assert {"targetingKey"} + ReadKeys(arg) == {"targetingKey"};
    SkippedPathSufficesIff(op, arg, path, lib);
  }

  /** So filtering always loses what an integer path reads. */
  lemma IntegerPathIsMissed(op: OpCode, n: int, lib: Library)
    requires ReadsVariables(op)
    ensures !KeysSuffice(Builtin(op, [Value(Num(Int(n)))]), {"targetingKey"}, lib)
  {
    hide KeysSuffice;
    LiteralPathSufficesIff(op, Num(Int(n)), Decimal(n), lib);
    DecimalIsDigits(n);
    assert '.' !in Decimal(n) && Decimal(n)[0] in Decimal(n);
    SplitNothing(Decimal(n), '.');
    assert Decimal(n)[0] != "$flagd"[0] && Decimal(n)[0] != "targetingKey"[0];
    assert Decimal(n) in TopKey(Decimal(n));
  }

  lemma {:induction false} DecimalIsDigits(n: int)
    ensures Decimal(n) != "" && forall c :: c in Decimal(n) ==> IsDigit(c) || c == '-'
    decreases if n < 0 then 1 - n else n
  {
    if n < 0 {
      DecimalIsDigits(-n);
    } else if n >= 10 {
      DecimalIsDigits(n / 10);
    }
  }

  /** `{"var": {"cat": ["tier"]}}`. */
  function ComputedPath(): Node { Builtin(Var, [ComputedName()]) }

  function ComputedName(): Node { Builtin(Pure("cat"), [Value(Str("tier"))]) }

  lemma ComputedPathKeys()
    ensures RequiredKeys(ComputedPath()) == Some({"targetingKey"})
  {
    var leaf, inner, rule := Value(Str("tier")), ComputedName(), ComputedPath();
    assert !ReadsAll(leaf) && ReadKeys(leaf) == {};
    assert AllReadKeys([leaf]) == {} && ReadKeys(inner) == {} && !ReadsAll(inner);
    assert AllReadKeys([inner]) == {} && ReadKeys(rule) == {} && !ReadsAll(rule);
    assert {"targetingKey"} + {} == {"targetingKey"};
  }

  lemma ComputedPathValue(root: Json, lib: Library)
    requires lib.operator("cat", [Ok(Str("tier"))]) == Ok(Str("tier"))
    ensures Eval(ComputedPath(), root, lib) == EvalVariable(false, [Ok(Str("tier"))], root)
  {
    assert EvalAll([Value(Str("tier"))], root, lib) == [Ok(Str("tier"))];
    assert EvalAll([ComputedName()], root, lib) == [Ok(Str("tier"))];
  }

  /** Without a visible path the extraction reports too little: a path computed by an operator is
      skipped, not widened to the whole context (src/evaluator.rs:923-935). */
  lemma ComputedPathIsMissed(lib: Library)
    requires lib.operator("cat", [Ok(Str("tier"))]) == Ok(Str("tier"))
    ensures RequiredKeys(ComputedPath()) == Some({"targetingKey"})
    ensures
      var a: map<string, Json> := map["tier" := Str("premium")];
      && Agree(a, map[], {"targetingKey"})
      && Eval(ComputedPath(), Obj(a), lib) == Ok(Str("premium"))
      && Eval(ComputedPath(), Obj(map[]), lib) == Ok(Null)
    ensures !KeysSuffice(ComputedPath(), {"targetingKey"}, lib)
  {
    hide Eval, RequiredKeys, ComputedPath;
    var a: map<string, Json> := map["tier" := Str("premium")];
    ComputedPathKeys();
    PremiumIsReached(a);
    ComputedPathValue(Obj(a), lib);
    ComputedPathValue(Obj(map[]), lib);
  }

  lemma PremiumIsReached(a: map<string, Json>)
    requires a == map["tier" := Str("premium")]
    ensures LookupPath(Obj(a), "tier") == Some(Str("premium")) && LookupPath(Obj(map[]), "tier") == None
    ensures Agree(a, map[], {"targetingKey"})
  {
    assert Split("tier", '.') == ["tier"];
    assert Navigate(Obj(a), ["tier"]) == Navigate(Str("premium"), ["tier"][1..]);
    assert "tier"[0] != "$flagd"[0];
    assert "tier" != "targetingKey" by {
      assert |"tier"| != |"targetingKey"|;
    }
  }
}
