/** Which keys extraction reports, said of the nodes of a rule rather than by its traversal:
    src/evaluator.rs:889-1058. */
module Extraction {
  import opened Common
  import opened Text
  import opened Rules

  function Children(n: Node): (r: seq<Node>)
    ensures forall i :: 0 <= i < |r| ==> r[i] < n
  {
    match n
    case Array(nodes) => nodes
    case Builtin(_, args) => args
    case Custom(_, args) => args
    case Structured(fields) => seq(|fields|, i requires 0 <= i < |fields| => fields[i].value)
    case CompiledVar(_, default) => if default.Some? then [default.value] else []
    case SplitRegex(args) => args
    case _ => []
  }

  /** `m` is a node of the rule `n`. */
  ghost predicate Within(m: Node, n: Node)
    decreases n
  {
    m == n || exists i :: 0 <= i < |Children(n)| && Within(m, Children(n)[i])
  }

  /** The path that the node itself reads, if it can be read off. */
  function ReadPath(m: Node): Option<string> {
    match m
    case Builtin(op, args) => if ReadsVariables(op) && args != [] then ExtractVarPath(args[0]) else None
    case CompiledVar(segments, _) => Some(SegmentsToPath(segments))
    case CompiledExists(segments) => Some(SegmentsToPath(segments))
    case _ => None
  }

  predicate ReadsWhole(m: Node) { m.Unknown? || ReadPath(m) == Some("") }

  predicate ReadsKey(m: Node, k: string) { ReadPath(m).Some? && k in TopKey(ReadPath(m).value) }

  lemma OfChildren(n: Node, k: string)
    ensures ReadsAll(n) <==> ReadsWhole(n) || exists i :: 0 <= i < |Children(n)| && ReadsAll(Children(n)[i])
    ensures k in ReadKeys(n) <==> ReadsKey(n, k) || exists i :: 0 <= i < |Children(n)| && k in ReadKeys(Children(n)[i])
  {
    hide SegmentsToPath, TopKey, ExtractVarPath;
    var children := Children(n);
    assert AnyReadsAll(children) <==> exists i :: 0 <= i < |children| && ReadsAll(children[i]);
    assert k in AllReadKeys(children) <==> exists i :: 0 <= i < |children| && k in ReadKeys(children[i]);
    match n
    case CompiledVar(_, default) => assert default.Some? ==> children[0] == default.value;
    case Structured(fields) =>
      assert forall i :: 0 <= i < |fields| ==> children[i] == fields[i].value;
      assert AnyFieldReadsAll(fields) <==> AnyReadsAll(children);
      assert k in FieldsReadKeys(fields) <==> k in AllReadKeys(children);
    case _ =>
  }

  lemma {:induction false} OfNodes(n: Node, k: string)
    ensures ReadsAll(n) <==> exists m :: Within(m, n) && ReadsWhole(m)
    ensures k in ReadKeys(n) <==> exists m :: Within(m, n) && ReadsKey(m, k)
    decreases n
  {
    hide ReadsAll, ReadKeys, ReadsWhole, ReadsKey, Children;
    OfChildren(n, k);
    forall i | 0 <= i < |Children(n)|
      ensures ReadsAll(Children(n)[i]) <==> exists m :: Within(m, Children(n)[i]) && ReadsWhole(m)
      ensures k in ReadKeys(Children(n)[i]) <==> exists m :: Within(m, Children(n)[i]) && ReadsKey(m, k)
    {
      OfNodes(Children(n)[i], k);
    }
    assert Within(n, n);
  }

  predicate BeginsPath(k: string, m: Node) { ReadPath(m).Some? && k == Split(ReadPath(m).value, '.')[0] }

  /** Extraction gives up exactly if some node may read the whole context; otherwise it reports the
      targeting key and, for each variable whose path can be read off, the path's first part, unless
      that is reserved. */
  lemma ExtractionIsExact(n: Node)
    ensures RequiredKeys(n).None? <==> exists m :: Within(m, n) && (m.Unknown? || ReadPath(m) == Some(""))
    ensures RequiredKeys(n).Some? ==> forall k :: k in RequiredKeys(n).value <==>
      k == "targetingKey" || exists m :: Within(m, n) && BeginsPath(k, m) && !IsPrefixOf("$flagd", k)
  {
    hide ReadsAll, ReadKeys, Within, Split, ReadPath;
    OfNodes(n, "");
    if RequiredKeys(n).Some? {
      forall k
        ensures k in ReadKeys(n) <==> exists m :: Within(m, n) && BeginsPath(k, m) && !IsPrefixOf("$flagd", k)
      {
        OfNodes(n, k);
      }
    }
  }
}
