/** src/limits.rs: the nesting check that runs over the raw bytes before parsing. */
module DepthScan {
  import opened Common
  import opened JsonText

  const MAX_JSON_DEPTH: nat := 128

  /** The loop's variables. `saturated` records that the saturating subtraction cut a negative off. */
  datatype State = Rejected | Scanning(depth: nat, inString: bool, escape: bool, saturated: bool)

  function Outside(depth: nat): State { Scanning(depth, false, false, false) }

  function Inside(depth: nat): State { Scanning(depth, true, false, false) }

  function Step(s: State, c: char): State {
    if s.Rejected? then s
    else if s.escape then s.(escape := false)
    else if s.inString then
      if c == '\\' then s.(escape := true) else if c == '"' then s.(inString := false) else s
    else if c == '"' then s.(inString := true)
    else if c == '{' || c == '[' then
      if s.depth + 1 > MAX_JSON_DEPTH then Rejected else s.(depth := s.depth + 1)
    else if c == '}' || c == ']' then
      if s.depth == 0 then s.(saturated := true) else s.(depth := s.depth - 1)
    else s
  }

  function Scan(s: State, text: string): State
    decreases text
  {
    if text == [] then s else Scan(Step(s, text[0]), text[1..])
  }

  /** The verdict of the scan, as a function of the text. */
  predicate Accepts(text: string) { !Scan(Outside(0), text).Rejected? }

  method CheckJsonDepth(input: string) returns (ok: bool)
    ensures ok == Accepts(input)
  {
    var depth: nat := 0;
    var inString := false;
    var escape := false;
    ghost var saturated := false;
    var i := 0;
    assert input[0..] == input;
    while i < |input|
      invariant i <= |input|
      invariant Scan(Outside(0), input) == Scan(Scanning(depth, inString, escape, saturated), input[i..])
    {
      var byte := input[i];
      assert input[i..][1..] == input[i + 1..];
      i := i + 1;
      if escape {
        escape := false;
        continue;
      }
      if inString {
        match byte {
          case '\\' => escape := true;
          case '"' => inString := false;
          case _ =>
        }
        continue;
      }
      match byte {
        case '"' => inString := true;
        case '{' | '[' =>
          depth := depth + 1;
          if depth > MAX_JSON_DEPTH {
            ScanRejected(input[i..]);
            return false;
          }
        case '}' | ']' =>
          saturated := saturated || depth == 0;
          depth := if depth == 0 then 0 else depth - 1;
        case _ =>
      }
    }
    return true;
  }

  lemma {:induction false} ScanRejected(text: string)
    ensures Scan(Rejected, text) == Rejected
  {
    if text != [] {
      ScanRejected(text[1..]);
    }
  }

  lemma {:induction false} ScanConcat(s: State, a: string, b: string)
    ensures Scan(s, a + b) == Scan(Scan(s, a), b)
    decreases a
  {
    if a == [] {
      assert a + b == b;
    } else {
      assert (a + b)[1..] == a[1..] + b;
      ScanConcat(Step(s, a[0]), a[1..], b);
    }
  }

  /** Text outside strings that the scan passes over. */
  lemma {:induction false} ScanInert(depth: nat, text: string)
    requires forall i :: 0 <= i < |text| ==> Inert(text[i])
    ensures Scan(Outside(depth), text) == Outside(depth)
  {
    if text != [] {
      ScanInert(depth, text[1..]);
    }
  }

  lemma {:induction false} ScanItems(depth: nat, items: seq<Item>)
    requires WfItems(items)
    ensures Scan(Inside(depth), PrintItems(items)) == Inside(depth)
  {
    if items != [] {
      ScanItem(depth, items[0]);
      ScanConcat(Inside(depth), PrintItem(items[0]), PrintItems(items[1..]));
      ScanItems(depth, items[1..]);
    }
  }

  lemma ScanItem(depth: nat, x: Item)
    requires WfItem(x)
    ensures Scan(Inside(depth), PrintItem(x)) == Inside(depth)
  {
    var s := Inside(depth);
    match x
    case Plain(c) =>
      assert Scan(s, [c]) == Scan(Step(s, c), []);
    case Short(c) =>
      assert Scan(s, ['\\', c]) == Scan(Step(s, '\\'), [c]) == Scan(Step(Step(s, '\\'), c), []);
    case Unicode(a, b, c, d) =>
      assert PrintItem(x) == ['\\', 'u'] + [a, b, c, d];
      ScanConcat(s, ['\\', 'u'], [a, b, c, d]);
      assert Scan(s, ['\\', 'u']) == Scan(Step(s, '\\'), ['u']) == Scan(Step(Step(s, '\\'), 'u'), []) == s;
      ScanHex(depth, [a, b, c, d]);
  }

  lemma {:induction false} ScanHex(depth: nat, digits: string)
    requires forall i :: 0 <= i < |digits| ==> IsHex(digits[i])
    ensures Scan(Inside(depth), digits) == Inside(depth)
  {
    if digits != [] {
      ScanHex(depth, digits[1..]);
    }
  }

  /** Just before the k-th character of a string the flags say "in a string, no escape pending";
      after the closing quote they say "outside". */
  lemma FlagsFollowTheString(depth: nat, items: seq<Item>, k: nat)
    requires WfItems(items) && k <= |items|
    ensures Scan(Outside(depth), "\"" + PrintItems(items[..k])) == Inside(depth)
    ensures Scan(Outside(depth), Quoted(items)) == Outside(depth)
  {
    ScanOpenString(depth, items[..k]);
    ScanOpenString(depth, items);
    ScanConcat(Outside(depth), "\"" + PrintItems(items), "\"");
    assert Scan(Inside(depth), "\"") == Scan(Step(Inside(depth), '"'), []);
  }

  lemma ScanOpenString(depth: nat, items: seq<Item>)
    requires WfItems(items)
    ensures Scan(Outside(depth), "\"" + PrintItems(items)) == Inside(depth)
  {
    ScanConcat(Outside(depth), "\"", PrintItems(items));
    assert Scan(Outside(depth), "\"") == Scan(Step(Outside(depth), '"'), []);
    ScanItems(depth, items);
  }

  lemma ScanLead(depth: nat, l: Lead, isObject: bool)
    requires WfLead(l, isObject)
    ensures Scan(Outside(depth), PrintLead(l)) == Outside(depth)
  {
    match l
    case Bare(s) => ScanInert(depth, s);
    case Keyed(s, key, m, n) =>
      ScanInert(depth, s);
      FlagsFollowTheString(depth, key, 0);
      ScanInert(depth, m + ":" + n);
      ScanConcat(Outside(depth), s, Quoted(key));
      ScanConcat(Outside(depth), s + Quoted(key), m + ":" + n);
      assert PrintLead(l) == (s + Quoted(key)) + (m + ":" + n);
  }

  /** The scan of one value, started at depth `depth`: it comes back to that depth, or it
      rejects exactly when the value reaches below the limit. */
  lemma {:induction false} ScanTree(depth: nat, t: Tree)
    requires Wf(t) && depth <= MAX_JSON_DEPTH
    ensures Scan(Outside(depth), Print(t)) == if depth + Depth(t) <= MAX_JSON_DEPTH then Outside(depth) else Rejected
    decreases t
  {
    match t
    case Word(w) => ScanInert(depth, w);
    case Number(s) => ScanInert(depth, s);
    case String(items) => FlagsFollowTheString(depth, items, 0);
    case Container(isObject, pad, entries) =>
      var inside := if entries == [] then pad else PrintEntries(entries);
      if depth < MAX_JSON_DEPTH {
        if entries == [] {
          ScanInert(depth + 1, pad);
        } else {
          ScanEntries(depth + 1, entries, isObject);
        }
      }
      ScanBrackets(depth, isObject, inside, depth + Depth(t) <= MAX_JSON_DEPTH);
  }

  /** A pair of brackets around text that either fits below the limit or does not. */
  lemma ScanBrackets(depth: nat, isObject: bool, inside: string, fits: bool)
    requires depth <= MAX_JSON_DEPTH && (fits ==> depth < MAX_JSON_DEPTH)
    requires depth < MAX_JSON_DEPTH ==>
        Scan(Outside(depth + 1), inside) == if fits then Outside(depth + 1) else Rejected
    ensures Scan(Outside(depth), Open(isObject) + inside + Close(isObject)) == if fits then Outside(depth) else Rejected
  {
    var o, c := Open(isObject), Close(isObject);
    ScanConcat(Outside(depth), o + inside, c);
    ScanConcat(Outside(depth), o, inside);
    assert Scan(Outside(depth), o) == Scan(Step(Outside(depth), o[0]), []);
    ScanRejected(inside);
    ScanRejected(c);
    assert Scan(Outside(depth + 1), c) == Scan(Step(Outside(depth + 1), c[0]), []);
  }

  lemma {:induction false} ScanEntries(depth: nat, es: seq<Entry>, isObject: bool)
    requires WfEntries(es, isObject) && es != [] && depth <= MAX_JSON_DEPTH
    ensures Scan(Outside(depth), PrintEntries(es)) ==
            if depth + EntriesDepth(es) <= MAX_JSON_DEPTH then Outside(depth) else Rejected
    decreases es
  {
    var lead, value, after := PrintLead(es[0].lead), Print(es[0].value), es[0].after;
    ScanLead(depth, es[0].lead, isObject);
    ScanTree(depth, es[0].value);
    ScanConcat(Outside(depth), lead, value);
    ScanConcat(Outside(depth), lead + value, after);
    ScanInert(depth, after);
    ScanRejected(after);
    var first := lead + value + after;
    if |es| == 1 {
      assert es[1..] == [];
    } else {
      ScanConcat(Outside(depth), first + ",", PrintEntries(es[1..]));
      ScanConcat(Outside(depth), first, ",");
      ScanInert(depth, ",");
      ScanRejected(",");
      ScanRejected(PrintEntries(es[1..]));
      ScanEntries(depth, es[1..], isObject);
    }
  }

  /** A JSON text is accepted exactly when its value nests at most 128 deep, and then the scan
      ends outside every string, at depth zero, without ever having saturated. */
  lemma AcceptsByDepth(before: string, t: Tree, after: string)
    requires AllSpace(before) && Wf(t) && AllSpace(after)
    ensures Accepts(before + Print(t) + after) <==> Depth(t) <= MAX_JSON_DEPTH
    ensures Depth(t) <= MAX_JSON_DEPTH ==> Scan(Outside(0), before + Print(t) + after) == Outside(0)
  {
    ScanConcat(Outside(0), before + Print(t), after);
    ScanConcat(Outside(0), before, Print(t));
    ScanInert(0, before);
    ScanTree(0, t);
    ScanInert(0, after);
    ScanRejected(after);
  }
}
