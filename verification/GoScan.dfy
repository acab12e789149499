/** The index loops of go/parse.go: quotes, white space, nested values. Each loop is a method
    proved equal to a recursive function, and each function is proved to stop exactly at the end
    of any JSON text it starts on. */
module GoScan {
  import opened Common
  import opened JsonText

  /** The text `s` stands in `d` at position `i`. */
  predicate At(d: string, i: nat, s: string) {
    i + |s| <= |d| && d[i..i + |s|] == s
  }

  lemma AtConcat(d: string, i: nat, a: string, b: string)
    ensures At(d, i, a + b) <==> At(d, i, a) && At(d, i + |a|, b)
  {
    if At(d, i, a + b) {
      assert d[i..i + |a|] == d[i..i + |a + b|][..|a|];
      assert d[i + |a|..i + |a| + |b|] == d[i..i + |a + b|][|a|..];
    }
    if At(d, i, a) && At(d, i + |a|, b) {
      assert d[i..i + |a + b|] == d[i..i + |a|] + d[i + |a|..i + |a| + |b|];
    }
  }

  /** Three consecutive pieces. */
  lemma AtThree(d: string, i: nat, a: string, b: string, c: string)
    requires At(d, i, a + b + c)
    ensures At(d, i, a) && At(d, i + |a|, b) && At(d, i + |a| + |b|, c)
    ensures |a + b + c| == |a| + |b| + |c|
  {
    AtConcat(d, i, a + b, c);
    AtConcat(d, i, a, b);
  }

  lemma AtFirst(d: string, i: nat, s: string)
    requires At(d, i, s) && s != []
    ensures i < |d| && d[i] == s[0] && At(d, i + 1, s[1..])
  {
    assert s == s[..1] + s[1..];
    AtConcat(d, i, s[..1], s[1..]);
    assert d[i..i + |s|][0] == d[i];
  }

  // ---------------------------------------------------------------------------
  // Quotes.
  // ---------------------------------------------------------------------------

  /** First `"` from `i` on that no backslash precedes; at or past the end if there is none. */
  function QuoteEnd(d: string, i: nat): (j: nat)
    ensures j >= i
    ensures j < |d| ==> d[j] == '"'
    decreases |d| - i
  {
    if i < |d| && d[i] != '"' then QuoteEnd(d, if d[i] == '\\' then i + 2 else i + 1) else i
  }

  method FindQuote(d: string, start: nat) returns (i: nat)
    ensures i == QuoteEnd(d, start)
  {
    i := start;
    while i < |d| && d[i] != '"'
      invariant QuoteEnd(d, i) == QuoteEnd(d, start)
      decreases |d| - i
    {
      if d[i] == '\\' {
        i := i + 1;
      }
      i := i + 1;
    }
  }

  /** The quote loop stops exactly at the closing quote of a JSON string. */
  lemma {:induction false} QuoteEndOfItems(d: string, i: nat, items: seq<Item>)
    requires WfItems(items) && At(d, i, PrintItems(items) + "\"")
    ensures QuoteEnd(d, i) == i + |PrintItems(items)|
    decreases items
  {
    AtFirst(d, i, PrintItems(items) + "\"");
    if items != [] {
      var x, rest := PrintItem(items[0]), PrintItems(items[1..]);
      assert PrintItems(items) + "\"" == x + (rest + "\"");
      AtConcat(d, i, x, rest + "\"");
      QuoteEndOfItems(d, i + |x|, items[1..]);
      QuoteEndOfItem(d, i, items[0]);
    }
  }

  lemma HexAt(d: string, i: nat, s: string)
    requires At(d, i, s) && |s| == 4
    ensures d[i] == s[0] && d[i + 1] == s[1] && d[i + 2] == s[2] && d[i + 3] == s[3]
  {
    var t := d[i..i + 4];
    assert t[0] == d[i] && t[1] == d[i + 1] && t[2] == d[i + 2] && t[3] == d[i + 3];
  }

  lemma QuoteEndOfItem(d: string, i: nat, x: Item)
    requires WfItem(x) && At(d, i, PrintItem(x))
    ensures QuoteEnd(d, i) == QuoteEnd(d, i + |PrintItem(x)|)
  {
    var s := PrintItem(x);
    AtFirst(d, i, s);
    if x.Unicode? {
      var j := i + 2;
      AtFirst(d, i + 1, s[1..]);
      assert At(d, j, [x.h0, x.h1, x.h2, x.h3]) by {
        assert s[1..][1..] == [x.h0, x.h1, x.h2, x.h3];
      }
      HexAt(d, j, [x.h0, x.h1, x.h2, x.h3]);
      assert QuoteEnd(d, j) == QuoteEnd(d, j + 1) == QuoteEnd(d, j + 2);
      assert QuoteEnd(d, j + 2) == QuoteEnd(d, j + 3) == QuoteEnd(d, j + 4);
    }
  }

  /** A quoted string at `i`: the loop started after the opening quote ends at the closing one. */
  lemma QuotedAt(d: string, i: nat, items: seq<Item>)
    requires WfItems(items) && At(d, i, Quoted(items))
    ensures i < |d| && d[i] == '"'
    ensures QuoteEnd(d, i + 1) == i + 1 + |PrintItems(items)| < |d|
    ensures d[i + 1..QuoteEnd(d, i + 1)] == PrintItems(items)
  {
    var s := PrintItems(items);
    assert Quoted(items) == "\"" + (s + "\"");
    AtConcat(d, i, "\"", s + "\"");
    assert d[i..i + 1][0] == d[i];
    QuoteEndOfItems(d, i + 1, items);
    AtConcat(d, i + 1, s, "\"");
  }

  // ---------------------------------------------------------------------------
  // Runs of characters.
  // ---------------------------------------------------------------------------

  function SpaceEnd(d: string, i: nat): (j: nat)
    ensures j >= i
    decreases |d| - i
  {
    if i < |d| && IsSpace(d[i]) then SpaceEnd(d, i + 1) else i
  }

  method SkipSpace(d: string, start: nat) returns (i: nat)
    ensures i == SpaceEnd(d, start)
  {
    i := start;
    while i < |d| && IsSpace(d[i])
      invariant SpaceEnd(d, i) == SpaceEnd(d, start)
      decreases |d| - i
    {
      i := i + 1;
    }
  }

  function ColonEnd(d: string, i: nat): (j: nat)
    ensures j >= i
    decreases |d| - i
  {
    if i < |d| && d[i] != ':' then ColonEnd(d, i + 1) else i
  }

  method FindColon(d: string, start: nat) returns (i: nat)
    ensures i == ColonEnd(d, start)
  {
    i := start;
    while i < |d| && d[i] != ':'
      invariant ColonEnd(d, i) == ColonEnd(d, start)
      decreases |d| - i
    {
      i := i + 1;
    }
  }

  /** The end of a number in skipValue. */
  function NumberEnd(d: string, i: nat): (j: nat)
    ensures j >= i
    decreases |d| - i
  {
    if i < |d| && d[i] != ',' && d[i] != '}' && d[i] != ']' && !IsSpace(d[i]) then NumberEnd(d, i + 1) else i
  }

  predicate EndsValue(d: string, i: nat) {
    i >= |d| || d[i] == ',' || d[i] == '}' || d[i] == ']' || IsSpace(d[i])
  }

  lemma {:induction false} NumberEndOfText(d: string, i: nat, s: string)
    requires At(d, i, s) && (forall k :: 0 <= k < |s| ==> IsNumberChar(s[k])) && EndsValue(d, i + |s|)
    ensures NumberEnd(d, i) == i + |s|
    decreases |s|
  {
    if s != [] {
      AtFirst(d, i, s);
      NumberEndOfText(d, i + 1, s[1..]);
    }
  }

  // ---------------------------------------------------------------------------
  // Nested values.
  // ---------------------------------------------------------------------------

  /** Which brackets a loop counts: skipValue counts one pair, parseValue both. */
  datatype Brackets = Braces | Squares | Both

  predicate Opens(k: Brackets, c: char) { (c == '{' && !k.Squares?) || (c == '[' && !k.Braces?) }

  predicate Closes(k: Brackets, c: char) { (c == '}' && !k.Squares?) || (c == ']' && !k.Braces?) }

  /** One iteration of either nesting loop: the next position and depth. */
  function Next(d: string, i: nat, depth: nat, k: Brackets): (r: (nat, nat))
    requires i < |d| && depth > 0
    ensures r.0 > i
  {
    if Opens(k, d[i]) then (i + 1, depth + 1)
    else if Closes(k, d[i]) then (i + 1, depth - 1)
    else if d[i] == '"' then (QuoteEnd(d, i + 1) + 1, depth)
    else (i + 1, depth)
  }

  /** Position just after the bracket that brings `depth` back to zero. */
  function NestEnd(d: string, i: nat, depth: nat, k: Brackets): nat
    decreases |d| - i
  {
    if i >= |d| || depth == 0 then i
    else
      var next := Next(d, i, depth, k);
      NestEnd(d, next.0, next.1, k)
  }

  lemma {:induction false} NestOverInert(d: string, i: nat, depth: nat, k: Brackets, s: string)
    requires depth > 0 && At(d, i, s) && forall j :: 0 <= j < |s| ==> Inert(s[j])
    ensures NestEnd(d, i, depth, k) == NestEnd(d, i + |s|, depth, k)
    decreases |s|
  {
    if s != [] {
      AtFirst(d, i, s);
      NestOverInert(d, i + 1, depth, k, s[1..]);
    }
  }

  lemma NestOverQuoted(d: string, i: nat, depth: nat, k: Brackets, items: seq<Item>)
    requires depth > 0 && WfItems(items) && At(d, i, Quoted(items))
    ensures NestEnd(d, i, depth, k) == NestEnd(d, i + |Quoted(items)|, depth, k)
  {
    QuotedAt(d, i, items);
  }

  lemma NestOverLead(d: string, i: nat, depth: nat, k: Brackets, l: Lead, isObject: bool)
    requires depth > 0 && WfLead(l, isObject) && At(d, i, PrintLead(l))
    ensures NestEnd(d, i, depth, k) == NestEnd(d, i + |PrintLead(l)|, depth, k)
  {
    hide NestEnd, At;
    match l
    case Bare(s) => NestOverInert(d, i, depth, k, s);
    case Keyed(s, key, m, n) =>
      var colon := m + ":" + n;
      assert PrintLead(l) == s + Quoted(key) + colon;
      AtThree(d, i, s, Quoted(key), colon);
      NestOverInert(d, i, depth, k, s);
      NestOverQuoted(d, i + |s|, depth, k, key);
      NestOverInert(d, i + |s| + |Quoted(key)|, depth, k, colon);
  }

  /** At positive depth the loop passes over a whole value and keeps its depth. */
  lemma {:induction false} NestOverTree(d: string, i: nat, depth: nat, k: Brackets, t: Tree)
    requires depth > 0 && Wf(t) && At(d, i, Print(t))
    ensures NestEnd(d, i, depth, k) == NestEnd(d, i + |Print(t)|, depth, k)
    decreases t
  {
    hide NestEnd, At, Opens, Closes, Next;
    match t
    case Word(w) => NestOverInert(d, i, depth, k, w);
    case Number(s) => NestOverInert(d, i, depth, k, s);
    case String(items) => NestOverQuoted(d, i, depth, k, items);
    case Container(isObject, pad, entries) =>
      var c := SplitContainer(d, i, t);
      NestInside(d, i + 1, if Opens(k, Open(isObject)[0]) then depth + 1 else depth, k, pad, entries, isObject);
      NestOverBrackets(d, i, c, depth, k, isObject);
  }

  /** A pair of brackets whose inside the loop passes over. */
  lemma NestOverBrackets(d: string, i: nat, c: nat, depth: nat, k: Brackets, isObject: bool)
    requires i < c < |d| && depth > 0 && d[i] == Open(isObject)[0] && d[c] == Close(isObject)[0]
    requires var inner := if Opens(k, Open(isObject)[0]) then depth + 1 else depth;
             NestEnd(d, i + 1, inner, k) == NestEnd(d, c, inner, k)
    ensures NestEnd(d, i, depth, k) == NestEnd(d, c + 1, depth, k)
  {
    var inner := if Opens(k, d[i]) then depth + 1 else depth;
    assert Next(d, i, depth, k) == (i + 1, inner);
    assert Next(d, c, inner, k) == (c + 1, depth);
  }

  /** Where the brackets of a container stand; `c` is the closing one. */
  lemma SplitContainer(d: string, i: nat, t: Tree) returns (c: nat)
    requires t.Container? && At(d, i, Print(t))
    ensures var inside := if t.entries == [] then t.pad else PrintEntries(t.entries);
            At(d, i + 1, inside) && c == i + 1 + |inside|
    ensures i < c < |d| && c + 1 == i + |Print(t)|
    ensures d[i] == Open(t.isObject)[0] && d[c] == Close(t.isObject)[0]
  {
    hide At, PrintEntries;
    var inside := if t.entries == [] then t.pad else PrintEntries(t.entries);
    c := SplitBrackets(d, i, inside, t.isObject);
  }

  lemma SplitBrackets(d: string, i: nat, inside: string, isObject: bool) returns (c: nat)
    requires At(d, i, Open(isObject) + inside + Close(isObject))
    ensures At(d, i + 1, inside) && c == i + 1 + |inside|
    ensures i < c < |d| && c + 1 == i + |Open(isObject) + inside + Close(isObject)|
    ensures d[i] == Open(isObject)[0] && d[c] == Close(isObject)[0]
  {
    hide At;
    c := i + 1 + |inside|;
    AtThree(d, i, Open(isObject), inside, Close(isObject));
    AtFirst(d, i, Open(isObject));
    AtFirst(d, c, Close(isObject));
  }

  lemma {:induction false} NestInside(
    d: string, i: nat, depth: nat, k: Brackets, pad: string, es: seq<Entry>, isObject: bool)
    requires depth > 0 && AllSpace(pad) && WfEntries(es, isObject)
    requires At(d, i, if es == [] then pad else PrintEntries(es))
    ensures NestEnd(d, i, depth, k) == NestEnd(d, i + |if es == [] then pad else PrintEntries(es)|, depth, k)
    decreases es
  {
    hide NestEnd, At;
    if es == [] {
      NestOverInert(d, i, depth, k, pad);
    } else {
      var first := PrintLead(es[0].lead) + Print(es[0].value) + es[0].after;
      if |es| == 1 {
        NestOverEntry(d, i, depth, k, es[0], isObject);
      } else {
        AtThree(d, i, first, ",", PrintEntries(es[1..]));
        NestOverEntry(d, i, depth, k, es[0], isObject);
        NestOverInert(d, i + |first|, depth, k, ",");
        NestInside(d, i + |first| + 1, depth, k, pad, es[1..], isObject);
      }
    }
  }

  lemma {:induction false} NestOverEntry(d: string, i: nat, depth: nat, k: Brackets, e: Entry, isObject: bool)
    requires depth > 0 && WfLead(e.lead, isObject) && Wf(e.value) && AllSpace(e.after)
    requires At(d, i, PrintLead(e.lead) + Print(e.value) + e.after)
    ensures NestEnd(d, i, depth, k) == NestEnd(d, i + |PrintLead(e.lead) + Print(e.value) + e.after|, depth, k)
    decreases e
  {
    hide NestEnd, At, PrintLead, Print, Wf, WfLead;
    var lead, value, after := PrintLead(e.lead), Print(e.value), e.after;
    AtThree(d, i, lead, value, after);
    NestOverLead(d, i, depth, k, e.lead, isObject);
    NestOverTree(d, i + |lead|, depth, k, e.value);
    NestOverInert(d, i + |lead| + |value|, depth, k, after);
  }

  /** The extent loop of parseValue: stops at depth zero on a comma or a closing bracket. */
  function ExtentEnd(d: string, i: nat, depth: nat): (j: nat)
    ensures j >= i
    decreases |d| - i
  {
    if i >= |d| then i
    else if Opens(Both, d[i]) then ExtentEnd(d, i + 1, depth + 1)
    else if Closes(Both, d[i]) then
      if depth == 0 then i else ExtentEnd(d, i + 1, depth - 1)
    else if d[i] == ',' && depth == 0 then i
    else if d[i] == '"' then ExtentEnd(d, QuoteEnd(d, i + 1) + 1, depth)
    else ExtentEnd(d, i + 1, depth)
  }

  method FindExtent(d: string, start: nat) returns (i: nat)
    ensures i == ExtentEnd(d, start, 0)
  {
    i := start;
    var depth: nat := 0;
    while i < |d|
      invariant ExtentEnd(d, i, depth) == ExtentEnd(d, start, 0)
      decreases |d| - i
    {
      match d[i] {
        case '{' | '[' => depth := depth + 1;
        case '}' | ']' =>
          if depth == 0 {
            return;
          }
          depth := depth - 1;
        case ',' =>
          if depth == 0 {
            return;
          }
        case '"' => i := FindQuote(d, i + 1);
        case _ =>
      }
      i := i + 1;
    }
  }

  /** Below its first bracket the extent loop is the nesting loop. */
  lemma {:induction false} ExtentIsNest(d: string, i: nat, depth: nat)
    requires depth > 0
    ensures ExtentEnd(d, i, depth) == ExtentEnd(d, NestEnd(d, i, depth, Both), 0)
    decreases |d| - i
  {
    if i < |d| {
      if Opens(Both, d[i]) {
        ExtentIsNest(d, i + 1, depth + 1);
      } else if Closes(Both, d[i]) {
        if depth > 1 {
          ExtentIsNest(d, i + 1, depth - 1);
        }
      } else if d[i] == '"' {
        ExtentIsNest(d, QuoteEnd(d, i + 1) + 1, depth);
      } else {
        ExtentIsNest(d, i + 1, depth);
      }
    }
  }

  lemma {:induction false} ExtentOfNumber(d: string, i: nat, s: string)
    requires At(d, i, s) && forall j :: 0 <= j < |s| ==> IsNumberChar(s[j])
    ensures ExtentEnd(d, i, 0) == ExtentEnd(d, i + |s|, 0)
    decreases |s|
  {
    if s != [] {
      AtFirst(d, i, s);
      ExtentOfNumber(d, i + 1, s[1..]);
    }
  }

  /** Any container, started at its own bracket, ends just after its closing bracket. */
  lemma NestOfContainer(d: string, i: nat, t: Tree, k: Brackets)
    requires t.Container? && Wf(t) && At(d, i, Print(t)) && Opens(k, Open(t.isObject)[0])
    ensures i < |d| && d[i] == Open(t.isObject)[0]
    ensures NestEnd(d, i + 1, 1, k) == i + |Print(t)|
  {
    hide At, NestEnd, Print, PrintEntries, Opens, Closes;
    var c := SplitContainer(d, i, t);
    NestInside(d, i + 1, 1, k, t.pad, t.entries, t.isObject);
    LastBracket(d, c, k, t.isObject);
  }

  lemma LastBracket(d: string, c: nat, k: Brackets, isObject: bool)
    requires c < |d| && d[c] == Close(isObject)[0] && Opens(k, Open(isObject)[0])
    ensures NestEnd(d, c, 1, k) == c + 1
  {
    assert Next(d, c, 1, k) == (c + 1, 0);
  }

  /** The extent of a number or of a container is exactly its own text. */
  lemma ExtentOfTree(d: string, i: nat, t: Tree)
    requires (t.Number? || t.Container?) && Wf(t) && At(d, i, Print(t))
    requires i + |Print(t)| == |d| || (d[i + |Print(t)|] == ',' || Closes(Both, d[i + |Print(t)|]))
    ensures ExtentEnd(d, i, 0) == i + |Print(t)|
  {
    hide NestEnd, At;
    if t.Number? {
      ExtentOfNumber(d, i, t.lexeme);
    } else {
      NestOfContainer(d, i, t, Both);
      ExtentIsNest(d, i + 1, 1);
    }
  }

  // ---------------------------------------------------------------------------
  // skipValue.
  // ---------------------------------------------------------------------------

  /** skipValue; `None` is its -1. */
  function SkipEnd(d: string, i: nat): Option<nat> {
    if i >= |d| then None
    else
      match d[i]
      case '"' => if QuoteEnd(d, i + 1) >= |d| then None else Some(QuoteEnd(d, i + 1) + 1)
      case 't' => Some(i + 4)
      case 'f' => Some(i + 5)
      case 'n' => Some(i + 4)
      case '{' => Some(NestEnd(d, i + 1, 1, Braces))
      case '[' => Some(NestEnd(d, i + 1, 1, Squares))
      case _ => Some(NumberEnd(d, i))
  }

  method SkipValue(d: string, start: nat) returns (r: Option<nat>)
    ensures r == SkipEnd(d, start)
  {
    var i := start;
    if i >= |d| {
      return None;
    }
    match d[i] {
      case '"' =>
        i := FindQuote(d, i + 1);
        if i >= |d| {
          return None;
        }
        return Some(i + 1);
      case 't' => return Some(i + 4);
      case 'f' => return Some(i + 5);
      case 'n' => return Some(i + 4);
      case '{' | '[' =>
        var open := d[i];
        var close := if open == '[' then ']' else '}';
        ghost var k := if open == '[' then Squares else Braces;
        var depth: nat := 1;
        i := i + 1;
        while i < |d| && depth > 0
          invariant i > start
          invariant NestEnd(d, i, depth, k) == NestEnd(d, start + 1, 1, k)
          decreases |d| - i
        {
          if d[i] == open {
            depth := depth + 1;
          } else if d[i] == close {
            depth := depth - 1;
          } else if d[i] == '"' {
            i := FindQuote(d, i + 1);
          }
          i := i + 1;
        }
        return Some(i);
      case _ =>
        while i < |d| && d[i] != ',' && d[i] != '}' && d[i] != ']' && !IsSpace(d[i])
          invariant NumberEnd(d, i) == NumberEnd(d, start)
          decreases |d| - i
        {
          i := i + 1;
        }
        return Some(i);
    }
  }

  /** Started on any JSON value, skipValue stops exactly at its end. */
  lemma SkipEndOfTree(d: string, i: nat, t: Tree)
    requires Wf(t) && At(d, i, Print(t)) && (t.Number? ==> EndsValue(d, i + |Print(t)|))
    ensures SkipEnd(d, i) == Some(i + |Print(t)|)
  {
    match t
    case Word(w) => AtFirst(d, i, w);
    case Number(s) =>
      AtFirst(d, i, s);
      NumberEndOfText(d, i, s);
    case String(items) => QuotedAt(d, i, items);
    case Container(isObject, _, _) => NestOfContainer(d, i, t, if isObject then Braces else Squares);
  }
}
