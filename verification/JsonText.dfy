/** JSON texts as derivations of the grammar in sections 2 to 7 of RFC 8259, with any
    whitespace and any string escapes, and their printer. A `string` holds one byte per character. */
module JsonText {
  import opened Common
  import opened Text

  /** Section 7: an unescaped character, a two-character escape, or a \u escape. */
  datatype Item = Plain(c: char) | Short(c: char) | Unicode(h0: char, h1: char, h2: char, h3: char)

  /** What stands before a value in a container: nothing but space, or a key and a colon. */
  datatype Lead = Bare(space: string) | Keyed(space: string, key: seq<Item>, beforeColon: string, afterColon: string)

  datatype Entry = Entry(lead: Lead, value: Tree, after: string)

  /** A value's derivation. `pad` is the space inside an empty container. */
  datatype Tree =
    | Word(word: string)
    | Number(lexeme: string)
    | String(items: seq<Item>)
    | Container(isObject: bool, pad: string, entries: seq<Entry>)

  predicate IsSpace(c: char) { c == ' ' || c == '\t' || c == '\n' || c == '\r' }

  predicate AllSpace(s: string) { forall i :: 0 <= i < |s| ==> IsSpace(s[i]) }

  /** A character that neither opens nor closes anything. */
  predicate Inert(c: char) { c != '"' && c != '{' && c != '}' && c != '[' && c != ']' }

  predicate IsHex(c: char) { '0' <= c <= '9' || 'a' <= c <= 'f' || 'A' <= c <= 'F' }

  predicate IsNumberChar(c: char) { IsDigit(c) || c == '-' || c == '+' || c == '.' || c == 'e' || c == 'E' }

  /** Holds of every number of section 6 (and of a few texts more). */
  predicate IsNumberText(s: string) {
    s != [] && (IsDigit(s[0]) || s[0] == '-') && forall i :: 0 <= i < |s| ==> IsNumberChar(s[i])
  }

  predicate IsShort(c: char) {
    c == '"' || c == '\\' || c == '/' || c == 'b' || c == 'f' || c == 'n' || c == 'r' || c == 't'
  }

  predicate WfItem(x: Item) {
    match x
    case Plain(c) => c != '"' && c != '\\' && c >= ' '
    case Short(c) => IsShort(c)
    case Unicode(a, b, c, d) => IsHex(a) && IsHex(b) && IsHex(c) && IsHex(d)
  }

  predicate WfItems(xs: seq<Item>) { forall i :: 0 <= i < |xs| ==> WfItem(xs[i]) }

  predicate WfLead(l: Lead, isObject: bool) {
    match l
    case Bare(s) => !isObject && AllSpace(s)
    case Keyed(s, key, m, n) => isObject && AllSpace(s) && WfItems(key) && AllSpace(m) && AllSpace(n)
  }

  predicate Wf(t: Tree) {
    match t
    case Word(w) => w == "true" || w == "false" || w == "null"
    case Number(s) => IsNumberText(s)
    case String(items) => WfItems(items)
    case Container(isObject, pad, entries) => AllSpace(pad) && WfEntries(entries, isObject)
  }

  predicate WfEntries(es: seq<Entry>, isObject: bool) {
    es != [] ==>
      && WfLead(es[0].lead, isObject) && Wf(es[0].value) && AllSpace(es[0].after)
      && WfEntries(es[1..], isObject)
  }

  function PrintItem(x: Item): (s: string)
    ensures s != []
  {
    match x
    case Plain(c) => [c]
    case Short(c) => ['\\', c]
    case Unicode(a, b, c, d) => ['\\', 'u', a, b, c, d]
  }

  function PrintItems(xs: seq<Item>): string {
    if xs == [] then "" else PrintItem(xs[0]) + PrintItems(xs[1..])
  }

  function Quoted(xs: seq<Item>): string { "\"" + PrintItems(xs) + "\"" }

  function PrintLead(l: Lead): string {
    match l
    case Bare(s) => s
    case Keyed(s, key, m, n) => s + Quoted(key) + m + ":" + n
  }

  function Print(t: Tree): string {
    match t
    case Word(w) => w
    case Number(s) => s
    case String(items) => Quoted(items)
    case Container(isObject, pad, entries) => 
      Open(isObject) + (if entries == [] then pad else PrintEntries(entries)) + Close(isObject)
  }

  function Open(isObject: bool): string { if isObject then "{" else "[" }

  function Close(isObject: bool): string { if isObject then "}" else "]" }

  function PrintEntries(es: seq<Entry>): string
    requires es != []
  {
    var first := PrintLead(es[0].lead) + Print(es[0].value) + es[0].after;
    if |es| == 1 then first else first + "," + PrintEntries(es[1..])
  }

  function Max(a: nat, b: nat): nat { if a < b then b else a }

  /** How deeply objects and arrays nest. */
  function Depth(t: Tree): nat {
    match t
    case Container(_, _, entries) => 1 + EntriesDepth(entries)
    case _ => 0
  }

  function EntriesDepth(es: seq<Entry>): nat {
    if es == [] then 0 else Max(Depth(es[0].value), EntriesDepth(es[1..]))
  }
}
