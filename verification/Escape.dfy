/** String escaping: escapeJSONString of go/evaluate.go and the escapes that serde_json writes,
    against the decoding of section 7 of RFC 8259. */
module Escape {
  import opened Common
  import opened JsonText

  datatype Escaper = GoEscaper | SerdeEscaper

  predicate NeedsEscape(c: char) { c == '"' || c == '\\' || c < ' ' }

  predicate NeedsNone(s: string) { forall i :: 0 <= i < |s| ==> !NeedsEscape(s[i]) }

  function HexDigit(n: nat): (c: char)
    requires n < 16
    ensures IsHex(c)
  {
    if n < 10 then ('0' as int + n) as char else ('a' as int + n - 10) as char
  }

  /** How a character is written: Go spells out \n, \r and \t, serde_json also \b and \f. */
  function ItemOf(e: Escaper, c: char): (x: Item)
    ensures WfItem(x)
    ensures x == Plain(c) <==> !NeedsEscape(c)
  {
    if c == '"' || c == '\\' then Short(c)
    else if c == '\n' then Short('n')
    else if c == '\r' then Short('r')
    else if c == '\t' then Short('t')
    else if e.SerdeEscaper? && c == 8 as char then Short('b')
    else if e.SerdeEscaper? && c == 12 as char then Short('f')
    else if c < ' ' then Unicode('0', '0', HexDigit(c as int / 16), HexDigit(c as int % 16))
    else Plain(c)
  }

  function ItemsOf(e: Escaper, s: string): (xs: seq<Item>)
    ensures |xs| == |s| && WfItems(xs)
  {
    seq(|s|, i requires 0 <= i < |s| => ItemOf(e, s[i]))
  }

  function EscapeText(e: Escaper, s: string): string { PrintItems(ItemsOf(e, s)) }

  method EscapeJSONString(s: string) returns (r: string)
    ensures r == EscapeText(GoEscaper, s)
  {
    var needsEscape := false;
    var i := 0;
    while i < |s|
      invariant i <= |s|
      invariant !needsEscape ==> NeedsNone(s[..i])
    {
      var c := s[i];
      if c == '"' || c == '\\' || c < 0x20 as char {
        needsEscape := true;
        break;
      }
      i := i + 1;
    }
    if !needsEscape {
      assert s[..i] == s;
      NoEscapeIsIdentity(GoEscaper, s);
      return s;
    }
    r := "";
    i := 0;
    while i < |s|
      invariant i <= |s|
      invariant r == EscapeText(GoEscaper, s[..i])
    {
      var c := s[i];
      EscapeOneMore(GoEscaper, s[..i], c);
      assert s[..i] + [c] == s[..i + 1];
      match c {
        case '"' => r := r + "\\\"";
        case '\\' => r := r + "\\\\";
        case '\n' => r := r + "\\n";
        case '\r' => r := r + "\\r";
        case '\t' => r := r + "\\t";
        case _ =>
          if c < 0x20 as char {
            r := r + "\\u00" + [HexDigit(c as int / 16), HexDigit(c as int % 16)];
            assert "\\u00" + [HexDigit(c as int / 16), HexDigit(c as int % 16)] == PrintItem(ItemOf(GoEscaper, c));
          } else {
            r := r + [c];
          }
      }
      i := i + 1;
    }
    assert s[..i] == s;
  }

  lemma {:induction false} PrintItemsConcat(a: seq<Item>, b: seq<Item>)
    ensures PrintItems(a + b) == PrintItems(a) + PrintItems(b)
  {
    if a == [] {
      assert a + b == b;
    } else {
      assert (a + b)[1..] == a[1..] + b;
      PrintItemsConcat(a[1..], b);
    }
  }

  lemma EscapeOneMore(e: Escaper, s: string, c: char)
    ensures EscapeText(e, s + [c]) == EscapeText(e, s) + PrintItem(ItemOf(e, c))
  {
    assert ItemsOf(e, s + [c]) == ItemsOf(e, s) + [ItemOf(e, c)];
    PrintItemsConcat(ItemsOf(e, s), [ItemOf(e, c)]);
    assert PrintItems([ItemOf(e, c)]) == PrintItem(ItemOf(e, c));
  }

  lemma EscapeFirst(e: Escaper, s: string)
    requires s != []
    ensures EscapeText(e, s) == PrintItem(ItemOf(e, s[0])) + EscapeText(e, s[1..])
  {
    assert ItemsOf(e, s)[1..] == ItemsOf(e, s[1..]);
  }

  /** The fast path: text without special characters is its own escaped form, and no other text is. */
  lemma {:induction false} NoEscapeIsIdentity(e: Escaper, s: string)
    ensures |EscapeText(e, s)| >= |s|
    ensures NeedsNone(s) ==> EscapeText(e, s) == s
    ensures !NeedsNone(s) ==> |EscapeText(e, s)| > |s|
  {
    if s != [] {
      EscapeFirst(e, s);
      NoEscapeIsIdentity(e, s[1..]);
      assert NeedsNone(s) <==> !NeedsEscape(s[0]) && NeedsNone(s[1..]);
      assert !NeedsEscape(s[0]) ==> PrintItem(ItemOf(e, s[0])) == [s[0]];
      assert [s[0]] + s[1..] == s;
    }
  }

  // ---------------------------------------------------------------------------
  // Section 7 decoding, from the text alone.
  // ---------------------------------------------------------------------------

  function HexValue(c: char): (n: nat)
    requires IsHex(c)
    ensures n < 16
  {
    if c <= '9' then c as int - '0' as int
    else if c <= 'F' then c as int - 'A' as int + 10
    else c as int - 'a' as int + 10
  }

  /** The UTF-8 bytes of a code unit; a surrogate on its own has none. */
  function Utf8(code: nat): Option<string>
    requires code < 0x10000
  {
    if code < 0x80 then Some([code as char])
    else if code < 0x800 then Some([(0xC0 + code / 0x40) as char, (0x80 + code % 0x40) as char])
    else if 0xD800 <= code < 0xE000 then None
    else Some([(0xE0 + code / 0x1000) as char, (0x80 + code / 0x40 % 0x40) as char, (0x80 + code % 0x40) as char])
  }

  function ShortMeaning(c: char): Option<char> {
    match c
    case '"' => Some('"')
    case '\\' => Some('\\')
    case '/' => Some('/')
    case 'b' => Some(8 as char)
    case 'f' => Some(12 as char)
    case 'n' => Some('\n')
    case 'r' => Some('\r')
    case 't' => Some('\t')
    case _ => None
  }

  function Cons(head: Option<string>, tail: Option<string>): Option<string> {
    if head.Some? && tail.Some? then Some(head.value + tail.value) else None
  }

  /** Decodes the text between two quotes; `None` where section 7 allows no such text. */
  function Unescape(text: string): Option<string>
    decreases |text|
  {
    if text == [] then Some([])
    else if text[0] != '\\' then
      if NeedsEscape(text[0]) then None else Cons(Some([text[0]]), Unescape(text[1..]))
    else if |text| >= 2 && text[1] != 'u' then
      match ShortMeaning(text[1])
      case None => None
      case Some(c) => Cons(Some([c]), Unescape(text[2..]))
    else if |text| >= 6 && IsHex(text[2]) && IsHex(text[3]) && IsHex(text[4]) && IsHex(text[5]) then
      var code := 4096 * HexValue(text[2]) + 256 * HexValue(text[3]) + 16 * HexValue(text[4]) + HexValue(text[5]);
      Cons(Utf8(code), Unescape(text[6..]))
    else None
  }

  lemma UnescapeItem(e: Escaper, c: char, rest: string)
    ensures Unescape(PrintItem(ItemOf(e, c)) + rest) == Cons(Some([c]), Unescape(rest))
  {
    var x := ItemOf(e, c);
    var text := PrintItem(x) + rest;
    match x
    case Plain(p) => assert text[1..] == rest;
    case Short(p) =>
      assert text[2..] == rest && text[0] == '\\' && text[1] == p;
      assert ShortMeaning(p) == Some(c);
    case Unicode(a, b, h, l) =>
      assert text[6..] == rest;
      assert text[..6] == ['\\', 'u', '0', '0', h, l];
      assert text[0] == '\\' && text[1] == 'u' && text[2] == '0' && text[3] == '0' && text[4] == h && text[5] == l;
      assert 16 * HexValue(h) + HexValue(l) == c as int;
  }

  /** Decoding the escaped form gives the string back, whoever escaped it. */
  lemma {:induction false} UnescapeInvertsEscape(e: Escaper, s: string)
    ensures Unescape(EscapeText(e, s)) == Some(s)
  {
    if s != [] {
      EscapeFirst(e, s);
      UnescapeItem(e, s[0], EscapeText(e, s[1..]));
      UnescapeInvertsEscape(e, s[1..]);
      assert [s[0]] + s[1..] == s;
    }
  }

  lemma EscapeIsInjective(e: Escaper, s: string, t: string)
    requires EscapeText(e, s) == EscapeText(e, t)
    ensures s == t
  {
    UnescapeInvertsEscape(e, s);
    UnescapeInvertsEscape(e, t);
  }
}
