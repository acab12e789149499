/** Result types and the integer widths that the evaluator's own code uses. */
module Common {

  datatype Option<+T> = None | Some(value: T) {
    function GetOr(default: T): T {
      match this
      case Some(v) => v
      case None => default
    }
  }

  datatype Result<+T, +E> = Ok(value: T) | Err(error: E)

  /** What a loop has collected, before what the rest of it yields. */
  function Prepend<T, E>(xs: seq<T>, r: Result<seq<T>, E>): Result<seq<T>, E> {
    match r
    case Ok(rest) => Ok(xs + rest)
    case Err(e) => Err(e)
  }

  lemma PrependNothing<T, E>(r: Result<seq<T>, E>)
    ensures Prepend([], r) == r
  {
    if r.Ok? {
      assert [] + r.value == r.value;
    }
  }

  lemma PrependMoves<T, E>(xs: seq<T>, ys: seq<T>, r: Result<seq<T>, E>)
    ensures Prepend(xs, Prepend(ys, r)) == Prepend(xs + ys, r)
  {
    if r.Ok? {
      assert xs + (ys + r.value) == (xs + ys) + r.value;
    }
  }

  const TWO_32: nat := 0x1_0000_0000
  const TWO_64: nat := 0x1_0000_0000_0000_0000

  type U32 = n: nat | n < 0x1_0000_0000
  type U64 = n: nat | n < 0x1_0000_0000_0000_0000
}

/** The operations of Rust's `str` that the evaluator calls: splitting, joining,
    prefix tests, number parsing and printing, and byte-wise comparison. */
module Text {
  import opened Common

  /** `s.split_once(sep)`: the text before and after the first separator. */
  function SplitOnce(s: string, sep: char): (r: Option<(string, string)>)
    ensures r.None? <==> sep !in s
    ensures r.Some? ==> s == r.value.0 + [sep] + r.value.1 && sep !in r.value.0
  {
    if s == [] then None
    else if s[0] == sep then Some(([], s[1..]))
    else
      match SplitOnce(s[1..], sep)
      case None => None
      case Some((a, b)) => Some(([s[0]] + a, b))
  }

  /** `s.split(sep)`: one more part than there are separators. */
  function Split(s: string, sep: char): (parts: seq<string>)
    ensures parts != []
    decreases |s|
  {
    match SplitOnce(s, sep)
    case None => [s]
    case Some((a, b)) => [a] + Split(b, sep)
  }

  /** `parts.join(sep)` for a one-character separator. */
  function Join(parts: seq<string>, sep: char): string {
    if parts == [] then ""
    else if |parts| == 1 then parts[0]
    else parts[0] + [sep] + Join(parts[1..], sep)
  }

  lemma {:induction false} SplitOnceConcat(a: string, b: string, sep: char)
    requires sep !in a
    ensures SplitOnce(a + [sep] + b, sep) == Some((a, b))
  {
    var s := a + [sep] + b;
    if a == [] {
      assert s[0] == sep && s[1..] == b;
    } else {
      var rest := a[1..];
      assert a == [a[0]] + rest;
      assert s[0] == a[0] != sep && s[1..] == rest + [sep] + b;
      SplitOnceConcat(rest, b, sep);
    }
  }

  /** Joining and splitting again gives the first part back when it holds no separator. */
  lemma SplitJoinFirst(parts: seq<string>, sep: char)
    requires parts != [] && sep !in parts[0]
    ensures Split(Join(parts, sep), sep)[0] == parts[0]
  {
    if |parts| > 1 {
      SplitOnceConcat(parts[0], Join(parts[1..], sep), sep);
    }
  }

  lemma SplitNothing(s: string, sep: char)
    requires sep !in s
    ensures Split(s, sep) == [s]
  {
  }

  /** The parts hold no separator, and only characters of the text. */
  lemma {:induction false} SplitPartsHaveNone(s: string, sep: char)
    ensures forall i :: 0 <= i < |Split(s, sep)| ==> sep !in Split(s, sep)[i]
    decreases |s|
  {
    var first := SplitOnce(s, sep);
    if first.Some? {
      SplitPartsHaveNone(first.value.1, sep);
    }
  }

  lemma {:induction false} SplitPartsAreParts(s: string, sep: char)
    ensures forall i, c :: 0 <= i < |Split(s, sep)| && c in Split(s, sep)[i] ==> c in s
    decreases |s|
  {
    var first := SplitOnce(s, sep);
    if first.Some? {
      SplitPartsAreParts(first.value.1, sep);
    }
  }

  /** Joining and splitting again gives the parts back when none of them holds the separator. */
  lemma {:induction false} SplitInvertsJoin(parts: seq<string>, sep: char)
    requires parts != [] && forall i :: 0 <= i < |parts| ==> sep !in parts[i]
    ensures Split(Join(parts, sep), sep) == parts
  {
    if |parts| == 1 {
      SplitNothing(parts[0], sep);
    } else {
      SplitOnceConcat(parts[0], Join(parts[1..], sep), sep);
      SplitInvertsJoin(parts[1..], sep);
    }
  }

  lemma {:induction false} SplitOnceAppend(s: string, w: string, sep: char)
    requires sep !in w
    ensures SplitOnce(s, sep).None? ==> SplitOnce(s + w, sep).None?
    ensures SplitOnce(s, sep).Some? ==>
      SplitOnce(s + w, sep) == Some((SplitOnce(s, sep).value.0, SplitOnce(s, sep).value.1 + w))
  {
    if SplitOnce(s, sep).Some? {
      var (a, b) := SplitOnce(s, sep).value;
      assert s + w == a + [sep] + (b + w);
      SplitOnceConcat(a, b + w, sep);
    }
  }

  /** Text without separators, appended, goes to the last part. */
  lemma {:induction false} SplitAppend(s: string, w: string, sep: char)
    requires sep !in w
    ensures var parts, last := Split(s, sep), |Split(s, sep)| - 1;
            Split(s + w, sep) == parts[..last] + [parts[last] + w]
    decreases |s|
  {
    hide SplitOnce;
    SplitOnceAppend(s, w, sep);
    if SplitOnce(s, sep).Some? {
      var (a, b) := SplitOnce(s, sep).value;
      SplitAppend(b, w, sep);
      var parts := Split(b, sep);
      assert ([a] + parts)[..|parts|] == [a] + parts[..|parts| - 1];
    }
  }

  predicate IsPrefixOf(p: string, s: string) {
    |p| <= |s| && s[..|p|] == p
  }

  predicate IsDigit(c: char) { '0' <= c <= '9' }

  function DigitValue(c: char): (d: nat)
    requires IsDigit(c)
    ensures d < 10
  {
    c as int - '0' as int
  }

  /** A non-empty run of decimal digits. */
  predicate AllDigits(s: string) {
    s != [] && forall i :: 0 <= i < |s| ==> IsDigit(s[i])
  }

  /** The number a run of digits denotes, of any size. */
  function DigitsValue(s: string): nat
    requires forall i :: 0 <= i < |s| ==> IsDigit(s[i])
  {
    if s == [] then 0 else 10 * DigitsValue(s[..|s| - 1]) + DigitValue(s[|s| - 1])
  }

  /** `s.parse::<u64>()`: an optional leading `+`, then digits, within 64 bits. */
  function ParseU64(s: string): Option<U64> {
    var digits := if s != [] && s[0] == '+' then s[1..] else s;
    if AllDigits(digits) && DigitsValue(digits) < 0x1_0000_0000_0000_0000
    then Some(DigitsValue(digits))
    else None
  }

  /** `n.to_string()` for an integer. */
  function Decimal(n: int): string
    decreases if n < 0 then 1 - n else n
  {
    if n < 0 then "-" + Decimal(-n)
    else if n < 10 then [(n + '0' as int) as char]
    else Decimal(n / 10) + [(n % 10 + '0' as int) as char]
  }

  /** Printing a number and reading its digits gives it back. */
  lemma {:induction false} DecimalDenotes(n: nat)
    ensures AllDigits(Decimal(n)) && DigitsValue(Decimal(n)) == n
  {
    if n >= 10 {
      DecimalDenotes(n / 10);
      assert Decimal(n)[..|Decimal(n)| - 1] == Decimal(n / 10);
    } else {
      assert Decimal(n)[..0] == [];
    }
  }

  datatype Ordering = Less | Equal | Greater {
    function Reverse(): Ordering {
      match this
      case Less => Greater
      case Equal => Equal
      case Greater => Less
    }
  }

  function CompareInt(a: int, b: int): Ordering {
    if a < b then Less else if a == b then Equal else Greater
  }

  /** `a.cmp(b)` on strings: by the first differing character, then by length. */
  function CompareText(a: string, b: string): Ordering {
    if a == [] || b == [] then CompareInt(|a|, |b|)
    else if a[0] != b[0] then CompareInt(a[0] as int, b[0] as int)
    else CompareText(a[1..], b[1..])
  }

  lemma {:induction false} CompareTextReverse(a: string, b: string)
    ensures CompareText(b, a) == CompareText(a, b).Reverse()
    ensures CompareText(a, b) == Equal <==> a == b
  {
    if a != [] && b != [] && a[0] == b[0] {
      CompareTextReverse(a[1..], b[1..]);
      assert a == [a[0]] + a[1..] && b == [b[0]] + b[1..];
    }
  }

  lemma {:induction false} CompareTextTransitive(a: string, b: string, c: string)
    requires CompareText(a, b) == Less && CompareText(b, c) == Less
    ensures CompareText(a, c) == Less
  {
    if a != [] && b != [] && c != [] && a[0] == b[0] == c[0] {
      CompareTextTransitive(a[1..], b[1..], c[1..]);
    }
  }
}
