/** What a version text denotes, as a grammar beside the parser of src/operators/sem_ver.rs:65-122, and
    what the operators say of such texts (src/operators/sem_ver.rs:217-261). */
module VersionText {
  import opened Common
  import opened Text
  import opened SemVer

  // ---------------------------------------------------------------------------
  // The grammar.
  // ---------------------------------------------------------------------------

  /** A way of writing a version: white space, an optional `v`, one to three runs of digits, an optional
      pre-release, optional build metadata, white space. */
  datatype Writing = Writing(
    lead: string, tag: string, numbers: seq<string>, prerelease: Option<string>, build: Option<string>, trail: string)

  function Marked(mark: string, text: Option<string>): string { if text.Some? then mark + text.value else "" }

  function Core(w: Writing): string { Join(w.numbers, '.') + Marked("-", w.prerelease) }

  function Body(w: Writing): string { Core(w) + Marked("+", w.build) }

  function Written(w: Writing): string { w.lead + (w.tag + Body(w)) + w.trail }

  predicate IsNumber(s: string) { AllDigits(s) && DigitsValue(s) < TWO_64 }

  /** Numbers fit 64 bits, a pre-release holds no `+`, and the white space around is all there is. */
  predicate IsWriting(w: Writing) {
    && AllSpaces(w.lead) && AllSpaces(w.trail) && w.tag in ["", "v", "V"]
    && 1 <= |w.numbers| <= 3
    && (forall i :: 0 <= i < |w.numbers| ==> IsNumber(w.numbers[i]))
    && (w.prerelease.Some? ==> '+' !in w.prerelease.value)
    && Body(w) != [] && !IsSpace(Body(w)[|Body(w)| - 1])
  }

  /** Missing numbers are zeros. */
  function Denoted(w: Writing): Version
    requires IsWriting(w)
  {
    Version(
      DigitsValue(w.numbers[0]),
      if |w.numbers| > 1 then DigitsValue(w.numbers[1]) else 0,
      if |w.numbers| > 2 then DigitsValue(w.numbers[2]) else 0,
      w.prerelease, w.build)
  }

  // ---------------------------------------------------------------------------
  // Every writing is read as the version it denotes.
  // ---------------------------------------------------------------------------

  lemma {:induction false} TrimStartDrops(lead: string, s: string)
    requires AllSpaces(lead) && (s != [] ==> !IsSpace(s[0]))
    ensures TrimStart(lead + s) == s
  {
    if lead == [] {
      assert lead + s == s;
    } else {
      assert (lead + s)[1..] == lead[1..] + s;
      TrimStartDrops(lead[1..], s);
    }
  }

  lemma {:induction false} TrimEndDrops(s: string, trail: string)
    requires AllSpaces(trail) && (s != [] ==> !IsSpace(s[|s| - 1]))
    ensures TrimEnd(s + trail) == s
  {
    if trail == [] {
      assert s + trail == s;
    } else {
      assert (s + trail)[..|s + trail| - 1] == s + trail[..|trail| - 1];
      TrimEndDrops(s, trail[..|trail| - 1]);
    }
  }

  lemma {:induction false} JoinedDigits(numbers: seq<string>)
    requires numbers != [] && forall i :: 0 <= i < |numbers| ==> IsNumber(numbers[i])
    ensures Join(numbers, '.') != [] && IsDigit(Join(numbers, '.')[0])
    ensures forall c :: c in Join(numbers, '.') ==> IsDigit(c) || c == '.'
  {
    if |numbers| > 1 {
      JoinedDigits(numbers[1..]);
    }
  }

  lemma CoreIsPlain(w: Writing)
    requires IsWriting(w)
    ensures '+' !in Core(w) && Body(w) != [] && IsDigit(Body(w)[0])
    ensures forall c :: c in Join(w.numbers, '.') ==> IsDigit(c) || c == '.'
  {
    JoinedDigits(w.numbers);
  }

  lemma CoreIsRead(text: string, w: Writing)
    requires IsWriting(w)
    ensures ParseWithoutBuild(text, Core(w), w.build) == Ok(Denoted(w))
  {
    hide Split, SplitOnce, ParseU64;
    CoreIsPlain(w);
    var joined := Join(w.numbers, '.');
    assert '-' !in joined;
    if w.prerelease.Some? {
      assert Core(w) == joined + ['-'] + w.prerelease.value;
      SplitOnceConcat(joined, w.prerelease.value, '-');
    } else {
      assert Core(w) == joined;
    }
    NumbersAreRead(w);
    SplitInvertsJoin(w.numbers, '.');
  }

  lemma NumbersAreRead(w: Writing)
    requires IsWriting(w)
    ensures forall i :: 0 <= i < |w.numbers| ==>
      '.' !in w.numbers[i] && ParseU64(w.numbers[i]) == Some(DigitsValue(w.numbers[i]))
  {
    hide DigitsValue;
  }

  lemma TrimmedWriting(w: Writing)
    requires IsWriting(w)
    ensures TrimEnd(TrimStart(Written(w))) == w.tag + Body(w) != []
    ensures StripV(w.tag + Body(w)) == Body(w)
  {
    hide TrimStart, TrimEnd, Core;
    CoreIsPlain(w);
    var s := w.tag + Body(w);
    assert Written(w) == w.lead + (s + w.trail);
    TrimStartDrops(w.lead, s + w.trail);
    TrimEndDrops(s, w.trail);
  }

  lemma WritingIsRead(w: Writing)
    requires IsWriting(w)
    ensures Parse(Written(w)) == Ok(Denoted(w))
  {
    hide TrimStart, TrimEnd, Parse, ParseWithoutBuild, StripV, Written, Denoted;
    CoreIsPlain(w);
    TrimmedWriting(w);
    CoreIsRead(Body(w), w);
    if w.build.Some? {
      ParseSplit(Written(w), Core(w), w.build.value);
      assert Core(w) + "+" + w.build.value == Body(w);
    } else {
      assert Body(w) == Core(w);
      ParsePlain(Written(w), Core(w));
    }
  }

  // ---------------------------------------------------------------------------
  // Whatever is read has such a writing.
  // ---------------------------------------------------------------------------

  lemma {:induction false} TrimStartRest(s: string) returns (lead: string)
    ensures s == lead + TrimStart(s) && AllSpaces(lead)
  {
    if s != [] && IsSpace(s[0]) {
      var rest := TrimStartRest(s[1..]);
      lead := [s[0]] + rest;
      assert s == [s[0]] + s[1..];
    } else {
      lead := [];
    }
  }

  lemma {:induction false} TrimEndEnds(s: string)
    ensures TrimEnd(s) != [] ==> !IsSpace(TrimEnd(s)[|TrimEnd(s)| - 1])
  {
    if s != [] && IsSpace(s[|s| - 1]) {
      TrimEndEnds(s[..|s| - 1]);
    }
  }

  lemma {:induction false} JoinInvertsSplit(s: string, sep: char)
    ensures Join(Split(s, sep), sep) == s
    decreases |s|
  {
    var first := SplitOnce(s, sep);
    if first.Some? {
      JoinInvertsSplit(first.value.1, sep);
    }
  }

  /** What is read as a number is a run of digits, if it holds no `+`. */
  lemma NumberIsDigits(s: string)
    requires ParseU64(s).Some? && '+' !in s
    ensures IsNumber(s) && DigitsValue(s) == ParseU64(s).value
  {
    hide DigitsValue;
  }

  lemma CoreHasWriting(text: string, pre: string, build: Option<string>)
      returns (numbers: seq<string>, prerelease: Option<string>)
    requires '+' !in pre && ParseWithoutBuild(text, pre, build).Ok?
    ensures 1 <= |numbers| <= 3 && (prerelease.Some? ==> '+' !in prerelease.value)
    ensures forall i :: 0 <= i < |numbers| ==> IsNumber(numbers[i])
    ensures pre == Join(numbers, '.') + Marked("-", prerelease)
  {
    hide ParseU64, IsNumber, Split;
    var split := SplitOnce(pre, '-');
    var core := if split.Some? then split.value.0 else pre;
    prerelease := if split.Some? then Some(split.value.1) else None;
    numbers := Split(core, '.');
    assert forall c :: c in core ==> c in pre;
    JoinInvertsSplit(core, '.');
    SplitPartsAreParts(core, '.');
    forall i | 0 <= i < |numbers|
      ensures IsNumber(numbers[i])
    {
      NumberIsDigits(numbers[i]);
    }
  }

  /** What parsing sees of a text, and what it leaves out. */
  lemma TrimmedParts(text: string) returns (lead: string, tag: string, body: string, trail: string)
    requires TrimEnd(TrimStart(text)) != []
    ensures text == lead + (tag + body) + trail && AllSpaces(lead) && AllSpaces(trail) && tag in ["", "v", "V"]
    ensures StripV(TrimEnd(TrimStart(text))) == body && (body != [] ==> !IsSpace(body[|body| - 1]))
  {
    hide TrimStart, TrimEnd;
    var trimmed := TrimEnd(TrimStart(text));
    lead := TrimStartRest(text);
    trail := TrimEndRest(TrimStart(text));
    TrimEndEnds(TrimStart(text));
    body := StripV(trimmed);
    tag := if |body| == |trimmed| then "" else [trimmed[0]];
    assert trimmed == tag + body;
  }

  lemma BodyHasWriting(body: string)
      returns (numbers: seq<string>, prerelease: Option<string>, build: Option<string>)
    requires match SplitOnce(body, '+')
             case Some((v, b)) => ParseWithoutBuild(body, v, Some(b)).Ok?
             case None => ParseWithoutBuild(body, body, None).Ok?
    ensures 1 <= |numbers| <= 3 && (prerelease.Some? ==> '+' !in prerelease.value)
    ensures forall i :: 0 <= i < |numbers| ==> IsNumber(numbers[i])
    ensures body == Join(numbers, '.') + Marked("-", prerelease) + Marked("+", build)
  {
    hide ParseWithoutBuild, Join, IsNumber;
    match SplitOnce(body, '+')
    case Some((v, b)) =>
      build := Some(b);
      numbers, prerelease := CoreHasWriting(body, v, build);
    case None =>
      build := None;
      numbers, prerelease := CoreHasWriting(body, body, build);
  }

  lemma ReadHasWriting(text: string) returns (w: Writing)
    requires Parse(text).Ok?
    ensures IsWriting(w) && Written(w) == text
  {
    hide TrimStart, TrimEnd, ParseWithoutBuild, Join, IsNumber, StripV, AllSpaces;
    var lead, tag, body, trail := TrimmedParts(text);
    var numbers, prerelease, build := BodyHasWriting(body);
    w := Writing(lead, tag, numbers, prerelease, build, trail);
    NumbersAreSome(numbers);
    assert Body(w) == body;
  }

  lemma NumbersAreSome(numbers: seq<string>)
    requires numbers != [] && forall i :: 0 <= i < |numbers| ==> IsNumber(numbers[i])
    ensures Join(numbers, '.') != []
  {
    JoinedDigits(numbers);
  }

  /** The parser reads a text as a version exactly when the text is a writing of that version. */
  lemma ParseIff(text: string, v: Version)
    ensures Parse(text) == Ok(v) <==> exists w :: IsWriting(w) && Written(w) == text && Denoted(w) == v
  {
    hide Parse, Written, IsWriting, Denoted;
    if Parse(text) == Ok(v) {
      var w := ReadHasWriting(text);
      WritingIsRead(w);
    }
    if w :| IsWriting(w) && Written(w) == text && Denoted(w) == v {
      WritingIsRead(w);
    }
  }

  // ---------------------------------------------------------------------------
  // Printed versions.
  // ---------------------------------------------------------------------------

  function Printed(ns: seq<U64>): (numbers: seq<string>)
    ensures |numbers| == |ns|
  {
    seq(|ns|, i requires 0 <= i < |ns| => Decimal(ns[i]))
  }

  /** Printing one, two or three numbers with all that may surround them, and parsing: the same numbers,
      zeros for missing ones, the pre-release and the build metadata come back. */
  lemma PrintedIsParsed(
    lead: string, tag: string, ns: seq<U64>, prerelease: Option<string>, build: Option<string>, trail: string)
    requires AllSpaces(lead) && AllSpaces(trail) && tag in ["", "v", "V"] && 1 <= |ns| <= 3
    requires prerelease.Some? ==> '+' !in prerelease.value
    requires var end := Marked("-", prerelease) + Marked("+", build); end != [] ==> !IsSpace(end[|end| - 1])
    ensures Parse(
              lead + (tag + (Join(Printed(ns), '.') + Marked("-", prerelease) + Marked("+", build))) + trail)
         == Ok(Version(
              ns[0], if |ns| > 1 then ns[1] else 0, if |ns| > 2 then ns[2] else 0, prerelease, build))
  {
    hide Parse, Decimal, DigitsValue;
    var w := Writing(lead, tag, Printed(ns), prerelease, build, trail);
    forall i | 0 <= i < |ns|
      ensures AllDigits(w.numbers[i]) && DigitsValue(w.numbers[i]) == ns[i]
    {
      DecimalDenotes(ns[i]);
    }
    PrintedEnds(w.numbers);
    var end := Marked("-", prerelease) + Marked("+", build);
    assert Body(w) == Join(w.numbers, '.') + end;
    WritingIsRead(w);
  }

  lemma {:induction false} PrintedEnds(numbers: seq<string>)
    requires numbers != [] && forall i :: 0 <= i < |numbers| ==> IsNumber(numbers[i])
    ensures Join(numbers, '.') != [] && !IsSpace(Join(numbers, '.')[|Join(numbers, '.')| - 1])
  {
    if |numbers| > 1 {
      PrintedEnds(numbers[1..]);
    } else {
      assert IsDigit(numbers[0][|numbers[0]| - 1]);
    }
  }

  // ---------------------------------------------------------------------------
  // The operators on texts.
  // ---------------------------------------------------------------------------

  /** On writings of versions that 64 bits represent, the operators are those of section 11, and the
      ranges are half-open intervals of it. Any other operator is an error. */
  lemma OperatorsFollowSection11(x: Writing, y: Writing, operator: string)
    requires IsWriting(x) && IsWriting(y)
    requires RepresentableVersion(Denoted(x)) && RepresentableVersion(Denoted(y))
    ensures
      var v, t := Denoted(x), Denoted(y);
      var answer := SemVer.SemVer(Written(x), operator, Written(y));
      && (operator == "=" ==> answer == Ok(!Section11Lower(v, t) && !Section11Lower(t, v)))
      && (operator == "!=" ==> answer == Ok(Section11Lower(v, t) || Section11Lower(t, v)))
      && (operator == "<" ==> answer == Ok(Section11Lower(v, t)))
      && (operator == "<=" ==> answer == Ok(!Section11Lower(t, v)))
      && (operator == ">" ==> answer == Ok(Section11Lower(t, v)))
      && (operator == ">=" ==> answer == Ok(!Section11Lower(v, t)))
      && (operator == "^" ==> answer == Ok(!Section11Lower(v, t) && BelowNextBreaking(v, t)))
      && (operator == "~" ==> answer == Ok(!Section11Lower(v, t) && CoreBelow(v, t.major, t.minor + 1, 0)))
      && (operator !in ["=", "!=", "<", "<=", ">", ">=", "^", "~"] ==> answer == Err(UnknownOperator(operator)))
  {
    hide Parse, Compare, Section11Lower, Written, IsWriting, Denoted, RepresentableVersion;
    WritingIsRead(x);
    WritingIsRead(y);
    var v, t := Denoted(x), Denoted(y);
    CompareAgreesWithSection11(v, t);
    CaretIsInterval(v, t);
    TildeIsInterval(v, t);
  }

  /** A text that is no writing of a version makes every comparison fail. */
  lemma UnwrittenIsRefused(text: string, operator: string, other: string)
    requires forall w :: IsWriting(w) ==> Written(w) != text
    ensures SemVer.SemVer(text, operator, other).Err? && SemVer.SemVer(other, operator, text).Err?
  {
    hide Parse, Written, IsWriting;
    if Parse(text).Ok? {
      var w := ReadHasWriting(text);
    }
    UnreadableAnswers(text, operator, other);
  }
}
