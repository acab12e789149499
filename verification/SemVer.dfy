/** src/operators/sem_ver.rs: semantic versions, their order and the eight comparison operators. */
module SemVer {
  import opened Common
  import opened Text

  /** `char::is_whitespace`, the characters that `str::trim` removes. */
  predicate IsSpace(c: char) {
    || '\t' <= c <= '\r' || c == ' ' || c == '\U{85}' || c == '\U{A0}' || c == '\U{1680}'
    || '\U{2000}' <= c <= '\U{200A}' || c == '\U{2028}' || c == '\U{2029}' || c == '\U{202F}'
    || c == '\U{205F}' || c == '\U{3000}'
  }

  function TrimStart(s: string): string {
    if s != [] && IsSpace(s[0]) then TrimStart(s[1..]) else s
  }

  function TrimEnd(s: string): string {
    if s != [] && IsSpace(s[|s| - 1]) then TrimEnd(s[..|s| - 1]) else s
  }

  datatype Version = Version(
    major: U64, minor: U64, patch: U64, prerelease: Option<string>, build: Option<string>)

  datatype VersionError =
    | EmptyVersion
    | InvalidFormat(text: string)
    | InvalidMajor(text: string)
    | InvalidMinor(text: string)
    | InvalidPatch(text: string)
    | UnknownOperator(text: string)

  function Parse(text: string): Result<Version, VersionError> {
    var trimmed := TrimEnd(TrimStart(text));
    if trimmed == "" then Err(EmptyVersion) else
    var version := StripV(trimmed);
    match SplitOnce(version, '+')
    case Some((v, b)) => ParseWithoutBuild(version, v, Some(b))
    case None => ParseWithoutBuild(version, version, None)
  }

  /** A leading `v` or `V` is common in version tags. */
  function StripV(s: string): string
    requires s != []
  {
    if s[0] == 'v' || s[0] == 'V' then s[1..] else s
  }

  function ParseWithoutBuild(
    version: string, versionPre: string, build: Option<string>): Result<Version, VersionError> {
    var (core, prerelease) :=
      match SplitOnce(versionPre, '-')
      case Some((v, p)) => (v, Some(p))
      case None => (versionPre, None);
    var parts := Split(core, '.');
    if |parts| > 3 then Err(InvalidFormat(version)) else
    var major := ParseU64(parts[0]);
    if major.None? then Err(InvalidMajor(parts[0])) else
    var minor := if |parts| > 1 then ParseU64(parts[1]) else Some(0);
    if minor.None? then Err(InvalidMinor(parts[1])) else
    var patch := if |parts| > 2 then ParseU64(parts[2]) else Some(0);
    if patch.None? then Err(InvalidPatch(parts[2])) else
    Ok(Version(major.value, minor.value, patch.value, prerelease, build))
  }

  function CompareIdentifier(a: string, b: string): Ordering {
    match (ParseU64(a), ParseU64(b))
    case (Some(x), Some(y)) => CompareInt(x, y)
    case (Some(_), None) => Less
    case (None, Some(_)) => Greater
    case (None, None) => CompareText(a, b)
  }

  /** The zip loop: the first unequal pair decides, then the number of parts. */
  function CompareParts(a: seq<string>, b: seq<string>): Ordering {
    if a == [] || b == [] then CompareInt(|a|, |b|)
    else if CompareIdentifier(a[0], b[0]) != Equal then CompareIdentifier(a[0], b[0])
    else CompareParts(a[1..], b[1..])
  }

  function ComparePrerelease(a: Option<string>, b: Option<string>): Ordering {
    match (a, b)
    case (None, None) => Equal
    case (None, Some(_)) => Greater
    case (Some(_), None) => Less
    case (Some(x), Some(y)) => CompareParts(Split(x, '.'), Split(y, '.'))
  }

  function Compare(a: Version, b: Version): Ordering {
    if CompareInt(a.major, b.major) != Equal then CompareInt(a.major, b.major)
    else if CompareInt(a.minor, b.minor) != Equal then CompareInt(a.minor, b.minor)
    else if CompareInt(a.patch, b.patch) != Equal then CompareInt(a.patch, b.patch)
    else ComparePrerelease(a.prerelease, b.prerelease)
  }

  function Caret(v: Version, t: Version): bool {
    if Compare(v, t) == Less then false
    else if t.major == 0 then
      if t.minor == 0 then v.major == 0 && v.minor == 0 && v.patch == t.patch
      else v.major == 0 && v.minor == t.minor
    else v.major == t.major
  }

  function Tilde(v: Version, t: Version): bool {
    if Compare(v, t) == Less then false else v.major == t.major && v.minor == t.minor
  }

  /** The operator table on parsed versions; `None` is an unknown operator. */
  function Apply(v: Version, operator: string, t: Version): Option<bool> {
    if operator == "=" then Some(Compare(v, t) == Equal)
    else if operator == "!=" then Some(Compare(v, t) != Equal)
    else if operator == "<" then Some(Compare(v, t) == Less)
    else if operator == "<=" then Some(Compare(v, t) != Greater)
    else if operator == ">" then Some(Compare(v, t) == Greater)
    else if operator == ">=" then Some(Compare(v, t) != Less)
    else if operator == "^" then Some(Caret(v, t))
    else if operator == "~" then Some(Tilde(v, t))
    else None
  }

  function SemVer(version: string, operator: string, target: string): Result<bool, VersionError> {
    match Parse(version)
    case Err(e) => Err(e)
    case Ok(v) =>
      match Parse(target)
      case Err(e) => Err(e)
      case Ok(t) =>
        match Apply(v, operator, t)
        case None => Err(UnknownOperator(operator))
        case Some(b) => Ok(b)
  }

  // ---------------------------------------------------------------------------
  // The order is a total preorder.
  // ---------------------------------------------------------------------------

  lemma IdentifierReverse(a: string, b: string)
    ensures CompareIdentifier(b, a) == CompareIdentifier(a, b).Reverse()
  {
    CompareTextReverse(a, b);
  }

  /** Identifiers of equal precedence are interchangeable, and `Less` composes. */
  lemma IdentifierTransitive(a: string, b: string, c: string)
    ensures CompareIdentifier(a, b) == Equal ==> CompareIdentifier(a, c) == CompareIdentifier(b, c)
    ensures CompareIdentifier(a, b) == Less && CompareIdentifier(b, c) == Less ==> CompareIdentifier(a, c) == Less
  {
    CompareTextReverse(a, b);
    if CompareText(a, b) == Less && CompareText(b, c) == Less {
      CompareTextTransitive(a, b, c);
    }
  }

  lemma {:induction false} PartsReverse(a: seq<string>, b: seq<string>)
    ensures CompareParts(b, a) == CompareParts(a, b).Reverse()
  {
    if a != [] && b != [] {
      IdentifierReverse(a[0], b[0]);
      PartsReverse(a[1..], b[1..]);
    }
  }

  lemma {:induction false} PartsTransitive(a: seq<string>, b: seq<string>, c: seq<string>)
    ensures CompareParts(a, b) == Equal ==> CompareParts(a, c) == CompareParts(b, c)
    ensures CompareParts(a, b) == Less && CompareParts(b, c) == Less ==> CompareParts(a, c) == Less
  {
    if a != [] && b != [] && c != [] {
      IdentifierTransitive(a[0], b[0], c[0]);
      IdentifierReverse(a[0], b[0]);
      IdentifierReverse(b[0], c[0]);
      IdentifierTransitive(c[0], b[0], a[0]);
      IdentifierReverse(a[0], c[0]);
      PartsTransitive(a[1..], b[1..], c[1..]);
    }
  }

  /** Swapping the operands reverses the answer, so the order is reflexive and total. */
  lemma CompareReverse(a: Version, b: Version)
    ensures Compare(b, a) == Compare(a, b).Reverse()
    ensures Compare(a, a) == Equal
  {
    if a.prerelease.Some? {
      PartsReverse(Split(a.prerelease.value, '.'), Split(a.prerelease.value, '.'));
      if b.prerelease.Some? {
        PartsReverse(Split(a.prerelease.value, '.'), Split(b.prerelease.value, '.'));
      }
    }
  }

  lemma CompareTransitive(a: Version, b: Version, c: Version)
    ensures Compare(a, b) == Equal ==> Compare(a, c) == Compare(b, c)
    ensures Compare(a, b) == Less && Compare(b, c) == Less ==> Compare(a, c) == Less
    ensures Compare(a, b) != Greater && Compare(b, c) != Greater ==> Compare(a, c) != Greater
  {
    CompareStrict(a, b, c);
    CompareStrict(c, b, a);
    CompareReverse(a, b);
    CompareReverse(b, c);
    CompareReverse(a, c);
  }

  lemma CompareStrict(a: Version, b: Version, c: Version)
    ensures Compare(a, b) == Equal ==> Compare(a, c) == Compare(b, c)
    ensures Compare(a, b) == Less && Compare(b, c) == Less ==> Compare(a, c) == Less
  {
    if a.prerelease.Some? && b.prerelease.Some? && c.prerelease.Some? {
      PartsTransitive(Split(a.prerelease.value, '.'), Split(b.prerelease.value, '.'), Split(c.prerelease.value, '.'));
    }
  }

  // ---------------------------------------------------------------------------
  // Section 11 of Semantic Versioning 2.0.0, stated without looking at the code.
  // ---------------------------------------------------------------------------

  /** Rule 11.4.2: lexically in ASCII order. */
  ghost predicate AsciiLower(a: string, b: string) {
    exists k: nat :: k <= |a| && k <= |b| && a[..k] == b[..k] && DecidesText(a, b, k)
  }

  ghost predicate DecidesText(a: string, b: string, k: nat)
    requires k <= |a| && k <= |b|
  {
    if k == |a| || k == |b| then |a| < |b| else a[k] < b[k]
  }

  /** Rules 11.4.1 to 11.4.3, with numeric identifiers of any size. */
  ghost predicate IdentifierLower(a: string, b: string) {
    if AllDigits(a) && AllDigits(b) then DigitsValue(a) < DigitsValue(b)
    else if AllDigits(a) || AllDigits(b) then AllDigits(a)
    else AsciiLower(a, b)
  }

  ghost predicate SamePrecedence(a: string, b: string) {
    !IdentifierLower(a, b) && !IdentifierLower(b, a)
  }

  /** Rule 11.4: left to right until a difference is found, else the longer list is higher (11.4.4). */
  ghost predicate PrereleaseLower(a: seq<string>, b: seq<string>) {
    exists k: nat :: k <= |a| && k <= |b| && (forall i :: 0 <= i < k ==> SamePrecedence(a[i], b[i]))
        && DecidesList(a, b, k)
  }

  ghost predicate DecidesList(a: seq<string>, b: seq<string>, k: nat)
    requires k <= |a| && k <= |b|
  {
    if k == |a| || k == |b| then |a| < |b| else IdentifierLower(a[k], b[k])
  }

  /** Rules 11.2 to 11.4 together. */
  ghost predicate Section11Lower(a: Version, b: Version) {
    if a.major != b.major then a.major < b.major
    else if a.minor != b.minor then a.minor < b.minor
    else if a.patch != b.patch then a.patch < b.patch
    else if a.prerelease.None? || b.prerelease.None? then a.prerelease.Some? && b.prerelease.None?
    else PrereleaseLower(Split(a.prerelease.value, '.'), Split(b.prerelease.value, '.'))
  }

  /** Section 9 allows no `+` inside an identifier; numeric ones must fit in 64 bits here. */
  predicate Representable(id: string) {
    && (id == [] || id[0] != '+')
    && (AllDigits(id) ==> DigitsValue(id) < TWO_64)
  }

  predicate RepresentableVersion(v: Version) {
    v.prerelease.Some? ==>
      var parts := Split(v.prerelease.value, '.');
      forall i :: 0 <= i < |parts| ==> Representable(parts[i])
  }

  lemma PrefixesShareFirst(a: string, b: string, k: nat)
    requires 0 < |a| && 0 < |b| && k <= |a| && k <= |b| && a[..k] == b[..k]
    ensures k > 0 ==> a[0] == b[0]
  {
    if k > 0 {
      assert a[0] == a[..k][0] && b[0] == b[..k][0];
    }
  }

  lemma {:induction false} AsciiAgrees(a: string, b: string)
    ensures CompareText(a, b) == Less <==> AsciiLower(a, b)
  {
    if a == [] || b == [] {
      assert CompareText(a, b) == Less ==> a[..0] == b[..0] && DecidesText(a, b, 0);
    } else if a[0] != b[0] {
      assert a[..0] == b[..0];
      assert CompareText(a, b) == Less ==> DecidesText(a, b, 0);
      forall k: nat | k <= |a| && k <= |b| && a[..k] == b[..k] && DecidesText(a, b, k)
        ensures k == 0
      {
        PrefixesShareFirst(a, b, k);
      }
    } else {
      AsciiAgrees(a[1..], b[1..]);
      if AsciiLower(a[1..], b[1..]) {
        var k: nat :| k <= |a[1..]| && k <= |b[1..]| && a[1..][..k] == b[1..][..k] && DecidesText(a[1..], b[1..], k);
        assert a[..k + 1] == [a[0]] + a[1..][..k] && b[..k + 1] == [b[0]] + b[1..][..k];
        assert DecidesText(a, b, k + 1);
      }
      if AsciiLower(a, b) {
        var k: nat :| k <= |a| && k <= |b| && a[..k] == b[..k] && DecidesText(a, b, k);
        assert k > 0;
        assert a[1..][..k - 1] == a[..k][1..] && b[1..][..k - 1] == b[..k][1..];
        assert DecidesText(a[1..], b[1..], k - 1);
      }
    }
  }

  lemma IdentifierAgrees(a: string, b: string)
    requires Representable(a) && Representable(b)
    ensures CompareIdentifier(a, b) == Less <==> IdentifierLower(a, b)
    ensures CompareIdentifier(a, b) == Equal <==> SamePrecedence(a, b)
  {
    AsciiAgrees(a, b);
    AsciiAgrees(b, a);
    CompareTextReverse(a, b);
    assert ParseU64(a).Some? <==> AllDigits(a);
    assert ParseU64(b).Some? <==> AllDigits(b);
  }

  lemma {:induction false} PrereleaseAgrees(a: seq<string>, b: seq<string>)
    requires forall i :: 0 <= i < |a| ==> Representable(a[i])
    requires forall i :: 0 <= i < |b| ==> Representable(b[i])
    ensures CompareParts(a, b) == Less <==> PrereleaseLower(a, b)
  {
    if a == [] || b == [] {
      assert CompareParts(a, b) == Less ==> DecidesList(a, b, 0);
    } else {
      IdentifierAgrees(a[0], b[0]);
      if CompareIdentifier(a[0], b[0]) != Equal {
        assert CompareParts(a, b) == Less ==> DecidesList(a, b, 0);
      } else {
        PrereleaseAgrees(a[1..], b[1..]);
        if PrereleaseLower(a[1..], b[1..]) {
          var k: nat :|
            && k <= |a[1..]| && k <= |b[1..]| && (forall i :: 0 <= i < k ==> SamePrecedence(a[1..][i], b[1..][i]))
            && DecidesList(a[1..], b[1..], k);
          forall i | 0 <= i < k + 1 ensures SamePrecedence(a[i], b[i]) {
            if i > 0 {
              assert a[i] == a[1..][i - 1] && b[i] == b[1..][i - 1];
            }
          }
          assert DecidesList(a, b, k + 1);
        }
        if PrereleaseLower(a, b) {
          var k: nat :| k <= |a| && k <= |b| && (forall i :: 0 <= i < k ==> SamePrecedence(a[i], b[i]))
              && DecidesList(a, b, k);
          assert k > 0;
          assert DecidesList(a[1..], b[1..], k - 1);
        }
      }
    }
  }

  /** The code's order is the one of section 11 whenever every identifier is representable. */
  lemma CompareAgreesWithSection11(a: Version, b: Version)
    requires RepresentableVersion(a) && RepresentableVersion(b)
    ensures Compare(a, b) == Less <==> Section11Lower(a, b)
    ensures Compare(a, b) == Greater <==> Section11Lower(b, a)
  {
    CompareReverse(a, b);
    if a.prerelease.Some? && b.prerelease.Some? {
      PrereleaseAgrees(Split(a.prerelease.value, '.'), Split(b.prerelease.value, '.'));
      PrereleaseAgrees(Split(b.prerelease.value, '.'), Split(a.prerelease.value, '.'));
    }
  }

  // ---------------------------------------------------------------------------
  // Beyond 64 bits.
  // ---------------------------------------------------------------------------

  /** Parsing leaves no `+` in a pre-release: everything after the first one is build metadata. */
  predicate WithoutPlus(v: Version) { v.prerelease.Some? ==> '+' !in v.prerelease.value }

  lemma ParsedWithoutPlus(text: string)
    requires Parse(text).Ok?
    ensures WithoutPlus(Parse(text).value)
  {
    hide TrimStart, TrimEnd, ParseWithoutBuild;
    var version := StripV(TrimEnd(TrimStart(text)));
    match SplitOnce(version, '+')
    case Some((v, b)) => PrereleaseOf(version, v, Some(b));
    case None => PrereleaseOf(version, version, None);
  }

  lemma PrereleaseOf(version: string, pre: string, build: Option<string>)
    requires '+' !in pre && ParseWithoutBuild(version, pre, build).Ok?
    ensures WithoutPlus(ParseWithoutBuild(version, pre, build).value)
  {
    hide ParseU64, Split;
    var split := SplitOnce(pre, '-');
    if split.Some? {
      assert forall c :: c in split.value.1 ==> c in pre;
    }
  }

  ghost predicate Agree(v: Version, w: Version) {
    && (Compare(v, w) == Less <==> Section11Lower(v, w))
    && (Compare(v, w) == Greater <==> Section11Lower(w, v))
  }

  /** The version whose pre-release stops at the first oversized identifier of `v`, with a hyphen there. */
  function Witness(v: Version, parts: seq<string>, k: nat): Version
    requires k <= |parts|
  {
    v.(prerelease := Some(Join(parts[..k] + ["-"], '.')))
  }

  lemma {:induction false} EqualPartsCompareTails(a: seq<string>, b: seq<string>, k: nat)
    requires k <= |a| && k <= |b| && a[..k] == b[..k]
    ensures CompareParts(a, b) == CompareParts(a[k..], b[k..])
  {
    if k > 0 {
      assert a[0] == a[..k][0] == b[..k][0] == b[0];
      CompareTextReverse(a[0], a[0]);
      assert a[1..][..k - 1] == a[..k][1..] == b[..k][1..] == b[1..][..k - 1];
      EqualPartsCompareTails(a[1..], b[1..], k - 1);
      assert a[1..][k - 1..] == a[k..] && b[1..][k - 1..] == b[k..];
    } else {
      assert a[0..] == a && b[0..] == b;
    }
  }

  lemma NothingPrecedesItself(a: string)
    ensures SamePrecedence(a, a)
  {
    AsciiAgrees(a, a);
    CompareTextReverse(a, a);
  }

  /** Section 11 puts a number before a hyphen; the code puts one that it cannot read after it. */
  lemma OversizedPartDisagrees(a: seq<string>, b: seq<string>, k: nat)
    requires k < |a| && |b| == k + 1 && a[..k] == b[..k] && b[k] == "-"
    requires AllDigits(a[k]) && DigitsValue(a[k]) >= TWO_64
    ensures CompareParts(a, b) == Greater && PrereleaseLower(a, b)
  {
    EqualPartsCompareTails(a, b, k);
    assert a[k..][0] == a[k] && b[k..][0] == b[k];
    assert a[k][0] != '+' && a[k][0] > '-';
    assert CompareIdentifier(a[k], b[k]) == CompareText(a[k], "-") == Greater;
    forall i | 0 <= i < k
      ensures SamePrecedence(a[i], b[i])
    {
      assert a[i] == a[..k][i] == b[..k][i] == b[i];
      NothingPrecedesItself(a[i]);
    }
    assert DecidesList(a, b, k);
  }

  lemma WitnessDisagrees(v: Version, k: nat)
    requires v.prerelease.Some? && k < |Split(v.prerelease.value, '.')|
    requires var parts := Split(v.prerelease.value, '.');
             && AllDigits(parts[k]) && DigitsValue(parts[k]) >= TWO_64
             && forall i :: 0 <= i < k ==> Representable(parts[i])
    ensures var w := Witness(v, Split(v.prerelease.value, '.'), k); RepresentableVersion(w) && !Agree(v, w)
  {
    var parts := Split(v.prerelease.value, '.');
    var kept := parts[..k] + ["-"];
    SplitPartsHaveNone(v.prerelease.value, '.');
    SplitInvertsJoin(kept, '.');
    OversizedPartDisagrees(parts, kept, k);
  }

  /** Against all versions that 64 bits can represent, the code orders a version as section 11 does
      exactly when 64 bits can represent that version too. */
  lemma AgreesIffRepresentable(v: Version)
    requires WithoutPlus(v)
    ensures (forall w :: RepresentableVersion(w) ==> Agree(v, w)) <==> RepresentableVersion(v)
  {
    if RepresentableVersion(v) {
      forall w | RepresentableVersion(w)
        ensures Agree(v, w)
      {
        CompareAgreesWithSection11(v, w);
      }
    } else {
      var parts := Split(v.prerelease.value, '.');
      var k := FirstOversized(parts, 0);
      SplitPartsAreParts(v.prerelease.value, '.');
      assert parts[k] == [] || parts[k][0] in parts[k];
      WitnessDisagrees(v, k);
      assert !Agree(v, Witness(v, parts, k));
    }
  }

  lemma FirstOversized(parts: seq<string>, from: nat) returns (k: nat)
    requires from <= |parts| && exists i :: from <= i < |parts| && !Representable(parts[i])
    ensures from <= k < |parts| && !Representable(parts[k])
    ensures forall i :: from <= i < k ==> Representable(parts[i])
    decreases |parts| - from
  {
    k := from;
    if Representable(parts[from]) {
      k := FirstOversized(parts, from + 1);
    }
  }

  lemma TrimsNothing(s: string)
    requires s != [] && !IsSpace(s[0]) && !IsSpace(s[|s| - 1])
    ensures TrimEnd(TrimStart(s)) == s
  {
  }

  lemma SplitOneZeroZero()
    ensures Split("1.0.0", '.') == ["1", "0", "0"]
  {
    assert "1.0.0" == "1" + ['.'] + "0.0" && "0.0" == "0" + ['.'] + "0";
    SplitOnceConcat("1", "0.0", '.');
    SplitOnceConcat("0", "0", '.');
    SplitNothing("0", '.');
  }

  lemma ParseOneZeroZero(p: string)
    ensures ParseWithoutBuild("1.0.0-" + p, "1.0.0-" + p, None) == Ok(Version(1, 0, 0, Some(p), None))
  {
    hide ParseU64, Split, SplitOnce;
    assert "1.0.0-" + p == "1.0.0" + ['-'] + p;
    SplitOnceConcat("1.0.0", p, '-');
    SplitOneZeroZero();
    OneDigit();
  }

  lemma OneDigit()
    ensures ParseU64("1") == Some(1) && ParseU64("0") == Some(0)
  {
  }

  lemma ParseRelease(p: string)
    requires p != [] && '+' !in p && !IsSpace(p[|p| - 1])
    ensures Parse("1.0.0-" + p) == Ok(Version(1, 0, 0, Some(p), None))
  {
    hide ParseWithoutBuild, Parse, TrimStart, TrimEnd;
    var text := "1.0.0-" + p;
    assert text[0] == '1' && text[|text| - 1] == p[|p| - 1] && '+' !in text;
    TrimsNothing(text);
    ParsePlain(text, text);
    ParseOneZeroZero(p);
  }

  /** For example, the operator takes 10^20 for lower than 10^20 - 1, since it compares them as text. */
  lemma OversizedVersionsDisagree()
    ensures SemVer("1.0.0-" + "100000000000000000000", "<", "1.0.0-" + "99999999999999999999") == Ok(true)
    ensures Parse("1.0.0-" + "99999999999999999999").Ok? && Parse("1.0.0-" + "100000000000000000000").Ok?
    ensures Section11Lower(
              Parse("1.0.0-" + "99999999999999999999").value, Parse("1.0.0-" + "100000000000000000000").value)
  {
    hide Parse, ParseU64, Split, DigitsValue;
    var a, b := "99999999999999999999", "100000000000000000000";
    ParseRelease(a);
    ParseRelease(b);
    OversizedPartsDisagree(a, b);
    var v, w := Version(1, 0, 0, Some(a), None), Version(1, 0, 0, Some(b), None);
    assert Compare(w, v) == Less && Section11Lower(v, w);
  }

  lemma OversizedPartsDisagree(a: string, b: string)
    requires a == "99999999999999999999" && b == "100000000000000000000"
    ensures CompareParts(Split(b, '.'), Split(a, '.')) == Less
    ensures PrereleaseLower(Split(a, '.'), Split(b, '.'))
  {
    hide ParseU64, DigitsValue, CompareIdentifier, IdentifierLower;
    assert '.' !in a && '.' !in b;
    SplitNothing(a, '.');
    SplitNothing(b, '.');
    OversizedIdentifiersDisagree();
    assert DecidesList([a], [b], 0);
  }

  lemma OversizedIdentifiersDisagree()
    ensures CompareIdentifier("100000000000000000000", "99999999999999999999") == Less
    ensures IdentifierLower("99999999999999999999", "100000000000000000000")
  {
    hide DigitsValue, ParseU64, CompareIdentifier, IdentifierLower;
    var a, b := "99999999999999999999", "100000000000000000000";
    DigitsOf20Nines();
    assert a[0] == '9' && b[0] == '1';
    assert AllDigits(a) && AllDigits(b);
    OversizedAreText(a, b);
    OversizedAreText(b, a);
  }

  /** Two numbers beyond 64 bits: the code looks at the first digit, section 11 at the value. */
  lemma OversizedAreText(a: string, b: string)
    requires AllDigits(a) && AllDigits(b) && DigitsValue(a) >= TWO_64 && DigitsValue(b) >= TWO_64
    ensures a[0] < b[0] ==> CompareIdentifier(a, b) == Less
    ensures IdentifierLower(a, b) <==> DigitsValue(a) < DigitsValue(b)
  {
  }

  lemma {:induction false} DigitsLowerBound(s: string)
    requires AllDigits(s)
    ensures s[0] != '0' ==> DigitsValue(s) >= Pow10(|s| - 1)
    ensures DigitsValue(s) < Pow10(|s|)
  {
    if |s| > 1 {
      DigitsLowerBound(s[..|s| - 1]);
    }
  }

  function Pow10(n: nat): nat { if n == 0 then 1 else 10 * Pow10(n - 1) }

  lemma DigitsOf20Nines()
    ensures TWO_64 <= DigitsValue("99999999999999999999") < DigitsValue("100000000000000000000")
  {
    DigitsLowerBound("99999999999999999999");
    DigitsLowerBound("100000000000000000000");
    assert Pow10(4) == 10000;
    assert Pow10(8) == 10000_0000;
    assert Pow10(12) == 10000_0000_0000;
    assert Pow10(16) == 10000_0000_0000_0000;
    assert Pow10(20) == 10000_0000_0000_0000_0000;
    var s := "99999999999999999999";
    assert s == "9999999999999999999" + "9";
    assert s[..19] == "9999999999999999999";
    DigitsLowerBound(s[..19]);
    NinesValue(s);
  }

  lemma {:induction false} NinesValue(s: string)
    requires forall i :: 0 <= i < |s| ==> s[i] == '9'
    ensures DigitsValue(s) == Pow10(|s|) - 1
  {
    if s != [] {
      NinesValue(s[..|s| - 1]);
    }
  }

  // ---------------------------------------------------------------------------
  // Operators.
  // ---------------------------------------------------------------------------

  lemma EqualVersionsApply(a: Version, b: Version, operator: string, c: Version)
    requires Compare(a, b) == Equal
    ensures Apply(a, operator, c) == Apply(b, operator, c)
    ensures Apply(c, operator, a) == Apply(c, operator, b)
  {
    CompareTransitive(a, b, c);
    CompareReverse(a, c);
    CompareReverse(b, c);
    assert a.major == b.major && a.minor == b.minor && a.patch == b.patch;
  }

  /** Versions that compare equal can replace each other on either side of every operator. */
  lemma EqualVersionsInterchange(v: string, w: string, operator: string, t: string)
    requires SemVer(v, "=", w) == Ok(true)
    ensures SemVer(v, operator, t) == SemVer(w, operator, t)
    ensures SemVer(t, operator, v) == SemVer(t, operator, w)
  {
    assert Parse(v).Ok? && Parse(w).Ok?;
    if Parse(t).Ok? {
      EqualVersionsApply(Parse(v).value, Parse(w).value, operator, Parse(t).value);
    }
  }

  lemma {:induction false} TrimStartConcat(a: string, b: string)
    requires a != [] && !IsSpace(a[|a| - 1])
    ensures TrimStart(a) != [] && TrimStart(a)[|TrimStart(a)| - 1] == a[|a| - 1]
    ensures TrimStart(a + b) == TrimStart(a) + b
    ensures forall c :: c !in a ==> c !in TrimStart(a)
  {
    if IsSpace(a[0]) {
      assert (a + b)[1..] == a[1..] + b;
      TrimStartConcat(a[1..], b);
    }
  }

  lemma {:induction false} TrimEndKeeps(a: string, b: string)
    requires a != [] && !IsSpace(a[|a| - 1])
    ensures exists b' :: TrimEnd(a + b) == a + b'
  {
    if b == [] {
      assert a + b == a + [];
    } else if IsSpace(b[|b| - 1]) {
      assert (a + b)[..|a + b| - 1] == a + b[..|b| - 1];
      TrimEndKeeps(a, b[..|b| - 1]);
    }
  }

  /** The same answer, or none both times. */
  predicate SameAnswer(a: Result<bool, VersionError>, b: Result<bool, VersionError>) {
    (a.Ok? <==> b.Ok?) && (a.Ok? ==> a.value == b.value)
  }

  /** Appending `+build` to the version, on either side of any operator, changes no answer. */
  ghost predicate BuildIsIgnored(v: string) {
    forall build: string, operator: string, t: string ::
      && SameAnswer(SemVer(v, operator, t), SemVer(v + "+" + build, operator, t))
      && SameAnswer(SemVer(t, operator, v), SemVer(t, operator, v + "+" + build))
  }

  /** White space at the end, before what would become the first `+`. */
  predicate EndsInSpace(v: string) { '+' !in v && v != [] && IsSpace(v[|v| - 1]) }

  lemma BuildMetadataIgnored(v: string, build: string, operator: string, t: string)
    requires !EndsInSpace(v)
    ensures SameAnswer(SemVer(v, operator, t), SemVer(v + "+" + build, operator, t))
    ensures SameAnswer(SemVer(t, operator, v), SemVer(t, operator, v + "+" + build))
  {
    hide Parse, Apply;
    ParseWithBuild(v, build);
    if Parse(v).Ok? && Parse(t).Ok? {
      OnlyBuildDiffers(Parse(v).value, Parse(v + "+" + build).value, operator, Parse(t).value);
    }
  }

  lemma OnlyBuildDiffers(a: Version, b: Version, operator: string, t: Version)
    requires b == a.(build := b.build)
    ensures Apply(a, operator, t) == Apply(b, operator, t) && Apply(t, operator, a) == Apply(t, operator, b)
  {
    hide Apply;
    CompareReverse(a, a);
    EqualVersionsApply(a, b, operator, t);
  }

  // ---------------------------------------------------------------------------
  // White space before build metadata.
  // ---------------------------------------------------------------------------

  predicate AllSpaces(w: string) { forall i :: 0 <= i < |w| ==> IsSpace(w[i]) }

  lemma {:induction false} TrimEndRest(s: string) returns (w: string)
    ensures s == TrimEnd(s) + w && AllSpaces(w)
    ensures s != [] && IsSpace(s[|s| - 1]) ==> w != []
  {
    if s != [] && IsSpace(s[|s| - 1]) {
      var rest := TrimEndRest(s[..|s| - 1]);
      w := rest + [s[|s| - 1]];
      assert s == s[..|s| - 1] + [s[|s| - 1]];
    } else {
      w := [];
    }
  }

  lemma {:induction false} TrimStartKeepsEnd(s: string)
    ensures TrimStart(s) != [] ==> s != [] && TrimStart(s)[|TrimStart(s)| - 1] == s[|s| - 1]
    ensures forall c :: c in TrimStart(s) ==> c in s
    ensures forall c :: c in s && !IsSpace(c) ==> c in TrimStart(s)
  {
    if s != [] && IsSpace(s[0]) {
      TrimStartKeepsEnd(s[1..]);
      assert s == [s[0]] + s[1..];
    }
  }

  /** Without build metadata parsing sees some `x`; with them it sees `x`, the white space `w`, and `+`. */
  lemma SpaceStays(v: string) returns (x: string, w: string)
    requires EndsInSpace(v) && TrimEnd(TrimStart(v)) != []
    ensures x == StripV(TrimEnd(TrimStart(v))) && Lead(v) == x + w && w != [] && AllSpaces(w)
    ensures '+' !in x && ('-' in v <==> '-' in x)
  {
    hide TrimStart, TrimEnd;
    var s := TrimStart(v);
    TrimStartKeepsEnd(v);
    w := TrimEndRest(s);
    x := StripV(TrimEnd(s));
    StripVConcat(TrimEnd(s), w);
    assert !IsSpace('-') && '-' !in w;
  }

  /** A number does not end in white space. */
  lemma SpacedIsNoNumber(s: string, w: string)
    requires w != [] && AllSpaces(w)
    ensures ParseU64(s + w).None?
  {
    var t := s + w;
    assert IsSpace(t[|t| - 1]) && !IsDigit(t[|t| - 1]) && t[|t| - 1] != '+';
  }

  lemma {:induction false} LongerTextIsHigher(a: string, w: string)
    requires w != []
    ensures CompareText(a, a + w) == Less
  {
    if a != [] {
      assert (a + w)[1..] == a[1..] + w;
      LongerTextIsHigher(a[1..], w);
    }
  }

  lemma SpacedIdentifierIsHigher(a: string, w: string)
    requires w != [] && AllSpaces(w)
    ensures CompareIdentifier(a, a + w) == Less
  {
    hide ParseU64;
    SpacedIsNoNumber(a, w);
    LongerTextIsHigher(a, w);
  }

  lemma SpacedPrereleaseIsHigher(p: string, w: string)
    requires w != [] && AllSpaces(w)
    ensures CompareParts(Split(p, '.'), Split(p + w, '.')) == Less
  {
    hide Split, CompareIdentifier;
    SplitAppend(p, w, '.');
    var a, b := Split(p, '.'), Split(p + w, '.');
    var last := |a| - 1;
    EqualPartsCompareTails(a, b, last);
    SpacedIdentifierIsHigher(a[last], w);
    assert a[last..] == [a[last]] && b[last..] == [a[last] + w];
  }

  /** A core that white space follows cannot be read. */
  lemma SpacedCoreIsRefused(text: string, x: string, w: string, build: Option<string>)
    requires w != [] && AllSpaces(w) && '-' !in x
    ensures ParseWithoutBuild(text, x + w, build).Err?
  {
    hide ParseU64, Split, SplitOnce;
    assert '-' !in w && '-' !in x + w && '.' !in w;
    SplitAppend(x, w, '.');
    var parts := Split(x, '.');
    SpacedIsNoNumber(parts[|parts| - 1], w);
  }

  /** Behind a pre-release it becomes a part of it. */
  lemma SpacedPrereleaseIsRead(text: string, text': string, x: string, w: string, build: Option<string>)
    requires w != [] && AllSpaces(w) && '-' in x
    ensures ParseWithoutBuild(text', x + w, build).Ok? <==> ParseWithoutBuild(text, x, None).Ok?
    ensures ParseWithoutBuild(text, x, None).Ok? ==>
      Compare(ParseWithoutBuild(text, x, None).value, ParseWithoutBuild(text', x + w, build).value) == Less
  {
    hide ParseU64, Split, SplitOnce;
    assert '-' !in w;
    SplitOnceAppend(x, w, '-');
    SpacedPrereleaseIsHigher(SplitOnce(x, '-').value.1, w);
  }

  /** With white space at its end, a version that `+build` is appended to is unreadable if it has no
      pre-release; otherwise it is as readable as before, and strictly higher. */
  lemma SpaceBeforeBuild(v: string, build: string)
    requires EndsInSpace(v)
    ensures '-' !in v ==> Parse(v + "+" + build).Err?
    ensures '-' in v ==> (Parse(v + "+" + build).Ok? <==> Parse(v).Ok?)
    ensures '-' in v && Parse(v).Ok? ==> Compare(Parse(v).value, Parse(v + "+" + build).value) == Less
  {
    hide TrimStart, TrimEnd, Parse, ParseWithoutBuild, Compare;
    var b := TextBeforePlus(v, build);
    ParseSplit(v + "+" + build, Lead(v), b);
    if TrimEnd(TrimStart(v)) == [] {
      OnlySpace(v, Lead(v) + "+" + b, Some(b));
    } else {
      var x, w := SpaceStays(v);
      ParsePlain(v, x);
      if '-' in v {
        SpacedPrereleaseIsRead(x, x + w + "+" + b, x, w, Some(b));
      } else {
        SpacedCoreIsRefused(x + w + "+" + b, x, w, Some(b));
      }
    }
  }

  lemma OnlySpace(v: string, text: string, build: Option<string>)
    requires TrimEnd(TrimStart(v)) == []
    ensures '-' !in v && Lead(v) == [] && Parse(v).Err? && ParseWithoutBuild(text, Lead(v), build).Err?
  {
    hide ParseU64, Split;
    TrimStartKeepsEnd(v);
    FirstIsNoSpace(v);
    var w := TrimEndRest(TrimStart(v));
    assert !IsSpace('-');
    NoCore();
  }

  lemma {:induction false} FirstIsNoSpace(s: string)
    ensures TrimStart(s) != [] ==> !IsSpace(TrimStart(s)[0])
  {
    if s != [] && IsSpace(s[0]) {
      FirstIsNoSpace(s[1..]);
    }
  }

  /** Build metadata never matter for a version exactly when it cannot be read anyway, or white space
      does not stand before what becomes its first `+`. */
  lemma BuildIsIgnoredIff(v: string)
    ensures BuildIsIgnored(v) <==> (Parse(v).Ok? ==> !EndsInSpace(v))
  {
    hide Parse, Compare, SemVer;
    if EndsInSpace(v) && Parse(v).Ok? {
      EqualsItself(v);
      SpacedIsNotEqual(v);
      assert !SameAnswer(SemVer(v, "=", v), SemVer(v + "+" + "", "=", v));
    } else {
      forall build: string, operator: string, t: string
        ensures SameAnswer(SemVer(v, operator, t), SemVer(v + "+" + build, operator, t))
        ensures SameAnswer(SemVer(t, operator, v), SemVer(t, operator, v + "+" + build))
      {
        if EndsInSpace(v) {
          SpaceBeforeBuild(v, build);
          UnreadableAnswers(v, operator, t);
          UnreadableAnswers(v + "+" + build, operator, t);
        } else {
          BuildMetadataIgnored(v, build, operator, t);
        }
      }
    }
  }

  lemma EqualsItself(v: string)
    requires Parse(v).Ok?
    ensures SemVer(v, "=", v) == Ok(true)
  {
    hide Parse;
    CompareReverse(Parse(v).value, Parse(v).value);
  }

  lemma SpacedIsNotEqual(v: string)
    requires EndsInSpace(v) && Parse(v).Ok?
    ensures SemVer(v + "+" + "", "=", v) != Ok(true)
  {
    hide Parse, Compare;
    SpaceBeforeBuild(v, "");
    if '-' in v {
      CompareReverse(Parse(v).value, Parse(v + "+" + "").value);
    }
  }

  lemma UnreadableAnswers(v: string, operator: string, t: string)
    requires Parse(v).Err?
    ensures SemVer(v, operator, t).Err? && SemVer(t, operator, v).Err?
  {
    hide Parse;
  }

  /** The same version, but for its build metadata. */
  ghost predicate SameButBuild(a: Result<Version, VersionError>, b: Result<Version, VersionError>) {
    (a.Ok? <==> b.Ok?) && (a.Ok? ==> b.value == a.value.(build := b.value.build))
  }

  lemma ParseWithBuild(v: string, build: string)
    requires !EndsInSpace(v)
    ensures SameButBuild(Parse(v), Parse(v + "+" + build))
  {
    hide Parse;
    if '+' in v {
      var (a, b) := SplitOnce(v, '+').value;
      assert v == a + "+" + b;
      assert v + "+" + build == a + "+" + (b + "+" + build);
      ParseAfterPlus(a, b, b + "+" + build);
    } else if v == [] {
      NoVersion(build);
      assert v + "+" + build == "+" + build;
    } else {
      ParseFirstBuild(v, build);
    }
  }

  lemma NoVersion(build: string)
    ensures Parse("").Err? && Parse("+" + build).Err?
  {
    hide ParseU64, Split;
    var b := TextBeforePlus("", build);
    assert "" + "+" + build == "+" + build && Lead("") == "";
    ParseSplit("+" + build, "", b);
    NoCore();
  }

  lemma NoCore()
    ensures Split("", '.') == [""] && ParseU64("").None?
  {
  }

  /** What parsing sees of `a + "+" + b`: some `x` that does not depend on `b`, then the first `+`. */
  lemma TextBeforePlus(a: string, b: string) returns (b': string)
    requires '+' !in a
    ensures '+' !in Lead(a)
    ensures var s := TrimEnd(TrimStart(a + "+" + b)); s != [] && StripV(s) == Lead(a) + ("+" + b')
  {
    assert a + "+" + b == (a + "+") + b;
    TrimStartConcat(a + "+", b);
    TrimStartPlus(a);
    var s := TrimStart(a);
    TrimEndKeeps(s + "+", b);
    b' :| TrimEnd((s + "+") + b) == (s + "+") + b';
    assert (s + "+") + b' == s + ("+" + b');
    if s != [] {
      StripVConcat(s, "+" + b');
    } else {
      assert [] + ("+" + b') == "+" + b';
    }
  }

  function Lead(a: string): string {
    var s := TrimStart(a);
    if s == [] then [] else StripV(s)
  }

  lemma {:induction false} TrimStartPlus(a: string)
    requires '+' !in a
    ensures TrimStart(a + "+") == TrimStart(a) + "+" && '+' !in TrimStart(a)
  {
    if a != [] && IsSpace(a[0]) {
      assert (a + "+")[1..] == a[1..] + "+";
      TrimStartPlus(a[1..]);
    } else if a == [] {
      assert a + "+" == "+";
    }
  }

  lemma ParseAfterPlus(a: string, b: string, c: string)
    requires '+' !in a
    ensures SameButBuild(Parse(a + "+" + b), Parse(a + "+" + c))
  {
    hide TrimStart, TrimEnd, Parse;
    var b' := TextBeforePlus(a, b);
    var c' := TextBeforePlus(a, c);
    var x := Lead(a);
    ParseSplit(a + "+" + b, x, b');
    ParseSplit(a + "+" + c, x, c');
    BuildIsCarried(x + "+" + b', x + "+" + c', x, Some(b'), Some(c'));
  }

  lemma ParseFirstBuild(v: string, build: string)
    requires v != [] && '+' !in v && !IsSpace(v[|v| - 1])
    ensures SameButBuild(Parse(v), Parse(v + "+" + build))
  {
    hide Parse;
    var trimmed := TrimBoth(v, build);
    var x := StripV(TrimStart(v));
    StripVConcat(TrimStart(v), "+" + trimmed);
    ParsePlain(v, x);
    ParseSplit(v + "+" + build, x, trimmed);
    BuildIsCarried(x, x + "+" + trimmed, x, None, Some(trimmed));
  }

  lemma ParsePlain(text: string, x: string)
    requires var s := TrimEnd(TrimStart(text)); s != [] && StripV(s) == x
    requires '+' !in x
    ensures Parse(text) == ParseWithoutBuild(x, x, None)
  {
  }

  lemma ParseSplit(text: string, x: string, b: string)
    requires var s := TrimEnd(TrimStart(text)); s != [] && StripV(s) == x + ("+" + b)
    requires '+' !in x
    ensures Parse(text) == ParseWithoutBuild(x + "+" + b, x, Some(b))
  {
    assert x + ("+" + b) == x + ['+'] + b;
    SplitOnceConcat(x, b, '+');
  }

  lemma BuildIsCarried(text: string, text': string, pre: string, b: Option<string>, b': Option<string>)
    ensures ParseWithoutBuild(text, pre, b).Ok? <==> ParseWithoutBuild(text', pre, b').Ok?
    ensures ParseWithoutBuild(text, pre, b).Ok? ==>
      ParseWithoutBuild(text', pre, b').value == ParseWithoutBuild(text, pre, b).value.(build := b')
  {
    hide ParseU64, Split;
  }

  lemma StripVConcat(a: string, b: string)
    requires a != []
    ensures StripV(a + b) == StripV(a) + b
  {
    assert (a + b)[1..] == a[1..] + b;
  }

  lemma TrimBoth(v: string, build: string) returns (trimmed: string)
    requires v != [] && '+' !in v && !IsSpace(v[|v| - 1])
    ensures TrimStart(v) != [] && '+' !in StripV(TrimStart(v))
    ensures TrimEnd(TrimStart(v)) == TrimStart(v)
    ensures TrimEnd(TrimStart(v + "+" + build)) == TrimStart(v) + ("+" + trimmed)
  {
    var s := TrimStart(v);
    assert v + "+" + build == v + ("+" + build);
    TrimStartConcat(v, "+" + build);
    assert s + ("+" + build) == (s + "+") + build;
    TrimEndKeeps(s + "+", build);
    trimmed :| TrimEnd((s + "+") + build) == (s + "+") + trimmed;
    assert (s + "+") + trimmed == s + ("+" + trimmed);
  }

  /** (major, minor, patch) of `v` lexicographically below the triple. */
  predicate CoreBelow(v: Version, major: nat, minor: nat, patch: nat) {
    || v.major < major
    || (v.major == major && v.minor < minor)
    || (v.major == major && v.minor == minor && v.patch < patch)
  }

  /** Below the next change of the first component of `t` that is not zero. */
  predicate BelowNextBreaking(v: Version, t: Version) {
    if t.major > 0 then CoreBelow(v, t.major + 1, 0, 0)
    else if t.minor > 0 then CoreBelow(v, 0, t.minor + 1, 0)
    else CoreBelow(v, 0, 0, t.patch + 1)
  }

  predicate AtLeast(v: Version, t: Version) { Compare(v, t) != Less }

  /** `^t` is the half-open interval from t to the next change of t's first non-zero component. */
  lemma CaretIsInterval(v: Version, t: Version)
    ensures Caret(v, t) <==> AtLeast(v, t) && BelowNextBreaking(v, t)
  {
  }

  /** `~t` is the half-open interval from t to the next minor version. */
  lemma TildeIsInterval(v: Version, t: Version)
    ensures Tilde(v, t) <==> AtLeast(v, t) && CoreBelow(v, t.major, t.minor + 1, 0)
  {
  }

  /** Both ranges are convex in the version order. */
  lemma RangesAreConvex(u: Version, v: Version, w: Version, t: Version)
    requires Compare(u, v) != Greater && Compare(v, w) != Greater
    ensures Caret(u, t) && Caret(w, t) ==> Caret(v, t)
    ensures Tilde(u, t) && Tilde(w, t) ==> Tilde(v, t)
  {
    CompareTransitive(t, u, v);
    CompareReverse(t, u);
    CompareReverse(t, v);
  }

  lemma RangesNest(v: Version, t: Version)
    ensures t.major > 0 && Tilde(v, t) ==> Caret(v, t)
    ensures t.major == 0 && Caret(v, t) ==> Tilde(v, t)
  {
  }
}
