/** What parseEvalResult makes of the text that the evaluator writes: the compact JSON that
    serde_json prints for an EvaluationResult (src/types.rs:49-83). */
module GoRoundTrip {
  import opened Common
  import opened JsonText
  import opened Escape
  import opened GoScan
  import opened GoParse

  /** A metadata value. `MetaOther` is null, an array or an object: permissive validation lets it through. */
  datatype MetaValue = MetaText(s: string) | MetaBool(b: bool) | MetaNumber(lexeme: string) | MetaOther(t: Tree)

  datatype MetaEntry = MetaEntry(key: string, value: MetaValue)

  /** The flag value: a string, or any other JSON value by its text. */
  datatype Payload = PayloadText(s: string) | PayloadTree(t: Tree)

  /** A printed field. `OtherField` is one that the parser does not know. */
  datatype Field =
    | TextField(name: string, s: string)
    | ValueField(payload: Payload)
    | MetaField(entries: seq<MetaEntry>)
    | OtherField(name: string, t: Tree)

  // ---------------------------------------------------------------------------
  // The printer.
  // ---------------------------------------------------------------------------

  function JsonString(s: string): string { Quoted(ItemsOf(SerdeEscaper, s)) }

  function Raw(s: string): string { EscapeText(SerdeEscaper, s) }

  function PrintPayload(p: Payload): string {
    match p
    case PayloadText(s) => JsonString(s)
    case PayloadTree(t) => Print(t)
  }

  function PrintMetaValue(v: MetaValue): string {
    match v
    case MetaText(s) => JsonString(s)
    case MetaBool(b) => if b then "true" else "false"
    case MetaNumber(s) => s
    case MetaOther(t) => Print(t)
  }

  function PrintMeta(es: seq<MetaEntry>): string
    decreases es, 0
  {
    if es == [] then "}"
    else JsonString(es[0].key) + ":" + (PrintMetaValue(es[0].value) + AfterMeta(es[1..]))
  }

  function AfterMeta(es: seq<MetaEntry>): string
    decreases es, 1
  {
    if es == [] then "}" else "," + PrintMeta(es)
  }

  function Name(f: Field): string {
    match f
    case TextField(name, _) => name
    case ValueField(_) => "value"
    case MetaField(_) => "flagMetadata"
    case OtherField(name, _) => name
  }

  function Body(f: Field): string {
    match f
    case TextField(_, s) => JsonString(s)
    case ValueField(p) => PrintPayload(p)
    case MetaField(es) => "{" + PrintMeta(es)
    case OtherField(_, t) => Print(t)
  }

  function PrintFields(fs: seq<Field>): string
    decreases fs, 0
  {
    if fs == [] then "}" else JsonString(Name(fs[0])) + ":" + (Body(fs[0]) + AfterFields(fs[1..]))
  }

  function AfterFields(fs: seq<Field>): string
    decreases fs, 1
  {
    if fs == [] then "}" else "," + PrintFields(fs)
  }

  function PrintObject(fs: seq<Field>): string { "{" + PrintFields(fs) }

  // ---------------------------------------------------------------------------
  // What the parser is expected to hand back: strings as they stand between the quotes.
  // ---------------------------------------------------------------------------

  predicate Printable<V>(dec: Decoder<V>, f: Field) {
    match f
    case TextField(name, _) => IsTextField(name)
    case ValueField(PayloadText(_)) => true
    case ValueField(PayloadTree(t)) =>
      !t.String? && Wf(t) && (t.Word? || DecodeBytes(dec, Print(t)).Some?)
    case MetaField(es) => forall i :: 0 <= i < |es| ==> PrintableMeta(dec, es[i].value)
    case OtherField(name, t) =>
      NeedsNone(name) && !IsTextField(name) && name != "value" && name != "flagMetadata" && Wf(t)
  }

  /** A flat metadata value: the kinds that parseMetadata reads. */
  predicate PrintableMeta<V>(dec: Decoder<V>, v: MetaValue) {
    !v.MetaOther? && (v.MetaNumber? ==> IsNumberText(v.lexeme) && dec.parseFloat(v.lexeme).Some?)
  }

  /** Any metadata value that the evaluator prints. */
  predicate WfMeta<V>(dec: Decoder<V>, v: MetaValue) {
    PrintableMeta(dec, v) || (v.MetaOther? && Wf(v.t) && (v.t == Word("null") || v.t.Container?))
  }

  /** strconv.ParseFloat takes neither `null` nor a text that begins with a bracket. */
  ghost predicate RefusesJson<V>(dec: Decoder<V>) {
    && dec.parseFloat("null").None?
    && forall s: string :: s != [] && (s[0] == '{' || s[0] == '[') ==> dec.parseFloat(s).None?
  }

  function RawPayload<V>(dec: Decoder<V>, p: Payload): GoValue<V>
    requires Printable(dec, ValueField(p))
  {
    match p
    case PayloadText(s) => GoString(Raw(s))
    case PayloadTree(Word(w)) => if w == "null" then Nil else GoBool(w == "true")
    case PayloadTree(t) => Decoded(DecodeBytes(dec, Print(t)).value)
  }

  function RawMetaValue<V>(dec: Decoder<V>, v: MetaValue): GoValue<V>
    requires PrintableMeta(dec, v)
  {
    match v
    case MetaText(s) => GoString(Raw(s))
    case MetaBool(b) => GoBool(b)
    case MetaNumber(s) => Decoded(dec.parseFloat(s).value)
  }

  function RawMeta<V>(dec: Decoder<V>, es: seq<MetaEntry>): map<string, GoValue<V>>
    requires forall i :: 0 <= i < |es| ==> PrintableMeta(dec, es[i].value)
  {
    if es == [] then map[]
    else RawMeta(dec, es[..|es| - 1])[Raw(es[|es| - 1].key) := RawMetaValue(dec, es[|es| - 1].value)]
  }

  function SetField<V>(dec: Decoder<V>, f: Field, r: EvalResult<V>): EvalResult<V>
    requires Printable(dec, f)
  {
    match f
    case TextField(name, s) => SetText(r, name, Raw(s))
    case ValueField(p) => r.(value := RawPayload(dec, p))
    case MetaField(es) => r.(metadata := Some(RawMeta(dec, es)))
    case OtherField(_, _) => r
  }

  function SetFields<V>(dec: Decoder<V>, fs: seq<Field>, r: EvalResult<V>): EvalResult<V>
    requires forall i :: 0 <= i < |fs| ==> Printable(dec, fs[i])
  {
    if fs == [] then r else SetFields(dec, fs[1..], SetField(dec, fs[0], r))
  }

  // ---------------------------------------------------------------------------
  // The loops on printed text.
  // ---------------------------------------------------------------------------

  /** A key and its colon at `i`: every loop that follows stops at the first byte of the value. */
  lemma KeyAt(d: string, i: nat, key: string, rest: string)
    requires At(d, i, JsonString(key) + ":" + rest)
    requires rest != [] && !IsSpace(rest[0]) && rest[0] != ':'
    ensures i < |d| && d[i] == '"' && SpaceEnd(d, i) == i
    ensures var q := QuoteEnd(d, i + 1);
            && i < q < |d| && d[i + 1..q] == Raw(key) && q + 2 == i + |JsonString(key)| + 1
            && ColonEnd(d, q + 1) == q + 1 < |d| && SpaceEnd(d, q + 2) == q + 2 && ColonSpaceEnd(d, q + 1) == q + 2
            && q + 2 < |d| && d[q + 2] == rest[0] && At(d, q + 2, rest)
  {
    hide At, QuoteEnd, ColonEnd, ColonSpaceEnd, ItemsOf;
    AtThree(d, i, JsonString(key), ":", rest);
    QuotedAt(d, i, ItemsOf(SerdeEscaper, key));
    ColonAt(d, QuoteEnd(d, i + 1) + 1, rest);
  }

  lemma ColonAt(d: string, i: nat, rest: string)
    requires At(d, i, ":") && At(d, i + 1, rest)
    requires rest != [] && !IsSpace(rest[0]) && rest[0] != ':'
    ensures ColonEnd(d, i) == i && SpaceEnd(d, i + 1) == i + 1 < |d| && ColonSpaceEnd(d, i) == i + 1
    ensures d[i + 1] == rest[0]
  {
    AtFirst(d, i, ":");
    AtFirst(d, i + 1, rest);
  }

  lemma PrintFirst(t: Tree)
    requires Wf(t)
    ensures Print(t) != [] && !IsSpace(Print(t)[0]) && Print(t)[0] != ':'
    ensures t.String? <==> Print(t)[0] == '"'
    ensures (t.Number? || t.Container?) ==> Print(t)[0] !in ['t', 'f', 'n']
  {
  }

  lemma ValueAtText<V>(dec: Decoder<V>, d: string, i: nat, s: string)
    requires At(d, i, JsonString(s))
    ensures ValueAt(dec, d, i) == ValueTo(i + |JsonString(s)|, GoString(Raw(s)))
  {
    hide At, QuoteEnd, ExtentEnd, ItemsOf;
    QuotedAt(d, i, ItemsOf(SerdeEscaper, s));
  }

  lemma ValueAtWord<V>(dec: Decoder<V>, d: string, i: nat, w: string)
    requires w in ["true", "false", "null"] && At(d, i, w)
    ensures ValueAt(dec, d, i) == ValueTo(i + |w|, if w == "null" then Nil else GoBool(w == "true"))
  {
    hide QuoteEnd, ExtentEnd, DecodeBytes;
    AtFirst(d, i, w);
  }

  /** A number or a container: cut out at its extent, and decoded. */
  lemma ValueAtExtent<V>(dec: Decoder<V>, d: string, i: nat, t: Tree)
    requires (t.Number? || t.Container?) && Wf(t) && At(d, i, Print(t)) && DecodeBytes(dec, Print(t)).Some?
    requires i + |Print(t)| < |d| && (d[i + |Print(t)|] == ',' || d[i + |Print(t)|] == '}')
    ensures ValueAt(dec, d, i) == ValueTo(i + |Print(t)|, Decoded(DecodeBytes(dec, Print(t)).value))
  {
    hide QuoteEnd, ExtentEnd, Print, Wf, DecodeBytes;
    PrintFirst(t);
    AtFirst(d, i, Print(t));
    ExtentOfTree(d, i, t);
  }

  lemma ValueAtTree<V>(dec: Decoder<V>, d: string, i: nat, p: Payload, rest: string)
    requires Printable(dec, ValueField(p)) && At(d, i, PrintPayload(p) + rest)
    requires rest != [] && (rest[0] == ',' || rest[0] == '}')
    ensures ValueAt(dec, d, i) == ValueTo(i + |PrintPayload(p)|, RawPayload(dec, p))
  {
    hide At, ValueAt, DecodeBytes, ItemsOf;
    AtConcat(d, i, PrintPayload(p), rest);
    AtFirst(d, i + |PrintPayload(p)|, rest);
    match p
    case PayloadText(s) => ValueAtText(dec, d, i, s);
    case PayloadTree(Word(w)) => ValueAtWord(dec, d, i, w);
    case PayloadTree(t) => ValueAtExtent(dec, d, i, t);
  }

  predicate StopsMetaNumber(c: char) { c == ',' || c == '}' || IsSpace(c) }

  lemma {:induction false} MetaNumberEndOfText(d: string, i: nat, s: string)
    requires At(d, i, s) && (forall k :: 0 <= k < |s| ==> !StopsMetaNumber(s[k]))
    requires i + |s| < |d| && (d[i + |s|] == ',' || d[i + |s|] == '}')
    ensures MetaNumberEnd(d, i) == i + |s|
    decreases |s|
  {
    if s != [] {
      AtFirst(d, i, s);
      MetaNumberEndOfText(d, i + 1, s[1..]);
    }
  }

  lemma MetaValueAtText<V>(dec: Decoder<V>, d: string, i: nat, v: MetaValue, rest: string)
    requires PrintableMeta(dec, v) && At(d, i, PrintMetaValue(v) + rest)
    requires rest != [] && (rest[0] == ',' || rest[0] == '}')
    ensures i < |d| && MetaValueAt(dec, d, i) == Some((i + |PrintMetaValue(v)|, RawMetaValue(dec, v)))
  {
    hide QuoteEnd, MetaNumberEnd;
    AtConcat(d, i, PrintMetaValue(v), rest);
    AtFirst(d, i + |PrintMetaValue(v)|, rest);
    match v
    case MetaText(s) => QuotedAt(d, i, ItemsOf(SerdeEscaper, s));
    case MetaBool(b) => AtFirst(d, i, PrintMetaValue(v));
    case MetaNumber(s) =>
      AtFirst(d, i, s);
      MetaNumberEndOfText(d, i, s);
  }

  lemma MetaValueFirst<V>(dec: Decoder<V>, v: MetaValue)
    requires PrintableMeta(dec, v)
    ensures PrintMetaValue(v) != [] && !IsSpace(PrintMetaValue(v)[0]) && PrintMetaValue(v)[0] != ':'
  {
  }

  /** One turn of the metadata loop, from a key to just after its value. */
  lemma MetaStep<V>(
    dec: Decoder<V>, d: string, i: nat, e: MetaEntry, rest: string, meta: map<string, GoValue<V>>) returns (end: nat)
    requires PrintableMeta(dec, e.value) && rest != [] && (rest[0] == ',' || rest[0] == '}')
    requires At(d, i, JsonString(e.key) + ":" + (PrintMetaValue(e.value) + rest))
    ensures end == i + |JsonString(e.key)| + 1 + |PrintMetaValue(e.value)| && At(d, end, rest)
    ensures MetaAt(dec, d, i, meta) == MetaAt(dec, d, end, meta[Raw(e.key) := RawMetaValue(dec, e.value)])
  {
    hide At, QuoteEnd, SpaceEnd, ColonSpaceEnd, MetaValueAt, ItemsOf, JsonString, Raw, RawMetaValue, PrintMetaValue;
    MetaValueFirst(dec, e.value);
    KeyAt(d, i, e.key, PrintMetaValue(e.value) + rest);
    var v := i + |JsonString(e.key)| + 1;
    MetaValueAtText(dec, d, v, e.value, rest);
    AtConcat(d, v, PrintMetaValue(e.value), rest);
    end := v + |PrintMetaValue(e.value)|;
  }

  /** A turn of the loop that stands on a comma or on the closing brace. */
  lemma MetaDelimiter<V>(dec: Decoder<V>, d: string, i: nat, rest: string, meta: map<string, GoValue<V>>)
    requires At(d, i, rest) && rest != []
    ensures rest[0] == ',' ==> MetaAt(dec, d, i, meta) == MetaAt(dec, d, i + 1, meta)
    ensures rest[0] == '}' ==> MetaAt(dec, d, i, meta) == Some((meta, i + 1))
  {
    AtFirst(d, i, rest);
    assert (rest[0] == ',' || rest[0] == '}') ==> SpaceEnd(d, i) == i;
  }

  /** From the j-th entry on, with the first j entries read. */
  lemma {:induction false} MetaAtEntries<V>(dec: Decoder<V>, d: string, i: nat, es: seq<MetaEntry>, j: nat)
    requires j <= |es| && forall n :: 0 <= n < |es| ==> PrintableMeta(dec, es[n].value)
    requires At(d, i, PrintMeta(es[j..]))
    ensures MetaAt(dec, d, i, RawMeta(dec, es[..j])) == Some((RawMeta(dec, es), i + |PrintMeta(es[j..])|))
    decreases |es| - j
  {
    hide At, MetaAt, JsonString, Raw, RawMetaValue, PrintMetaValue, PrintableMeta;
    if j == |es| {
      assert es[..j] == es;
      MetaDelimiter(dec, d, i, "}", RawMeta(dec, es));
    } else {
      var e := es[j];
      assert es[j..][0] == e && es[j..][1..] == es[j + 1..];
      var rest := AfterMeta(es[j + 1..]);
      var end := MetaStep(dec, d, i, e, rest, RawMeta(dec, es[..j]));
      assert es[..j + 1][..j] == es[..j] && es[..j + 1][j] == e;
      MetaDelimiter(dec, d, end, rest, RawMeta(dec, es[..j + 1]));
      if j + 1 == |es| {
        assert es[..j + 1] == es;
      } else {
        AtConcat(d, end, ",", PrintMeta(es[j + 1..]));
        MetaAtEntries(dec, d, end + 1, es, j + 1);
      }
    }
  }

  /** A value that is not flat stops the metadata loop. */
  lemma MetaOtherIsRefused<V>(dec: Decoder<V>, d: string, i: nat, t: Tree, rest: string)
    requires RefusesJson(dec) && Wf(t) && (t == Word("null") || t.Container?)
    requires At(d, i, Print(t) + rest) && rest != [] && (rest[0] == ',' || rest[0] == '}')
    ensures i < |d| && MetaValueAt(dec, d, i) == None
  {
    AtConcat(d, i, Print(t), rest);
    AtFirst(d, i + |Print(t)|, rest);
    PrintFirst(t);
    AtFirst(d, i, Print(t));
    if t.Container? {
      assert d[i] == '{' || d[i] == '[';
      assert d[i..MetaNumberEnd(d, i)][0] == d[i];
    } else {
      MetaNumberEndOfText(d, i, "null");
    }
  }

  /** The turn of the metadata loop that meets such a value. */
  lemma MetaStepRefuses<V>(
    dec: Decoder<V>, d: string, i: nat, key: string, t: Tree, rest: string, meta: map<string, GoValue<V>>)
    requires RefusesJson(dec) && Wf(t) && (t == Word("null") || t.Container?)
    requires At(d, i, JsonString(key) + ":" + (Print(t) + rest)) && rest != [] && (rest[0] == ',' || rest[0] == '}')
    ensures MetaAt(dec, d, i, meta) == None
  {
    hide At, QuoteEnd, SpaceEnd, ColonSpaceEnd, MetaValueAt, ItemsOf, JsonString, Raw, RefusesJson, Print;
    PrintFirst(t);
    KeyAt(d, i, key, Print(t) + rest);
    MetaOtherIsRefused(dec, d, i + |JsonString(key)| + 1, t, rest);
  }

  lemma {:induction false} MetaAtRefuses<V>(
    dec: Decoder<V>, d: string, i: nat, es: seq<MetaEntry>, meta: map<string, GoValue<V>>)
    requires RefusesJson(dec) && forall n :: 0 <= n < |es| ==> WfMeta(dec, es[n].value)
    requires exists n :: 0 <= n < |es| && es[n].value.MetaOther?
    requires At(d, i, PrintMeta(es))
    ensures MetaAt(dec, d, i, meta) == None
    decreases |es|
  {
    hide At, MetaAt, JsonString, Raw, RawMetaValue, RefusesJson, Print;
    var e, rest := es[0], AfterMeta(es[1..]);
    if e.value.MetaOther? {
      MetaStepRefuses(dec, d, i, e.key, e.value.t, rest, meta);
    } else {
      var end := MetaStep(dec, d, i, e, rest, meta);
      var n :| 0 <= n < |es| && es[n].value.MetaOther?;
      assert es[1..][n - 1] == es[n];
      var next := meta[Raw(e.key) := RawMetaValue(dec, e.value)];
      MetaDelimiter(dec, d, end, rest, next);
      AtConcat(d, end, ",", PrintMeta(es[1..]));
      MetaAtRefuses(dec, d, end + 1, es[1..], next);
    }
  }

  lemma FieldOfText<V>(dec: Decoder<V>, d: string, i: nat, name: string, s: string, r: EvalResult<V>)
    requires IsTextField(name) && At(d, i, JsonString(s))
    ensures i < |d| && FieldValueAt(dec, d, name, i, r) == FieldTo(i + |JsonString(s)|, SetText(r, name, Raw(s)))
  {
    hide At, QuoteEnd, MetaAt, ValueAt, SkipEnd, ItemsOf, IsTextField, SetText;
    QuotedAt(d, i, ItemsOf(SerdeEscaper, s));
  }

  lemma FieldOfMeta<V>(dec: Decoder<V>, d: string, i: nat, es: seq<MetaEntry>, r: EvalResult<V>)
    requires (forall n :: 0 <= n < |es| ==> PrintableMeta(dec, es[n].value)) && At(d, i, "{" + PrintMeta(es))
    ensures i < |d| && d[i] == '{'
    ensures MetaAt(dec, d, i + 1, map[]) == Some((RawMeta(dec, es), i + |"{" + PrintMeta(es)|))
  {
    hide MetaAt, RawMeta, PrintMeta, PrintableMeta;
    AtFirst(d, i, "{" + PrintMeta(es));
    AtConcat(d, i, "{", PrintMeta(es));
    assert es[0..] == es && es[..0] == [];
    NothingRead(dec, es);
    MetaAtEntries(dec, d, i + 1, es, 0);
  }

  lemma NothingRead<V>(dec: Decoder<V>, es: seq<MetaEntry>)
    ensures es[..0] == [] && RawMeta(dec, []) == map[]
  {
  }

  lemma FieldValueAtBody<V>(dec: Decoder<V>, d: string, i: nat, f: Field, rest: string, r: EvalResult<V>)
    requires Printable(dec, f) && At(d, i, Body(f) + rest)
    requires rest != [] && (rest[0] == ',' || rest[0] == '}')
    ensures i < |d| && FieldValueAt(dec, d, Name(f), i, r) == FieldTo(i + |Body(f)|, SetField(dec, f, r))
  {
    hide At, QuoteEnd, MetaAt, ValueAt, SkipEnd, ItemsOf, RawMeta, NeedsNone, PrintableMeta;
    AtConcat(d, i, Body(f), rest);
    AtFirst(d, i + |Body(f)|, rest);
    match f
    case TextField(name, s) => FieldOfText(dec, d, i, name, s, r);
    case ValueField(p) =>
      BodyFirst(dec, f);
      AtFirst(d, i, Body(f));
      ValueAtTree(dec, d, i, p, rest);
    case MetaField(es) => FieldOfMeta(dec, d, i, es, r);
    case OtherField(_, t) =>
      PrintFirst(t);
      AtFirst(d, i, Print(t));
      SkipEndOfTree(d, i, t);
  }

  lemma BodyFirst<V>(dec: Decoder<V>, f: Field)
    requires Printable(dec, f)
    ensures Body(f) != [] && !IsSpace(Body(f)[0]) && Body(f)[0] != ':'
  {
    match f
    case ValueField(PayloadTree(t)) => PrintFirst(t);
    case OtherField(_, t) => PrintFirst(t);
    case _ =>
  }

  lemma KnownNamesArePlain()
    ensures NeedsNone("variant") && NeedsNone("reason") && NeedsNone("errorCode") && NeedsNone("errorMessage")
    ensures NeedsNone("value") && NeedsNone("flagMetadata")
  {
  }

  lemma NameIsPlain<V>(dec: Decoder<V>, f: Field)
    requires Printable(dec, f)
    ensures Raw(Name(f)) == Name(f)
  {
    hide NeedsNone, EscapeText, Wf, PrintableMeta;
    KnownNamesArePlain();
    NoEscapeIsIdentity(SerdeEscaper, Name(f));
  }

  /** One turn of the field loop, from a name to just after its value. */
  lemma FieldStep<V>(dec: Decoder<V>, d: string, i: nat, f: Field, rest: string, r: EvalResult<V>) returns (end: nat)
    requires Printable(dec, f) && rest != [] && (rest[0] == ',' || rest[0] == '}')
    requires At(d, i, JsonString(Name(f)) + ":" + (Body(f) + rest))
    ensures end == i + |JsonString(Name(f))| + 1 + |Body(f)| && At(d, end, rest)
    ensures FieldsAt(dec, d, i, r) == FieldsAt(dec, d, end, SetField(dec, f, r))
  {
    hide At, QuoteEnd, SpaceEnd, ColonEnd, FieldValueAt, ItemsOf, JsonString, Raw, Body, Name, SetField, Printable;
    BodyFirst(dec, f);
    NameIsPlain(dec, f);
    KeyAt(d, i, Name(f), Body(f) + rest);
    var v := i + |JsonString(Name(f))| + 1;
    FieldValueAtBody(dec, d, v, f, rest, r);
    AtConcat(d, v, Body(f), rest);
    end := v + |Body(f)|;
  }

  lemma FieldDelimiter<V>(dec: Decoder<V>, d: string, i: nat, rest: string, r: EvalResult<V>)
    requires At(d, i, rest) && rest != []
    ensures rest[0] == ',' ==> FieldsAt(dec, d, i, r) == FieldsAt(dec, d, i + 1, r)
    ensures rest[0] == '}' ==> FieldsAt(dec, d, i, r) == Fast(r)
  {
    AtFirst(d, i, rest);
    assert (rest[0] == ',' || rest[0] == '}') ==> SpaceEnd(d, i) == i;
  }

  lemma {:induction false} FieldsAtText<V>(dec: Decoder<V>, d: string, i: nat, fs: seq<Field>, r: EvalResult<V>)
    requires forall n :: 0 <= n < |fs| ==> Printable(dec, fs[n])
    requires At(d, i, PrintFields(fs))
    ensures FieldsAt(dec, d, i, r) == Fast(SetFields(dec, fs, r))
    decreases fs
  {
    hide At, FieldsAt, JsonString, Name, Body, SetField, Printable;
    if fs == [] {
      FieldDelimiter(dec, d, i, "}", r);
    } else {
      var rest := AfterFields(fs[1..]);
      var end := FieldStep(dec, d, i, fs[0], rest, r);
      FieldDelimiter(dec, d, end, rest, SetField(dec, fs[0], r));
      if fs[1..] != [] {
        AtConcat(d, end, ",", PrintFields(fs[1..]));
        FieldsAtText(dec, d, end + 1, fs[1..], SetField(dec, fs[0], r));
      }
    }
  }

  /** Any object of such fields, in any order, takes the fast path; number and nested values are
      decoded from exactly their own bytes, strings come back as they stand between the quotes. */
  lemma ParseOfFields<V>(dec: Decoder<V>, fs: seq<Field>)
    requires forall n :: 0 <= n < |fs| ==> Printable(dec, fs[n])
    ensures Parse(dec, PrintObject(fs)) == Fast(SetFields(dec, fs, Empty()))
  {
    var d := PrintObject(fs);
    assert At(d, 0, "{" + PrintFields(fs));
    AtConcat(d, 0, "{", PrintFields(fs));
    FieldsAtText(dec, d, 1, fs, Empty());
  }

  predicate WfMetaField<V>(dec: Decoder<V>, es: seq<MetaEntry>) {
    forall i :: 0 <= i < |es| ==> WfMeta(dec, es[i].value)
  }

  predicate Flat(es: seq<MetaEntry>) { forall i :: 0 <= i < |es| ==> !es[i].value.MetaOther? }

  /** Fields and then metadata with a value that is not flat: the parser gives up there. */
  lemma {:induction false} FieldsAtNested<V>(
    dec: Decoder<V>, d: string, i: nat, fs: seq<Field>, es: seq<MetaEntry>, r: EvalResult<V>)
    requires RefusesJson(dec) && (forall n :: 0 <= n < |fs| ==> Printable(dec, fs[n])) && WfMetaField(dec, es)
        && !Flat(es)
    requires At(d, i, PrintFields(fs + [MetaField(es)]))
    ensures FieldsAt(dec, d, i, r) == Fallback
    decreases |fs|
  {
    hide At, QuoteEnd, SpaceEnd, ColonEnd, ItemsOf, JsonString, Raw, MetaAt, SkipEnd, ValueAt, PrintMeta, Printable,
      WfMeta;
    var all := fs + [MetaField(es)];
    var rest := AfterFields(all[1..]);
    if fs == [] {
      assert all[0] == MetaField(es) && all[1..] == [];
      NestedMetaIsRefused(dec, d, i, es, r);
    } else {
      assert all[0] == fs[0] && all[1..] == fs[1..] + [MetaField(es)];
      var end := FieldStep(dec, d, i, fs[0], rest, r);
      FieldDelimiter(dec, d, end, rest, SetField(dec, fs[0], r));
      AtConcat(d, end, ",", PrintFields(all[1..]));
      FieldsAtNested(dec, d, end + 1, fs[1..], es, SetField(dec, fs[0], r));
    }
  }

  lemma NestedMetaIsRefused<V>(dec: Decoder<V>, d: string, i: nat, es: seq<MetaEntry>, r: EvalResult<V>)
    requires RefusesJson(dec) && WfMetaField(dec, es) && !Flat(es)
    requires At(d, i, JsonString("flagMetadata") + ":" + ("{" + PrintMeta(es) + "}"))
    ensures FieldsAt(dec, d, i, r) == Fallback
  {
    hide At, QuoteEnd, SpaceEnd, ColonEnd, ItemsOf, JsonString, MetaAt, PrintMeta, FieldValueAt, Raw;
    var name := "flagMetadata";
    NameIsPlain(dec, MetaField([]));
    KeyAt(d, i, name, "{" + PrintMeta(es) + "}");
    var v := i + |JsonString(name)| + 1;
    AtConcat(d, v, "{" + PrintMeta(es), "}");
    AtConcat(d, v, "{", PrintMeta(es));
    MetaAtRefuses(dec, d, v + 1, es, map[]);
    MetaFieldRefuses(dec, d, name, v, r);
  }

  lemma MetaFieldRefuses<V>(dec: Decoder<V>, d: string, name: string, v: nat, r: EvalResult<V>)
    requires name == "flagMetadata" && v < |d| && d[v] == '{' && MetaAt(dec, d, v + 1, map[]) == None
    ensures FieldValueAt(dec, d, name, v, r) == FieldFallback
  {
    hide MetaAt, QuoteEnd, ValueAt, SkipEnd;
  }

  // ---------------------------------------------------------------------------
  // EvaluationResult.
  // ---------------------------------------------------------------------------

  /** Metadata is listed in the hash map's iteration order, so its keys are distinct. */
  datatype RustResult = RustResult(
    value: Payload, variant: Option<string>, reason: string, errorCode: Option<string>,
    errorMessage: Option<string>, metadata: Option<seq<MetaEntry>>)

  predicate Distinct(es: seq<MetaEntry>) {
    forall i, j :: 0 <= i < j < |es| ==> es[i].key != es[j].key
  }

  predicate WfResult<V>(dec: Decoder<V>, r: RustResult) {
    && Printable(dec, ValueField(r.value))
    && (r.metadata.Some? ==> WfMetaField(dec, r.metadata.value) && Distinct(r.metadata.value))
  }

  /** All metadata values are strings, booleans and numbers. */
  predicate FlatResult(r: RustResult) { r.metadata.Some? ==> Flat(r.metadata.value) }

  function OptionalText(name: string, s: Option<string>): seq<Field> {
    if s.Some? then [TextField(name, s.value)] else []
  }

  function FieldsOf(r: RustResult): seq<Field> {
    [ValueField(r.value)] + OptionalText("variant", r.variant) + [TextField("reason", r.reason)]
    + OptionalText("errorCode", r.errorCode) + OptionalText("errorMessage", r.errorMessage)
    + (if r.metadata.Some? then [MetaField(r.metadata.value)] else [])
  }

  /** The text of a result and the strings it stands for, decoded. */
  function PrintResult(r: RustResult): string { PrintObject(FieldsOf(r)) }

  function PayloadMeaning<V>(dec: Decoder<V>, p: Payload): GoValue<V>
    requires Printable(dec, ValueField(p))
  {
    if p.PayloadText? then GoString(p.s) else RawPayload(dec, p)
  }

  function MetaMeaning<V>(dec: Decoder<V>, v: MetaValue): GoValue<V>
    requires WfMeta(dec, v)
  {
    match v
    case MetaText(s) => GoString(s)
    case MetaOther(t) => (match dec.unmarshal(Print(t)) case Some(x) => Decoded(x) case None => Nil)
    case _ => RawMetaValue(dec, v)
  }

  function MetaMap<V>(dec: Decoder<V>, es: seq<MetaEntry>): map<string, GoValue<V>>
    requires forall i :: 0 <= i < |es| ==> WfMeta(dec, es[i].value)
  {
    if es == [] then map[]
    else MetaMap(dec, es[..|es| - 1])[es[|es| - 1].key := MetaMeaning(dec, es[|es| - 1].value)]
  }

  function Meaning<V>(dec: Decoder<V>, r: RustResult): EvalResult<V>
    requires WfResult(dec, r)
  {
    EvalResult(
      PayloadMeaning(dec, r.value), r.variant.GetOr(""), r.reason, r.errorCode.GetOr(""), r.errorMessage.GetOr(""),
      if r.metadata.Some? then Some(MetaMap(dec, r.metadata.value)) else None)
  }

  function RawResult<V>(dec: Decoder<V>, r: RustResult): EvalResult<V>
    requires WfResult(dec, r) && FlatResult(r)
  {
    EvalResult(
      RawPayload(dec, r.value), Raw(r.variant.GetOr("")), Raw(r.reason), Raw(r.errorCode.GetOr("")),
      Raw(r.errorMessage.GetOr("")), if r.metadata.Some? then Some(RawMeta(dec, r.metadata.value)) else None)
  }

  lemma {:induction false} SetFieldsConcat<V>(dec: Decoder<V>, a: seq<Field>, b: seq<Field>, r: EvalResult<V>)
    requires forall n :: 0 <= n < |a| ==> Printable(dec, a[n])
    requires forall n :: 0 <= n < |b| ==> Printable(dec, b[n])
    ensures forall n :: 0 <= n < |a + b| ==> Printable(dec, (a + b)[n])
    ensures SetFields(dec, a + b, r) == SetFields(dec, b, SetFields(dec, a, r))
    decreases a
  {
    if a == [] {
      assert a + b == b;
    } else {
      assert (a + b)[1..] == a[1..] + b;
      SetFieldsConcat(dec, a[1..], b, SetField(dec, a[0], r));
    }
  }

  /** The parser's answer on every printed result with flat metadata. */
  lemma ParseOfFlat<V>(dec: Decoder<V>, r: RustResult)
    requires WfResult(dec, r) && FlatResult(r)
    ensures Parse(dec, PrintResult(r)) == Fast(RawResult(dec, r))
  {
    var f1, f2, f3 := [ValueField(r.value)], OptionalText("variant", r.variant), [TextField("reason", r.reason)];
    var f4, f5 := OptionalText("errorCode", r.errorCode), OptionalText("errorMessage", r.errorMessage);
    var f6 := if r.metadata.Some? then [MetaField(r.metadata.value)] else [];
    var r1 := SetOne(dec, f1[0], Empty());
    var r2 := SetOptional(dec, "variant", r.variant, r1);
    var r3 := SetOne(dec, f3[0], r2);
    var r4 := SetOptional(dec, "errorCode", r.errorCode, r3);
    var r5 := SetOptional(dec, "errorMessage", r.errorMessage, r4);
    SetFieldsConcat(dec, f1, f2, Empty());
    SetFieldsConcat(dec, f1 + f2, f3, Empty());
    SetFieldsConcat(dec, f1 + f2 + f3, f4, Empty());
    SetFieldsConcat(dec, f1 + f2 + f3 + f4, f5, Empty());
    SetFieldsConcat(dec, f1 + f2 + f3 + f4 + f5, f6, Empty());
    if r.metadata.Some? {
      var r6 := SetOne(dec, f6[0], r5);
    }
    assert Raw("") == "";
    ParseOfFields(dec, FieldsOf(r));
  }

  /** The parser's answer on every printed result without flat metadata: json.Unmarshal takes over. */
  lemma ParseOfNested<V>(dec: Decoder<V>, r: RustResult)
    requires RefusesJson(dec) && WfResult(dec, r) && !FlatResult(r)
    ensures Parse(dec, PrintResult(r)) == Fallback
  {
    hide QuoteEnd, FieldsAt, PrintableMeta, Body, DecodeBytes, SkipEnd, ItemsOf, MetaAt;
    var es := r.metadata.value;
    var fs := FieldsOf(r.(metadata := None));
    assert FieldsOf(r) == fs + [MetaField(es)];
    assert forall n :: 0 <= n < |fs| ==> fs[n] == ValueField(r.value) || fs[n].TextField?;
    assert forall n :: 0 <= n < |fs| && fs[n].TextField? ==> IsTextField(fs[n].name) by {
      TextFieldNames(r);
    }
    var d := PrintResult(r);
    assert At(d, 0, "{" + PrintFields(fs + [MetaField(es)]));
    AtConcat(d, 0, "{", PrintFields(fs + [MetaField(es)]));
    FieldsAtNested(dec, d, 1, fs, es, Empty());
  }

  lemma TextFieldNames(r: RustResult)
    ensures var fs := FieldsOf(r.(metadata := None));
            forall n :: 0 <= n < |fs| && fs[n].TextField? ==> IsTextField(fs[n].name)
  {
  }

  /** The fast path is taken exactly for flat metadata; otherwise the text goes to json.Unmarshal. */
  lemma FastIffFlat<V>(dec: Decoder<V>, r: RustResult)
    requires RefusesJson(dec) && WfResult(dec, r)
    ensures Parse(dec, PrintResult(r)).Fast? <==> FlatResult(r)
    ensures Parse(dec, PrintResult(r)) == Fallback <==> !FlatResult(r)
  {
    if FlatResult(r) {
      ParseOfFlat(dec, r);
    } else {
      ParseOfNested(dec, r);
    }
  }

  lemma SetOne<V>(dec: Decoder<V>, f: Field, r: EvalResult<V>) returns (r': EvalResult<V>)
    requires Printable(dec, f)
    ensures r' == SetField(dec, f, r) == SetFields(dec, [f], r)
  {
    r' := SetField(dec, f, r);
    assert SetFields(dec, [f], r) == SetFields(dec, [f][1..], r');
  }

  lemma SetOptional<V>(dec: Decoder<V>, name: string, s: Option<string>, r: EvalResult<V>) returns (r': EvalResult<V>)
    requires IsTextField(name)
    ensures forall n :: 0 <= n < |OptionalText(name, s)| ==> Printable(dec, OptionalText(name, s)[n])
    ensures r' == SetFields(dec, OptionalText(name, s), r)
    ensures r' == if s.Some? then SetText(r, name, Raw(s.value)) else r
  {
    r' := r;
    if s.Some? {
      r' := SetOne(dec, TextField(name, s.value), r);
    }
  }

  predicate PlainMeta(es: seq<MetaEntry>) {
    forall i :: 0 <= i < |es| ==> NeedsNone(es[i].key) && (es[i].value.MetaText? ==> NeedsNone(es[i].value.s))
  }

  /** Metadata are flat, and no string of the result, its metadata keys included, needs an escape. */
  predicate PlainResult(r: RustResult) {
    && (r.value.PayloadText? ==> NeedsNone(r.value.s))
    && NeedsNone(r.variant.GetOr("")) && NeedsNone(r.reason)
    && NeedsNone(r.errorCode.GetOr("")) && NeedsNone(r.errorMessage.GetOr(""))
    && (r.metadata.Some? ==> Flat(r.metadata.value) && PlainMeta(r.metadata.value))
  }

  lemma RawIsPlain(s: string)
    ensures Raw(s) == s <==> NeedsNone(s)
  {
    NoEscapeIsIdentity(SerdeEscaper, s);
  }

  lemma {:induction false} MetaMapEntries<V>(dec: Decoder<V>, es: seq<MetaEntry>, i: nat)
    requires forall n :: 0 <= n < |es| ==> PrintableMeta(dec, es[n].value)
    requires Distinct(es) && i < |es|
    ensures es[i].key in MetaMap(dec, es) && MetaMap(dec, es)[es[i].key] == MetaMeaning(dec, es[i].value)
    ensures Raw(es[i].key) in RawMeta(dec, es) && RawMeta(dec, es)[Raw(es[i].key)] == RawMetaValue(dec, es[i].value)
    decreases |es|
  {
    var last := |es| - 1;
    if i < last {
      MetaMapEntries(dec, es[..last], i);
      if Raw(es[i].key) == Raw(es[last].key) {
        EscapeIsInjective(SerdeEscaper, es[i].key, es[last].key);
      }
    }
  }

  lemma {:induction false} MetaMapKeys<V>(dec: Decoder<V>, es: seq<MetaEntry>, k: string)
    requires forall n :: 0 <= n < |es| ==> PrintableMeta(dec, es[n].value)
    requires k in MetaMap(dec, es)
    ensures exists i :: 0 <= i < |es| && es[i].key == k
    decreases |es|
  {
    var last := |es| - 1;
    if k != es[last].key {
      MetaMapKeys(dec, es[..last], k);
    }
  }

  lemma {:induction false} LongestKey(es: seq<MetaEntry>) returns (bound: nat)
    ensures forall i :: 0 <= i < |es| ==> |es[i].key| <= bound
  {
    bound := 0;
    if es != [] {
      bound := LongestKey(es[1..]);
      bound := bound + |es[0].key|;
      assert forall i :: 0 < i < |es| ==> es[i] == es[1..][i - 1];
    }
  }

  /** If escaping maps the keys into themselves, a key that needs escapes leads to ever longer keys. */
  lemma {:induction false} NoEscapedKey<V>(dec: Decoder<V>, es: seq<MetaEntry>, i: nat, bound: nat)
    requires forall n :: 0 <= n < |es| ==> PrintableMeta(dec, es[n].value)
    requires Distinct(es) && RawMeta(dec, es) == MetaMap(dec, es)
    requires forall n :: 0 <= n < |es| ==> |es[n].key| <= bound
    requires i < |es|
    ensures NeedsNone(es[i].key)
    decreases bound - |es[i].key|
  {
    var k := es[i].key;
    if !NeedsNone(k) {
      NoEscapeIsIdentity(SerdeEscaper, k);
      MetaMapEntries(dec, es, i);
      MetaMapKeys(dec, es, Raw(k));
      var j :| 0 <= j < |es| && es[j].key == Raw(k);
      NoEscapedKey(dec, es, j, bound);
      RawIsPlain(Raw(k));
      EscapeIsInjective(SerdeEscaper, Raw(k), k);
    }
  }

  lemma {:induction false} PlainMetaIsRaw<V>(dec: Decoder<V>, es: seq<MetaEntry>)
    requires forall n :: 0 <= n < |es| ==> PrintableMeta(dec, es[n].value)
    requires PlainMeta(es)
    ensures RawMeta(dec, es) == MetaMap(dec, es)
    decreases |es|
  {
    if es != [] {
      var last := es[|es| - 1];
      PlainMetaIsRaw(dec, es[..|es| - 1]);
      RawIsPlain(last.key);
      if last.value.MetaText? {
        RawIsPlain(last.value.s);
      }
    }
  }

  lemma MetaAgrees<V>(dec: Decoder<V>, es: seq<MetaEntry>)
    requires forall n :: 0 <= n < |es| ==> PrintableMeta(dec, es[n].value)
    requires Distinct(es)
    ensures RawMeta(dec, es) == MetaMap(dec, es) <==> PlainMeta(es)
  {
    if PlainMeta(es) {
      PlainMetaIsRaw(dec, es);
    }
    if RawMeta(dec, es) == MetaMap(dec, es) {
      var bound := LongestKey(es);
      forall i | 0 <= i < |es|
        ensures NeedsNone(es[i].key) && (es[i].value.MetaText? ==> NeedsNone(es[i].value.s))
      {
        NoEscapedKey(dec, es, i, bound);
        MetaMapEntries(dec, es, i);
        RawIsPlain(es[i].key);
        if es[i].value.MetaText? {
          RawIsPlain(es[i].value.s);
        }
      }
    }
  }

  /** The round trip: the fast path gives the printed result back exactly when its metadata are flat
      and none of its own strings, metadata strings and metadata keys needs an escape. */
  lemma RoundTrip<V>(dec: Decoder<V>, r: RustResult)
    requires RefusesJson(dec) && WfResult(dec, r)
    ensures Parse(dec, PrintResult(r)) == Fast(Meaning(dec, r)) <==> PlainResult(r)
  {
    FastIffFlat(dec, r);
    if FlatResult(r) {
      ParseOfFlat(dec, r);
      RawIsPlain(r.variant.GetOr(""));
      RawIsPlain(r.reason);
      RawIsPlain(r.errorCode.GetOr(""));
      RawIsPlain(r.errorMessage.GetOr(""));
      if r.value.PayloadText? {
        RawIsPlain(r.value.s);
      }
      if r.metadata.Some? {
        MetaAgrees(dec, r.metadata.value);
      }
    }
  }
}
