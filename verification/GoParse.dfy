/** go/parse.go: the hand-written parser of evaluation results. It keeps string bytes raw, and
    hands numbers and nested values to `strconv.ParseFloat` and `json.Unmarshal`, which are
    parameters here (`Decoder`). */
module GoParse {
  import opened Common
  import opened JsonText
  import opened GoScan
  import opened Escape

  datatype GoValue<V> = Nil | GoBool(b: bool) | GoString(s: string) | Decoded(v: V)

  datatype EvalResult<V> = EvalResult(
    value: GoValue<V>, variant: string, reason: string, errorCode: string, errorMessage: string,
    metadata: Option<map<string, GoValue<V>>>)

  datatype Decoder<!V> = Decoder(parseFloat: string -> Option<V>, unmarshal: string -> Option<V>)

  /** Returned by the field loop, handed over to json.Unmarshal, or stopped by a slice past the end. */
  datatype Outcome<V> = Fast(result: EvalResult<V>) | Fallback | OutOfRange

  function Empty<V>(): EvalResult<V> { EvalResult(Nil, "", "", "", "", None) }

  // ---------------------------------------------------------------------------
  // parseValue.
  // ---------------------------------------------------------------------------

  datatype ValueOutcome<V> = ValueTo(end: nat, value: GoValue<V>) | NoValue | ValueOutOfRange

  /** What the default branch makes of the bytes it cut out: a float, else whatever JSON they hold. */
  function DecodeBytes<V>(dec: Decoder<V>, bytes: string): Option<V> {
    if dec.parseFloat(bytes).Some? then dec.parseFloat(bytes) else dec.unmarshal(bytes)
  }

  function ValueAt<V>(dec: Decoder<V>, d: string, i: nat): ValueOutcome<V> {
    if i >= |d| then NoValue
    else
      match d[i]
      case 't' => if i + 4 <= |d| then ValueTo(i + 4, GoBool(true)) else NoValue
      case 'f' => if i + 5 <= |d| then ValueTo(i + 5, GoBool(false)) else NoValue
      case 'n' => if i + 4 <= |d| then ValueTo(i + 4, Nil) else NoValue
      case '"' =>
        var q := QuoteEnd(d, i + 1);
        if q >= |d| then NoValue else ValueTo(q + 1, GoString(d[i + 1..q]))
      case _ =>
        var end := ExtentEnd(d, i, 0);
        if end > |d| then ValueOutOfRange
        else
          match DecodeBytes(dec, d[i..end])
          case Some(v) => ValueTo(end, Decoded(v))
          case None => NoValue
  }

  method ParseValue<V>(dec: Decoder<V>, d: string, start: nat) returns (r: ValueOutcome<V>)
    ensures r == ValueAt(dec, d, start)
  {
    var n := |d|;
    var i := start;
    if i >= n {
      return NoValue;
    }
    match d[i] {
      case 't' =>
        if i + 4 <= n {
          return ValueTo(i + 4, GoBool(true));
        }
        return NoValue;
      case 'f' =>
        if i + 5 <= n {
          return ValueTo(i + 5, GoBool(false));
        }
        return NoValue;
      case 'n' =>
        if i + 4 <= n {
          return ValueTo(i + 4, Nil);
        }
        return NoValue;
      case '"' =>
        i := FindQuote(d, i + 1);
        if i >= n {
          return NoValue;
        }
        return ValueTo(i + 1, GoString(d[start + 1..i]));
      case _ =>
        i := FindExtent(d, i);
        if i > n {
          return ValueOutOfRange;
        }
        var bytes := d[start..i];
        var float := dec.parseFloat(bytes);
        if float.Some? {
          return ValueTo(i, Decoded(float.value));
        }
        var v := dec.unmarshal(bytes);
        if v.None? {
          return NoValue;
        }
        return ValueTo(i, Decoded(v.value));
    }
  }

  // ---------------------------------------------------------------------------
  // parseMetadata.
  // ---------------------------------------------------------------------------

  function MetaNumberEnd(d: string, i: nat): (j: nat)
    ensures j >= i && (i <= |d| ==> j <= |d|)
    decreases |d| - i
  {
    if i < |d| && d[i] != ',' && d[i] != '}' && !IsSpace(d[i]) then MetaNumberEnd(d, i + 1) else i
  }

  function ColonSpaceEnd(d: string, i: nat): (j: nat)
    ensures j >= i
    decreases |d| - i
  {
    if i < |d| && (IsSpace(d[i]) || d[i] == ':') then ColonSpaceEnd(d, i + 1) else i
  }

  method FindMetaNumberEnd(d: string, start: nat) returns (i: nat)
    ensures i == MetaNumberEnd(d, start)
  {
    i := start;
    while i < |d| && d[i] != ',' && d[i] != '}' && !IsSpace(d[i])
      invariant MetaNumberEnd(d, i) == MetaNumberEnd(d, start)
      decreases |d| - i
    {
      i := i + 1;
    }
  }

  method SkipColonSpace(d: string, start: nat) returns (i: nat)
    ensures i == ColonSpaceEnd(d, start)
  {
    i := start;
    while i < |d| && (IsSpace(d[i]) || d[i] == ':')
      invariant ColonSpaceEnd(d, i) == ColonSpaceEnd(d, start)
      decreases |d| - i
    {
      i := i + 1;
    }
  }

  /** One metadata value at `i`: the position after it and the value. */
  function MetaValueAt<V>(dec: Decoder<V>, d: string, i: nat): (r: Option<(nat, GoValue<V>)>)
    requires i < |d|
    ensures r.Some? ==> r.value.0 >= i
  {
    match d[i]
    case '"' =>
      var q := QuoteEnd(d, i + 1);
      if q >= |d| then None else Some((q + 1, GoString(d[i + 1..q])))
    case 't' => Some((i + 4, GoBool(true)))
    case 'f' => Some((i + 5, GoBool(false)))
    case _ =>
      var end := MetaNumberEnd(d, i);
      match dec.parseFloat(d[i..end])
      case Some(v) => Some((end, Decoded(v)))
      case None => None
  }

  /** The loop of parseMetadata from position `i` with the entries read so far. */
  function MetaAt<V>(
    dec: Decoder<V>, d: string, i: nat, meta: map<string, GoValue<V>>): (r: Option<(map<string, GoValue<V>>, nat)>)
    ensures r.Some? ==> r.value.1 > i
    decreases |d| - i
  {
    var i := SpaceEnd(d, i);
    if i >= |d| then None
    else if d[i] == '}' then Some((meta, i + 1))
    else if d[i] == ',' then MetaAt(dec, d, i + 1, meta)
    else if d[i] != '"' then None
    else
      var q := QuoteEnd(d, i + 1);
      if q >= |d| then None else
      var j := ColonSpaceEnd(d, q + 1);
      if j >= |d| then None else
      match MetaValueAt(dec, d, j)
      case None => None
      case Some((end, v)) => MetaAt(dec, d, end, meta[d[i + 1..q] := v])
  }

  /** The switch on the first character of a metadata value. */
  method ParseMetaValue<V>(dec: Decoder<V>, d: string, start: nat) returns (r: Option<(nat, GoValue<V>)>)
    requires start < |d|
    ensures r == MetaValueAt(dec, d, start)
  {
    var i := start;
    match d[i] {
      case '"' =>
        i := i + 1;
        var valStart := i;
        i := FindQuote(d, i);
        if i >= |d| {
          return None;
        }
        return Some((i + 1, GoString(d[valStart..i])));
      case 't' => return Some((i + 4, GoBool(true)));
      case 'f' => return Some((i + 5, GoBool(false)));
      case _ =>
        i := FindMetaNumberEnd(d, i);
        var f := dec.parseFloat(d[start..i]);
        if f.None? {
          return None;
        }
        return Some((i, Decoded(f.value)));
    }
  }

  method ParseMetadata<V>(dec: Decoder<V>, d: string, start: nat) returns (r: Option<(map<string, GoValue<V>>, nat)>)
    ensures r == MetaAt(dec, d, start + 1, map[])
  {
    hide QuoteEnd, SpaceEnd, ColonSpaceEnd, MetaValueAt;
    var n := |d|;
    var i := start + 1;
    var meta: map<string, GoValue<V>> := map[];
    while i < n
      invariant i > start
      invariant MetaAt(dec, d, i, meta) == MetaAt(dec, d, start + 1, map[])
      decreases n - i
    {
      i := SkipSpace(d, i);
      if i >= n {
        return None;
      }
      if d[i] == '}' {
        return Some((meta, i + 1));
      }
      if d[i] == ',' {
        i := i + 1;
        continue;
      }
      if d[i] != '"' {
        return None;
      }
      i := i + 1;
      var keyStart := i;
      i := FindQuote(d, i);
      if i >= n {
        return None;
      }
      var key := d[keyStart..i];
      i := i + 1;
      i := SkipColonSpace(d, i);
      if i >= n {
        return None;
      }
      var value := ParseMetaValue(dec, d, i);
      if value.None? {
        return None;
      }
      meta := meta[key := value.value.1];
      i := value.value.0;
    }
    return None;
  }

  // ---------------------------------------------------------------------------
  // parseEvalResult.
  // ---------------------------------------------------------------------------

  function IsTextField(key: string): bool {
    key == "variant" || key == "reason" || key == "errorCode" || key == "errorMessage"
  }

  function SetText<V>(r: EvalResult<V>, key: string, s: string): EvalResult<V> {
    if key == "variant" then r.(variant := s)
    else if key == "reason" then r.(reason := s)
    else if key == "errorCode" then r.(errorCode := s)
    else r.(errorMessage := s)
  }

  datatype FieldOutcome<V> = FieldTo(end: nat, result: EvalResult<V>) | FieldFallback | FieldOutOfRange

  /** The switch on the field name, at the first character of the value. */
  function FieldValueAt<V>(dec: Decoder<V>, d: string, key: string, i: nat, r: EvalResult<V>): FieldOutcome<V>
    requires i < |d|
  {
    if IsTextField(key) then
      if d[i] != '"' then FieldFallback else
      var q := QuoteEnd(d, i + 1);
      if q >= |d| then FieldFallback else FieldTo(q + 1, SetText(r, key, d[i + 1..q]))
    else if key == "value" then
      match ValueAt(dec, d, i)
      case ValueTo(end, v) => FieldTo(end, r.(value := v))
      case NoValue => FieldFallback
      case ValueOutOfRange => FieldOutOfRange
    else if key == "flagMetadata" then
      if d[i] != '{' then FieldFallback else
      match MetaAt(dec, d, i + 1, map[])
      case Some((meta, end)) => FieldTo(end, r.(metadata := Some(meta)))
      case None => FieldFallback
    else
      match SkipEnd(d, i)
      case Some(end) => FieldTo(end, r)
      case None => FieldFallback
  }

  lemma NestEndGrows(d: string, i: nat, depth: nat, k: Brackets)
    ensures NestEnd(d, i, depth, k) >= i
    decreases |d| - i
  {
  }

  lemma FieldValueAdvances<V>(dec: Decoder<V>, d: string, key: string, i: nat, r: EvalResult<V>)
    requires i < |d|
    ensures FieldValueAt(dec, d, key, i, r).FieldTo? ==> FieldValueAt(dec, d, key, i, r).end >= i
  {
    NestEndGrows(d, i + 1, 1, Braces);
    NestEndGrows(d, i + 1, 1, Squares);
  }

  /** The field loop from position `i` with the fields read so far. */
  function FieldsAt<V>(dec: Decoder<V>, d: string, i: nat, r: EvalResult<V>): Outcome<V>
    decreases |d| - i
  {
    var i := SpaceEnd(d, i);
    if i >= |d| || d[i] == '}' then Fast(r)
    else if d[i] == ',' then FieldsAt(dec, d, i + 1, r)
    else if d[i] != '"' then Fallback
    else
      var q := QuoteEnd(d, i + 1);
      if q >= |d| then Fallback else
      var colon := ColonEnd(d, q + 1);
      if colon >= |d| then Fallback else
      var v := SpaceEnd(d, colon + 1);
      if v >= |d| then Fallback else
      FieldValueAdvances(dec, d, d[i + 1..q], v, r);
      match FieldValueAt(dec, d, d[i + 1..q], v, r)
      case FieldTo(end, r') => FieldsAt(dec, d, end, r')
      case FieldFallback => Fallback
      case FieldOutOfRange => OutOfRange
  }

  /** parseEvalResult up to its fallback label. */
  function Parse<V>(dec: Decoder<V>, d: string): Outcome<V> {
    var i := SpaceEnd(d, 0);
    if i >= |d| || d[i] != '{' then Fallback else FieldsAt(dec, d, i + 1, Empty())
  }

  /** The switch on the field name. */
  method ParseField<V>(
    dec: Decoder<V>, d: string, key: string, start: nat, r: EvalResult<V>) returns (f: FieldOutcome<V>)
    requires start < |d|
    ensures f == FieldValueAt(dec, d, key, start, r)
  {
    hide QuoteEnd, MetaAt, ValueAt, SkipEnd;
    var i := start;
    if key == "variant" || key == "reason" || key == "errorCode" || key == "errorMessage" {
      if d[i] != '"' {
        return FieldFallback;
      }
      i := i + 1;
      var valStart := i;
      i := FindQuote(d, i);
      if i >= |d| {
        return FieldFallback;
      }
      var val := d[valStart..i];
      i := i + 1;
      if key == "variant" {
        return FieldTo(i, r.(variant := val));
      } else if key == "reason" {
        return FieldTo(i, r.(reason := val));
      } else if key == "errorCode" {
        return FieldTo(i, r.(errorCode := val));
      } else {
        return FieldTo(i, r.(errorMessage := val));
      }
    } else if key == "value" {
      var v := ParseValue(dec, d, i);
      if v.NoValue? {
        return FieldFallback;
      }
      if v.ValueOutOfRange? {
        return FieldOutOfRange;
      }
      return FieldTo(v.end, r.(value := v.value));
    } else if key == "flagMetadata" {
      if d[i] != '{' {
        return FieldFallback;
      }
      var m := ParseMetadata(dec, d, i);
      if m.None? {
        return FieldFallback;
      }
      return FieldTo(m.value.1, r.(metadata := Some(m.value.0)));
    } else {
      var end := SkipValue(d, i);
      if end.None? {
        return FieldFallback;
      }
      return FieldTo(end.value, r);
    }
  }

  method ParseEvalResult<V>(dec: Decoder<V>, d: string) returns (r: Outcome<V>)
    ensures r == Parse(dec, d)
  {
    hide QuoteEnd, SpaceEnd, ColonEnd, FieldValueAt;
    var res: EvalResult<V> := Empty();
    var n := |d|;
    var i := SkipSpace(d, 0);
    if i >= n || d[i] != '{' {
      return Fallback;
    }
    i := i + 1;
    while i < n
      invariant Parse(dec, d) == FieldsAt(dec, d, i, res)
      decreases n - i
    {
      i := SkipSpace(d, i);
      if i >= n || d[i] == '}' {
        break;
      }
      if d[i] == ',' {
        i := i + 1;
        continue;
      }
      if d[i] != '"' {
        return Fallback;
      }
      i := i + 1;
      var keyStart := i;
      i := FindQuote(d, i);
      if i >= n {
        return Fallback;
      }
      var key := d[keyStart..i];
      i := i + 1;
      i := FindColon(d, i);
      if i >= n {
        return Fallback;
      }
      i := SkipSpace(d, i + 1);
      if i >= n {
        return Fallback;
      }
      FieldValueAdvances(dec, d, key, i, res);
      var field := ParseField(dec, d, key, i, res);
      match field {
        case FieldTo(end, next) =>
          res := next;
          i := end;
        case FieldFallback => return Fallback;
        case FieldOutOfRange => return OutOfRange;
      }
    }
    return Fast(res);
  }
}
