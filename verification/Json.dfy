/** serde_json values. An object is a map: the crate's default map keeps no insertion order. */
module Json {
  import opened Common
  import opened Text

  /** Integers are kept exactly; any other number is kept as its text. */
  datatype Number = Int(value: int) | Float(text: string) {
    function AsU64(): Option<U64> {
      if Int? && 0 <= value < 0x1_0000_0000_0000_0000 then Some(value) else None
    }

    function ToText(): string {
      match this
      case Int(n) => Decimal(n)
      case Float(t) => t
    }
  }

  datatype Json =
    | Null
    | Bool(b: bool)
    | Num(n: Number)
    | Str(s: string)
    | Arr(items: seq<Json>)
    | Obj(members: map<string, Json>)
  {
    /** `value.get(key)`: a member of an object, nothing on any other value. */
    function Get(key: string): Option<Json> {
      if Obj? && key in members then Some(members[key]) else None
    }

    /** `value.as_str().unwrap_or("")`, through an optional value. */
    static function TextOrEmpty(v: Option<Json>): string {
      if v.Some? && v.value.Str? then v.value.s else ""
    }
  }
}
