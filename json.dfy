/** The shape of a parsed JSON document (`serde_json::Value`). Numbers keep
    the distinction serde_json makes between integers and floats; floats are
    modelled as reals. Object members keep their textual order. */
module Json {
  datatype Number = Int(i: int) | Float(f: real)

  datatype JsonValue =
    | Null
    | Bool(b: bool)
    | Num(n: Number)
    | Str(s: string)
    | Array(items: seq<JsonValue>)
    | Object(members: seq<(string, JsonValue)>)

  /** `Value::as_f64`: the numeric value of a number, as a real. */
  function AsReal(n: Number): real {
    match n
    case Int(i) => i as real
    case Float(f) => f
  }
}
