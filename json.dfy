/** JSON values as Python's json module decodes them, and the record shape
    every stage of the pipeline reads from. */
module Json {

  datatype Option<T> = None | Some(value: T)

  /** A decoded JSON value. JSON integers become `Int`, JSON numbers with a
      fraction or exponent become `Float` (modelled as a real). */
  datatype Value =
    | Null
    | Bool(b: bool)
    | Int(i: int)
    | Float(f: real)
    | Str(s: string)
    | Array(items: seq<Value>)
    | Object(fields: map<string, Value>)

  /** One decoded log line: a JSON object with arbitrary keys. */
  type Record = map<string, Value>

  /** `record.get(key)`: the value stored under key, or `None` (JSON null) when absent. */
  function Get(r: Record, key: string): Value
  {
    if key in r then r[key] else Null
  }

  /** Python truthiness of a decoded value: `None`, `False`, zero, the empty
      string and empty containers are false, everything else is true. */
  predicate Truthy(v: Value)
  {
    match v
    case Null => false
    case Bool(b) => b
    case Int(i) => i != 0
    case Float(f) => f != 0.0
    case Str(s) => s != ""
    case Array(items) => items != []
    case Object(fields) => fields != map[]
  }

  /** `isinstance(v, (int, float))`: Python's bool is a subclass of int, so a
      JSON `true`/`false` passes this test too. */
  predicate IsNumber(v: Value)
  {
    v.Bool? || v.Int? || v.Float?
  }

  /** The numeric value Python uses for a value that passes `IsNumber`. */
  function NumberValue(v: Value): real
    requires IsNumber(v)
  {
    match v
    case Bool(b) => if b then 1.0 else 0.0
    case Int(i) => i as real
    case Float(f) => f
  }
}
