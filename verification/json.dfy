/** JSON values as Python's `json` module reads and writes them; block payloads are JSON objects. */
module Json {

  /** A JSON value. Floating-point numbers are not modelled. */
  datatype Value =
    | Null
    | Bool(b: bool)
    | Int(i: int)
    | Str(s: string)
    | Array(items: seq<Value>)
    | Object(fields: map<string, Value>)

  /** A JSON object, i.e. a Python `dict` with string keys. */
  type Dict = map<string, Value>

  /** `d.get(key) == s` for a string `s`: a missing key yields `None`, which equals no string. */
  predicate GetIs(d: Dict, key: string, s: string)
  {
    key in d && d[key] == Str(s)
  }
}
