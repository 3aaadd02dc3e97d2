/** JSON values as Python's `json` module produces them, and the Python
    built-ins the pipeline applies to them (`dict.get`, `isinstance(x, int)`,
    `int(x)`, `float(x)`, `str(x)`). Parsing decimal text into numbers and
    rendering floats, lists and dicts as text are supplied by the caller as
    a `Coercions` value. */
module Json {
  import opened Wrappers
  import opened Strings

  datatype Json =
    | JNull
    | JBool(b: bool)
    | JInt(i: int)
    | JFloat(r: real)
    | JString(s: string)
    | JList(items: seq<Json>)
    | JDict(fields: map<string, Json>)

  /** The conversions Python performs on text and that this model does not
      spell out: `int(s)` and `float(s)` on a string (None where Python
      raises ValueError) and `str(v)` of a float, list or dict. */
  datatype Coercions = Coercions(
    parseInt: string -> Option<int>,
    parseFloat: string -> Option<real>,
    render: Json -> string)

  /** `d.get(key, default)`. */
  function GetOr(fields: map<string, Json>, key: string, default: Json): Json
  {
    if key in fields then fields[key] else default
  }

  /** `isinstance(v, int)`: True and False are ints in Python. */
  predicate IsPyInt(v: Json)
  {
    v.JInt? || v.JBool?
  }

  function IntOf(v: Json): int
    requires IsPyInt(v)
  {
    if v.JInt? then v.i else if v.b then 1 else 0
  }

  /** `int(r)` of a float: truncation toward zero. */
  function Truncate(r: real): (n: int)
    ensures r >= 0.0 ==> n as real <= r < n as real + 1.0
    ensures r < 0.0 ==> n as real - 1.0 < r <= n as real
  {
    if r >= 0.0 then r.Floor else -((-r).Floor)
  }

  /** `int(v)`: None where Python raises (None, lists, dicts, bad text). */
  function PyInt(v: Json, co: Coercions): Option<int>
  {
    match v
    case JInt(i) => Some(i)
    case JBool(b) => Some(if b then 1 else 0)
    case JFloat(r) => Some(Truncate(r))
    case JString(s) => co.parseInt(s)
    case _ => None
  }

  /** `float(v)`: None where Python raises. */
  function PyFloat(v: Json, co: Coercions): Option<real>
  {
    match v
    case JInt(i) => Some(i as real)
    case JBool(b) => Some(if b then 1.0 else 0.0)
    case JFloat(r) => Some(r)
    case JString(s) => co.parseFloat(s)
    case _ => None
  }

  /** `type(v).__name__`. */
  function TypeName(v: Json): string
  {
    match v
    case JNull => "NoneType"
    case JBool(_) => "bool"
    case JInt(_) => "int"
    case JFloat(_) => "float"
    case JString(_) => "str"
    case JList(_) => "list"
    case JDict(_) => "dict"
  }

  /** The message of the AttributeError raised by `v.get(...)` on a non-dict. */
  function NoGet(v: Json): string
  {
    "'" + TypeName(v) + "' object has no attribute 'get'"
  }

  /** `str(v)`. */
  function PyStr(v: Json, co: Coercions): string
  {
    match v
    case JString(s) => s
    case JNull => "None"
    case JBool(b) => if b then "True" else "False"
    case JInt(i) => IntToString(i)
    case _ => co.render(v)
  }
}
