/** The Python values `json.loads` produces, and the few Python behaviours the
    message handlers apply to them: truthiness, `or`, `str()`, `dict.get`, and the
    messages of the exceptions raised when a value has the wrong type. */
module Json {
  import opened Common
  import opened Strings
  import Dict

  /** A decoded JSON document: `None`, `bool`, `int`, `str`, `list` or `dict`. */
  datatype Json =
    | JNull
    | JBool(b: bool)
    | JNum(n: int)
    | JStr(s: string)
    | JArr(items: seq<Json>)
    | JObj(fields: Dict.Dict<string, Json>)

  /** Python `bool(x)`: `None`, `False`, `0`, and empty strings, lists and dicts are false. */
  predicate Truthy(j: Json) {
    match j
    case JNull => false
    case JBool(b) => b
    case JNum(n) => n != 0
    case JStr(s) => |s| > 0
    case JArr(items) => |items| > 0
    case JObj(fields) => |fields| > 0
  }

  /** Python `x or default`. */
  function Or(x: Json, default: Json): Json {
    if Truthy(x) then x else default
  }

  /** `type(x).__name__`. */
  function TypeName(j: Json): string {
    match j
    case JNull => "NoneType"
    case JBool(_) => "bool"
    case JNum(_) => "int"
    case JStr(_) => "str"
    case JArr(_) => "list"
    case JObj(_) => "dict"
  }

  /** `str(e)` of the `AttributeError` raised by `x.get(...)` on a non-dict. */
  function NoGetError(j: Json): string {
    "'" + TypeName(j) + "' object has no attribute 'get'"
  }

  /** Lists and dicts cannot be dictionary keys; `x in some_dict` raises for them. */
  predicate Hashable(j: Json) {
    !j.JArr? && !j.JObj?
  }

  /** `str(e)` of the `TypeError` raised by `x in some_dict` for a list or dict. */
  function UnhashableError(j: Json): string {
    "unhashable type: '" + TypeName(j) + "'"
  }

  /** `str(x)` (as an f-string renders it) for a hashable value. */
  function PyStr(j: Json): string
    requires Hashable(j)
  {
    match j
    case JNull => "None"
    case JBool(b) => if b then "True" else "False"
    case JNum(n) => IntToString(n)
    case JStr(s) => s
  }

  /** `obj.get(k)` on a dict, `None` standing for a missing key. */
  function Field(obj: Json, k: string): Json
    requires obj.JObj?
  {
    Dict.Get(obj.fields, k).GetOr(JNull)
  }

  /** `obj.get(k, default)` on a dict. */
  function FieldOr(obj: Json, k: string, default: Json): Json
    requires obj.JObj?
  {
    Dict.Get(obj.fields, k).GetOr(default)
  }
}
