/** Python objects as produced by `response.json()`, and the Python
    operations the handler applies to them: truthiness, `key in value`,
    `value[key]` and `value.get(key, default)`. */
module Json {
  import opened Wrappers
  import Text

  /** A decoded JSON document: `None`, `bool`, `int`, `str`, `list` or `dict`. */
  datatype Value =
    | Null
    | Bool(b: bool)
    | Int(i: int)
    | Str(s: string)
    | Arr(items: seq<Value>)
    | Obj(fields: map<string, Value>)

  /** Python's truth value: `None`, `False`, `0` and empty containers are false. */
  predicate Truthy(v: Value) {
    match v
    case Null => false
    case Bool(b) => b
    case Int(i) => i != 0
    case Str(s) => s != ""
    case Arr(items) => items != []
    case Obj(fields) => fields != map[]
  }

  /** Python's `key in v` for a string `key`: a dictionary key, a list
      element equal to the string, or a substring; any other operand
      raises `TypeError`. */
  function In(key: string, v: Value): (r: Eval<bool>)
    ensures r.Raised? <==> (v.Null? || v.Bool? || v.Int?)
    ensures v.Obj? ==> r == Returned(key in v.fields)
    ensures v.Arr? ==> (r == Returned(true) <==> exists i :: 0 <= i < |v.items| && v.items[i] == Str(key))
    ensures v.Str? ==> (r == Returned(true) <==> exists i :: Text.OccursAt(key, v.s, i))
  {
    match v
    case Obj(fields) => Returned(key in fields)
    case Arr(items) => Returned(Str(key) in items)
    case Str(s) => Returned(Text.Contains(s, key))
    case _ => Raised
  }

  /** Python's `v[key]` for a string `key`: only a dictionary holding the
      key yields a value; a missing key raises `KeyError`, and any other
      operand raises `TypeError`. */
  function Subscript(v: Value, key: string): (r: Eval<Value>)
    ensures r.Returned? <==> v.Obj? && key in v.fields
    ensures r.Returned? ==> r.value == v.fields[key]
  {
    if v.Obj? && key in v.fields then Returned(v.fields[key]) else Raised
  }

  /** Python's `v.get(key, default)`: defined on dictionaries only; any
      other operand raises `AttributeError`. */
  function Get(v: Value, key: string, default: Value): (r: Eval<Value>)
    ensures r.Returned? <==> v.Obj?
    ensures v.Obj? && key in v.fields ==> r == Returned(v.fields[key])
    ensures v.Obj? && key !in v.fields ==> r == Returned(default)
  {
    match v
    case Obj(fields) => Returned(if key in fields then fields[key] else default)
    case _ => Raised
  }

  /** On a dictionary the three ways the handler reads a key agree:
      `key in v` holds exactly when `v[key]` does not raise, and then
      `v.get(key, d)` is `v[key]`; otherwise `v[key]` raises `KeyError`
      while `v.get(key, d)` falls back to `d`.  On anything else `v[key]`
      and `v.get(key, d)` both raise. */
  lemma DictOperationsAgree(v: Value, key: string, d: Value)
    ensures v.Obj? ==> (In(key, v) == Returned(true) <==> Subscript(v, key).Returned?)
    ensures v.Obj? && Subscript(v, key).Returned? ==> Get(v, key, d) == Subscript(v, key)
    ensures v.Obj? && Subscript(v, key).Raised? ==> Get(v, key, d) == Returned(d)
    ensures !v.Obj? ==> Subscript(v, key).Raised? && Get(v, key, d).Raised?
  {
  }
}
