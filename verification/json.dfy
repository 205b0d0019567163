/**
 * The dynamic JSON values the pipeline reads from the hub's listings: what a
 * Python `dict`/`list`/scalar loaded by `json.load` can be.
 */
module Json {
  import opened Wrappers

  datatype Value =
    | Null
    | Bool(b: bool)
    | Int(i: int)
    | Float(r: real)
    | Str(s: string)
    | Arr(items: seq<Value>)
    | Obj(fields: map<string, Value>)

  /** Python truthiness: `bool(v)`. */
  predicate Truthy(v: Value) {
    match v
    case Null => false
    case Bool(b) => b
    case Int(i) => i != 0
    case Float(r) => r != 0.0
    case Str(s) => |s| > 0
    case Arr(items) => |items| > 0
    case Obj(fields) => |fields| > 0
  }

  /** `isinstance(v, (int, float))`; a Python `bool` is an `int`. */
  predicate IsNumber(v: Value) {
    v.Bool? || v.Int? || v.Float?
  }

  /** `d.get(key)` on an object; `None` for a missing key or a non-object. */
  function Get(v: Value, key: string): (r: Option<Value>)
    ensures r.Some? <==> v.Obj? && key in v.fields
  {
    if v.Obj? && key in v.fields then Some(v.fields[key]) else None
  }

  /** An object with some key is truthy. */
  lemma ObjectWithKeyTruthy(v: Value, key: string)
    requires v.Obj? && key in v.fields
    ensures Truthy(v)
  {
    assert |v.fields| == |v.fields.Keys|;
    assert key in v.fields.Keys;
  }

  /** An optional integer as the JSON value it was read from. */
  function OfInt(o: Option<int>): (v: Value)
    ensures o.None? <==> v == Null
  {
    match o
    case None => Null
    case Some(i) => Int(i)
  }
}
