/** Dynamic values as they appear in the amenity table: tag dictionaries,
    tag values and the other scalars a table cell can hold, together with
    Python's truthiness and `or`. */
module Values {

  /** Some/None, used where the modelled code can fail (raise). */
  datatype Option<+T> = None | Some(value: T)

  /** A scalar value. `Null` stands for Python's `None` (and for a missing cell). */
  datatype Value = Null | Bool(b: bool) | Num(n: real) | Str(s: string)

  /** A table cell: either a tag dictionary or some other scalar. */
  datatype Cell = Dict(entries: map<string, Value>) | Scalar(v: Value)

  /** Python's `bool(v)`: None, False, zero and the empty string are falsy. */
  predicate Truthy(v: Value)
  {
    match v
    case Null => false
    case Bool(b) => b
    case Num(n) => n != 0.0
    case Str(s) => |s| > 0
  }

  /** Python's `d.get(k)`: the entry, or None when the key is absent. */
  function Get(m: map<string, Value>, k: string): Value
  {
    if k in m then m[k] else Null
  }

  /** Python's `a or b`: `a` when it is truthy, otherwise `b` (whatever `b` is). */
  function Or(a: Value, b: Value): Value
  {
    if Truthy(a) then a else b
  }
}
