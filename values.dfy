/** Values read from the pipeline's YAML configuration, and the Python
    operations the translation applies to them (subscripting, `> 1`). */
module PyValues {

  /** A YAML value as Python sees it: null, the scalar kinds and lists.
      Mappings nested inside the configuration are not represented. */
  datatype Value =
    | NoneV
    | BoolV(b: bool)
    | IntV(i: int)
    | RealV(r: real)
    | StrV(s: string)
    | ListV(items: seq<Value>)

  /** The Python exceptions the translation can raise, with the field involved. */
  datatype Error =
    | KeyError(key: string)               // `config_yaml[key]` with `key` absent
    | TypeError(field: string)            // the field's value does not support the operation
    | IndexError(field: string, index: nat)  // `config_yaml[field][index]` past the end

  datatype Option<T> = None | Some(value: T)

  datatype Result<T> = Ok(value: T) | Err(error: Error)

  /** A source record: the `global` section of the pipeline's YAML file. */
  type Source = map<string, Value>

  /** The items that integer subscripting `v[0], v[1], ...` yields, or None
      when `v[i]` raises TypeError. A string yields its one-character strings. */
  function Items(v: Value): Option<seq<Value>>
  {
    match v
    case ListV(xs) => Some(xs)
    case StrV(s) => Some(seq(|s|, k requires 0 <= k < |s| => StrV([s[k]])))
    case _ => None
  }

  /** Python `v[i]` for `i >= 0`, where `v` is the value of `field`. */
  function Subscript(field: string, v: Value, i: nat): (r: Result<Value>)
    ensures r.Ok? <==> Items(v).Some? && i < |Items(v).value|
    ensures r.Ok? ==> r.value == Items(v).value[i]
    ensures r.Err? ==> r.error == if Items(v).None? then TypeError(field) else IndexError(field, i)
  {
    match Items(v)
    case None => Err(TypeError(field))
    case Some(xs) => if i < |xs| then Ok(xs[i]) else Err(IndexError(field, i))
  }

  /** Python `v > 1`: integers and floats compare numerically, a bool as 0 or 1;
      None, strings and lists raise TypeError. */
  function GreaterThanOne(field: string, v: Value): (r: Result<bool>)
    ensures r.Err? <==> v.NoneV? || v.StrV? || v.ListV?
    ensures r.Err? ==> r.error == TypeError(field)
    ensures r == Ok(true) <==> (v.IntV? && v.i > 1) || (v.RealV? && v.r > 1.0)
  {
    match v
    case IntV(n) => Ok(n > 1)
    case RealV(x) => Ok(x > 1.0)
    case BoolV(b) => Ok(false)
    case _ => Err(TypeError(field))
  }
}
