/**
 * The Python values the statistics code works on: decoded JSON, the
 * exceptions it can raise, dictionary lookup with a default, truthiness,
 * and the two float-to-int conversions it uses (`int(x)` and `round(x)`).
 * Floats are idealised as exact reals.
 */
module PyValues {

  datatype Option<T> = None | Some(value: T)

  /** A value decoded by `json.loads`. JSON booleans and floats are not modelled. */
  datatype Json = JNull | JInt(n: int) | JStr(s: string) | JObj(fields: map<string, Json>)

  /** The exceptions the modelled code can raise. */
  datatype PyError = TypeError | AttributeError | ValueError

  /** The outcome of a Python call: a value, or the exception it raises. */
  datatype Result<T> = Ok(value: T) | Raises(error: PyError)

  /** `d.get(key, default)`: the stored value, even an explicit `null`, or the default. */
  function Get(d: map<string, Json>, key: string, default: Json): Json {
    if key in d then d[key] else default
  }

  /** `bool(v)`: `None`, `0`, `""` and `{}` are falsy. */
  predicate Truthy(v: Json) {
    match v
    case JNull => false
    case JInt(n) => n != 0
    case JStr(s) => s != ""
    case JObj(f) => f != map[]
  }

  /** `int(x)` on a float: rounds toward zero. */
  function Trunc(x: real): (k: int)
    ensures 0.0 <= x ==> k as real <= x < k as real + 1.0
    ensures x < 0.0 ==> k as real - 1.0 < x <= k as real
  {
    if x >= 0.0 then x.Floor else -((-x).Floor)
  }

  /** `round(x)` in Python 3: the nearest integer, a tie going to the even one. */
  function RoundHalfEven(x: real): (k: int)
    ensures x - 0.5 <= k as real <= x + 0.5
    ensures k as real == x - 0.5 || k as real == x + 0.5 ==> k % 2 == 0
  {
    var f := x.Floor;
    var d := x - f as real;
    if d < 0.5 then f
    else if d > 0.5 then f + 1
    else if f % 2 == 0 then f else f + 1
  }
}
