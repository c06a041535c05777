/** JSON values as Python holds them after reading a file. */
module JsonValue {

  /** The number mantissa * 2^exponent. */
  datatype Binary = Binary(mantissa: int, exponent: int)

  /** A finite float. Every such number has one form, with an odd mantissa or as zero, so floats are compared as data. */
  type Double = f: Binary | f.mantissa % 2 == 1 || f == Binary(0, 0) witness Binary(0, 0)

  datatype Json =
    | Null | Bool(b: bool) | Int(i: int) | Float(f: Double) | Str(s: string)
    | List(items: seq<Json>) | Dict(fields: map<string, Json>)

  function Pow2(n: nat): nat {
    if n == 0 then 1 else 2 * Pow2(n - 1)
  }

  /** Python's `f == n`; a float with a negative exponent is no integer. */
  predicate IsInteger(f: Double, n: int) {
    f.exponent >= 0 && f.mantissa * Pow2(f.exponent) == n
  }

  /** Python's truth value. */
  predicate Truthy(j: Json) {
    match j
    case Null => false
    case Bool(b) => b
    case Int(i) => i != 0
    case Float(f) => f.mantissa != 0
    case Str(s) => s != ""
    case List(items) => items != []
    case Dict(fields) => fields != map[]
  }
}
