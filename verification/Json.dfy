/**
 * JSON values as the contract scripts see them after json.loads.
 *
 * Datatype equality is equality of the canonical dump (sorted keys, literal
 * spelling kept: 1 and 1.0 differ).  `SameInstance` is equality of JSON Schema
 * instances, and `PythonEqual` is the `==` of the interpreter, for which True
 * and 1 are equal.
 */
module Json {
  datatype Json =
    | Null
    | Bool(b: bool)
    | Num(value: real, isFloat: bool)
    | Str(s: string)
    | Arr(items: seq<Json>)
    | Obj(fields: map<string, Json>)

  /** Forgets how a number is spelled and, when `numericBooleans`, that a boolean is not a number. */
  function Fold(j: Json, numericBooleans: bool): Json {
    match j
    case Bool(b) => if numericBooleans then Num(if b then 1.0 else 0.0, false) else j
    case Num(r, _) => Num(r, false)
    case Arr(xs) => Arr(seq(|xs|, i requires 0 <= i < |xs| => Fold(xs[i], numericBooleans)))
    case Obj(m) => Obj(map k | k in m :: Fold(m[k], numericBooleans))
    case _ => j
  }

  predicate SameInstance(a: Json, b: Json) {
    Fold(a, false) == Fold(b, false)
  }

  predicate PythonEqual(a: Json, b: Json) {
    Fold(a, true) == Fold(b, true)
  }
}
