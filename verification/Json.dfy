/** Parsed JSON values, with the Python rules the modelled code applies to them. */
module JsonValues {

  datatype Json =
    | Null
    | Bool(b: bool)
    | Num(n: int)
    | Str(s: string)
    | List(items: seq<Json>)
    | Dict(fields: map<string, Json>)

  /** `d.get(key)`: a missing key reads as `None`. */
  function Get(fields: map<string, Json>, key: string): Json {
    if key in fields then fields[key] else Null
  }

  /** Python truth value. */
  predicate Truthy(v: Json) {
    match v
    case Null => false
    case Bool(b) => b
    case Num(n) => n != 0
    case Str(s) => s != ""
    case List(items) => items != []
    case Dict(fields) => fields != map[]
  }

  /** Python's false values. */
  const NOTHING: set<Json> := {Null, Bool(false), Num(0), Str(""), List([]), Dict(map[])}

  lemma TruthyExactly(v: Json)
    ensures Truthy(v) <==> v !in NOTHING
  {
  }

  /** The integer a Python value equals: `True` is 1 and `False` is 0. */
  function AsInt(v: Json): (r: seq<int>) {
    match v
    case Bool(b) => if b then [1] else [0]
    case Num(n) => [n]
    case _ => []
  }

  /** A non-empty string. */
  predicate NonEmptyStr(v: Json) {
    v.Str? && v.s != ""
  }
}
