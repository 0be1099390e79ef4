/**
  Tool payloads as Python sees them: dictionaries compare without regard to the
  order of their keys, so they are maps.
 */
module JsonValue {
  import opened PyText

  type Fields = map<string, Json>

  /** A payload value; floats are exact numbers. */
  datatype Json =
    | Null
    | Bool(b: bool)
    | Int(n: int)
    | Float(x: real)
    | Str(s: string)
    | Arr(items: seq<Json>)
    | Obj(fields: Fields)

  /** `dict.get(key)`: None for an absent key. */
  function Field(o: Fields, key: string): Json {
    if key in o then o[key] else Null
  }

  /** A string with something in it besides space. */
  predicate IsText(v: Json) {
    v.Str? && Strip(v.s) != ""
  }

  /** `isinstance(v, int)`: a bool is an int. */
  predicate IsInt(v: Json) {
    v.Int? || v.Bool?
  }

  predicate IsNumber(v: Json) {
    IsInt(v) || v.Float?
  }

  /** The number that an int or a bool stands for. */
  function IntOf(v: Json): int
    requires IsInt(v)
  {
    if v.Int? then v.n else if v.b then 1 else 0
  }

  function NumberOf(v: Json): real
    requires IsNumber(v)
  {
    if v.Float? then v.x else IntOf(v) as real
  }

  predicate IsWhole(x: real) {
    x.Floor as real == x
  }

  /** `int(v)` for a float that is a whole number; any other value as it is. */
  function WholeToInt(v: Json): Json {
    if v.Float? && IsWhole(v.x) then Int(v.x.Floor) else v
  }

  lemma WholeToIntTwice(v: Json)
    ensures WholeToInt(WholeToInt(v)) == WholeToInt(v)
  {
  }

  /** The fields of an object; none for any other value. */
  function FieldsOf(v: Json): Fields {
    if v.Obj? then v.fields else map[]
  }

  /** `dict.pop(key, None)` */
  function Without(o: Fields, key: string): (r: Fields)
    ensures r.Keys == o.Keys - {key}
    ensures forall k :: k in r ==> r[k] == o[k]
  {
    o - {key}
  }

  /** Stripping is idempotent, so a stripped text is a text that strips to itself. */
  lemma StripTwice(s: string)
    ensures Strip(Strip(s)) == Strip(s)
  {
    StripByTwice(s, CharIsSpace);
  }

  /** A value up to Python's `==`: numbers of any kind compare by value, and true is 1. */
  function Canon(v: Json): Json
    decreases v
  {
    match v
    case Bool(b) => Float(if b then 1.0 else 0.0)
    case Int(n) => Float(n as real)
    case Arr(items) => Arr(seq(|items|, i requires 0 <= i < |items| => Canon(items[i])))
    case Obj(fields) => Obj(map k | k in fields :: Canon(fields[k]))
    case _ => v
  }

  /** Python's `==` */
  predicate PyEq(v: Json, w: Json) {
    Canon(v) == Canon(w)
  }
}
