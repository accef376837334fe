/** JSON values as `JSON.parse` yields them, and the JavaScript operations
    the enricher applies to them: property reads, `== null`, truthiness and
    `String(v)`. */
module Json {
  import opened Options
  import opened Text

  /** A decoded JSON value. Numbers are modelled by their integer value. */
  datatype Json =
    | JNull
    | JBool(b: bool)
    | JNum(n: int)
    | JStr(s: string)
    | JArr(elems: seq<Json>)
    | JObj(fields: map<string, Json>)

  /** `v.key` (and `v?.key`): `undefined`, here None, unless `v` is an object
      that has the key. Primitive values and arrays have none of the keys the
      scripts read. */
  function Get(v: Json, key: string): (r: Option<Json>)
    ensures r.Some? <==> v.JObj? && key in v.fields
  {
    if v.JObj? && key in v.fields then Some(v.fields[key]) else None
  }

  /** `v == null` (equivalently `v ?? x` choosing `x`): null or undefined. */
  predicate Nullish(v: Option<Json>) {
    v.None? || v.value.JNull?
  }

  /** JavaScript truthiness of a possibly undefined value. */
  predicate Truthy(v: Option<Json>) {
    match v
    case None => false
    case Some(JNull) => false
    case Some(JBool(b)) => b
    case Some(JNum(n)) => n != 0
    case Some(JStr(s)) => s != ""
    case Some(_) => true
  }

  /** `[p0, p1, ...].join(sep)`. */
  function Join(parts: seq<string>, sep: string): string
    decreases |parts|
  {
    if |parts| == 0 then ""
    else if |parts| == 1 then parts[0]
    else parts[0] + sep + Join(parts[1..], sep)
  }

  /** `String(v)`: what a value becomes as a `Map` key. An array joins its
      elements with commas, writing null elements as the empty string; an
      object becomes `[object Object]`. An object with its own `toString`
      property, which `String` would call instead (and throw on when it is
      not a function), is not told apart. */
  function ToJsString(v: Json): (r: string)
    ensures v.JStr? ==> r == v.s
    ensures v.JNum? && v.n >= 0 ==> AllDigits(r) && |r| > 0
    decreases v
  {
    match v
    case JNull => "null"
    case JBool(b) => if b then "true" else "false"
    case JNum(n) => IntToDecimal(n)
    case JStr(s) => s
    case JArr(xs) =>
      Join(seq(|xs|, i requires 0 <= i < |xs| => if xs[i].JNull? then "" else ToJsString(xs[i])), ",")
    case JObj(_) => "[object Object]"
  }
}
