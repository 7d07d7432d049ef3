/** JSON values as the JavaScript code sees them after `JSON.parse`, with the
    two JavaScript operations the core applies to them: truthiness (for `||`
    and `if`) and optional chaining (`v?.key`, `v?.[0]`). `Option<Json>` stands
    for a value that may be `undefined`: `None` is `undefined`. */
module Json {

  datatype Option<+T> = None | Some(value: T)

  /** Numbers are kept as integers; JavaScript's fractional values and NaN are
      not represented. */
  datatype Json =
    | JNull
    | JBool(b: bool)
    | JNum(n: int)
    | JStr(s: string)
    | JArr(items: seq<Json>)
    | JObj(fields: map<string, Json>)

  /** JavaScript truthiness: `undefined`, `null`, `false`, `0` and `""` are falsy. */
  predicate Truthy(v: Option<Json>)
  {
    match v
    case None => false
    case Some(JNull) => false
    case Some(JBool(b)) => b
    case Some(JNum(n)) => n != 0
    case Some(JStr(s)) => s != ""
    case Some(JArr(_)) => true
    case Some(JObj(_)) => true
  }

  /** `v?.key` for a key that is not a built-in property of strings, arrays or
      objects (the keys used in the core are of that kind). */
  function Prop(v: Option<Json>, key: string): (r: Option<Json>)
    ensures r.Some? ==> v.Some? && v.value.JObj? && key in v.value.fields && r.value == v.value.fields[key]
    ensures v.Some? && v.value.JObj? && key in v.value.fields ==> r.Some?
  {
    match v
    case Some(JObj(m)) => if key in m then Some(m[key]) else None
    case _ => None
  }

  /** `v?.[0]`: the first element of an array, the property named "0" of an
      object, or the first character of a string. */
  function First(v: Option<Json>): (r: Option<Json>)
    ensures v.Some? && v.value.JArr? && v.value.items != [] ==> r == Some(v.value.items[0])
    ensures v.Some? && v.value.JArr? && v.value.items == [] ==> r.None?
    ensures v.None? || v.value.JNull? || v.value.JNum? || v.value.JBool? ==> r.None?
  {
    match v
    case Some(JArr(a)) => if |a| > 0 then Some(a[0]) else None
    case Some(JObj(m)) => if "0" in m then Some(m["0"]) else None
    case Some(JStr(s)) => if |s| > 0 then Some(JStr([s[0]])) else None
    case _ => None
  }

  /** `a || b || fallback` over possibly-undefined values. */
  function Or(a: Option<Json>, b: Option<Json>, fallback: Json): (r: Json)
    ensures Truthy(a) ==> Some(r) == a
    ensures !Truthy(a) && Truthy(b) ==> Some(r) == b
    ensures !Truthy(a) && !Truthy(b) ==> r == fallback
  {
    if Truthy(a) then a.value else if Truthy(b) then b.value else fallback
  }

  /** A one-field object `{key: v}`. */
  function Single(key: string, v: Json): (r: Json)
    ensures Prop(Some(r), key) == Some(v)
  {
    JObj(map[key := v])
  }
}
