/**
 * JSON values as the core receives them from `response.json()`,
 * `request.json()` and `JSON.parse`, with the JavaScript semantics the core
 * leans on: `undefined` (a missing member, modelled by `None`), truthiness,
 * member and index access, `a || b`, `a?.b`, and `String(v)` as used in
 * template strings.  Numbers are integers (floating point is not modelled).
 */
module Json {
  import opened Wrappers
  import opened Text

  datatype Json =
    | JNull
    | JBool(b: bool)
    | JNum(n: int)
    | JStr(s: string)
    | JArr(items: seq<Json>)
    | JObj(fields: map<string, Json>)

  /** A JavaScript value that may be `undefined`. */
  type Value = Option<Json>

  /** JavaScript truthiness: `undefined`, `null`, `false`, `0` and `''` are
      falsy; arrays and objects are truthy even when empty. */
  predicate Truthy(v: Value) {
    match v
    case None => false
    case Some(JNull) => false
    case Some(JBool(b)) => b
    case Some(JNum(n)) => n != 0
    case Some(JStr(s)) => s != ""
    case Some(JArr(_)) => true
    case Some(JObj(_)) => true
  }

  /** `v.key` on a value that is not `null`: only objects carry members;
      arrays, strings, numbers and booleans answer `undefined` for the
      member names the core reads. */
  function Member(v: Json, key: string): (r: Value)
    ensures r.Some? ==> v.JObj? && key in v.fields && r.value == v.fields[key]
  {
    match v
    case JObj(fields) => if key in fields then Some(fields[key]) else None
    case _ => None
  }

  /** Reading a member of `undefined` or `null` throws a `TypeError`. */
  predicate AccessThrows(v: Value) {
    v.None? || v.value.JNull?
  }

  /** `v?.key`: `undefined` when `v` is `undefined` or `null`. */
  function OptMember(v: Value, key: string): Value {
    if AccessThrows(v) then None else Member(v.value, key)
  }

  /** `v[i]` on a value that is not `null`: an array element, the `i`-th
      character of a string, or the member named by the digits of `i`. */
  function Index(v: Json, i: nat): Value {
    match v
    case JArr(items) => if i < |items| then Some(items[i]) else None
    case JStr(s) => if i < |s| then Some(JStr([s[i]])) else None
    case JObj(fields) => Member(v, NatToString(i))
    case _ => None
  }

  /** A list of strings as a JSON array, entry by entry. */
  function StringsToJson(s: seq<string>): (r: Json)
    ensures r.JArr? && |r.items| == |s|
    ensures forall i :: 0 <= i < |s| ==> r.items[i] == JStr(s[i])
  {
    JArr(seq(|s|, i requires 0 <= i < |s| => JStr(s[i])))
  }

  /** `a || b`: `a` when it is truthy, `b` otherwise. */
  function Or(a: Value, b: Json): (r: Json)
    ensures Truthy(a) ==> Some(r) == a
    ensures !Truthy(a) ==> r == b
  {
    if Truthy(a) then a.value else b
  }

  /** `String(v)`, the text a template string inserts for `${v}`. */
  function ToText(v: Value): string {
    match v
    case None => "undefined"
    case Some(j) => JsonToText(j)
  }

  function JsonToText(j: Json): string
    decreases j, 1
  {
    match j
    case JNull => "null"
    case JBool(b) => if b then "true" else "false"
    case JNum(n) => IntToString(n)
    case JStr(s) => s
    case JArr(items) => ItemsToText(j, items)
    case JObj(_) => "[object Object]"
  }

  /** `Array.prototype.join(',')` as `String` applies it to an array:
      `null` elements become the empty string. */
  function ItemsToText(whole: Json, items: seq<Json>): string
    requires forall k :: 0 <= k < |items| ==> items[k] < whole
    decreases whole, 0, |items|
  {
    if items == [] then ""
    else
      var first := if items[0].JNull? then "" else JsonToText(items[0]);
      if |items| == 1 then first else first + "," + ItemsToText(whole, items[1..])
  }
}
