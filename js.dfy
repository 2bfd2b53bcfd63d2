/** JavaScript values as the server code sees them: a key that may be missing
    (undefined or null) and the JSON values that travel in request and
    response bodies. */
module Js {

  /** None stands for a value that is `undefined` or `null`. */
  datatype Option<+T> = None | Some(value: T)

  /** The JavaScript `a ?? b`: falls back only when `a` is null or undefined. */
  function Coalesce<T>(a: Option<T>, b: Option<T>): (r: Option<T>)
    ensures a.Some? ==> r == a
    ensures a.None? ==> r == b
  {
    if a.Some? then a else b
  }

  /** Truthiness of a string-valued key: undefined, null and "" are falsy. */
  predicate Truthy(s: Option<string>)
  {
    s.Some? && s.value != ""
  }

  /** The JavaScript `a || b` on string-valued keys. */
  function Or(a: Option<string>, b: Option<string>): (r: Option<string>)
    ensures Truthy(a) ==> r == a
    ensures !Truthy(a) ==> r == b
  {
    if Truthy(a) then a else b
  }

  /** A number-valued key, keeping apart the two absences that arithmetic
      treats differently: `undefined * 1000` is NaN, `null * 1000` is 0. */
  datatype JsNumber = Undefined | Null | Num(n: int)

  /** `x * 1000` when `x` counts seconds: None for NaN. */
  function Millis(x: JsNumber): (r: Option<int>)
    ensures x.Undefined? <==> r.None?
    ensures x.Null? ==> r == Some(0)
    ensures x.Num? ==> r == Some(1000 * x.n)
  {
    match x
    case Undefined => None
    case Null => Some(0)
    case Num(n) => Some(n * 1000)
  }

  /** A JSON value. Numbers are integers here: the only numbers the core
      reads are row ids and second counts. */
  datatype Json =
    | JNull
    | JBool(b: bool)
    | JNum(n: int)
    | JStr(s: string)
    | JArr(items: seq<Json>)
    | JObj(fields: map<string, Json>)

  /** The value a column receives when the key is missing from a payload:
      `JSON.stringify` drops undefined keys, so the column keeps its
      default, null. */
  function OrNull(v: Option<Json>): (r: Json)
    ensures v.Some? ==> r == v.value
    ensures v.None? ==> r == JNull
  {
    if v.Some? then v.value else JNull
  }
}
