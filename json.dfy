/**
 * JavaScript values as the server sees them after `JSON.parse` or `express.json()`,
 * with the JavaScript notion of truthiness that the handlers branch on, and the
 * outcome of a call into a library the model does not look inside.
 */
module Json {

  /** A parsed JSON value. Numbers are exact reals (no rounding, no NaN or Infinity). */
  datatype Json =
    | JNull
    | JBool(b: bool)
    | JNum(n: real)
    | JStr(s: string)
    | JArr(items: seq<Json>)
    | JObj(fields: map<string, Json>)

  /** A property read `o.key`: either a value or `undefined`. */
  datatype Field = Missing | Present(value: Json)

  /** A value that may be absent. */
  datatype Option<T> = None | Some(value: T)

  /** Outcome of an awaited library call: its value, or the exception it threw. */
  datatype Outcome<T> = Done(value: T) | Threw

  /** `o.key` on a parsed object: `undefined` when the key is absent. */
  function Get(fields: map<string, Json>, key: string): (f: Field)
    ensures f.Present? <==> key in fields
    ensures f.Present? ==> f.value == fields[key]
  {
    if key in fields then Present(fields[key]) else Missing
  }

  /** JavaScript truthiness of a JSON value. */
  predicate TruthyValue(v: Json)
    ensures !TruthyValue(v) <==> v == JNull || v == JBool(false) || v == JNum(0.0) || v == JStr("")
  {
    match v
    case JNull => false
    case JBool(b) => b
    case JNum(n) => n != 0.0
    case JStr(s) => s != ""
    case JArr(_) => true
    case JObj(_) => true
  }

  /** JavaScript truthiness of a property read; `undefined` is falsy. */
  predicate Truthy(f: Field)
    ensures !Truthy(f) <==>
              f == Missing || f == Present(JNull) || f == Present(JBool(false)) ||
              f == Present(JNum(0.0)) || f == Present(JStr(""))
  {
    f.Present? && TruthyValue(f.value)
  }

  /** The expression `a || b`: `a` when it is truthy, otherwise `b`. */
  function Or(a: Field, b: Field): (r: Field)
    ensures Truthy(a) ==> r == a
    ensures !Truthy(a) ==> r == b
    ensures Truthy(r) <==> Truthy(a) || Truthy(b)
  {
    if Truthy(a) then a else b
  }
}
