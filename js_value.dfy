/**
 * The JavaScript values the application reads from parsed JSON (manifests,
 * device replies) and the three pieces of JavaScript semantics it relies on:
 * truthiness, the `||` operator and property reads.
 */
module JsValues {

  /** A JSON-shaped JavaScript value; `Undefined` stands for a missing property. */
  datatype JsValue =
    | Undefined
    | Null
    | Bool(b: bool)
    | Num(n: real)
    | Str(s: string)
    | Arr(items: seq<JsValue>)
    | Obj(props: map<string, JsValue>)

  /** JavaScript truthiness: an empty string, 0, false, null and undefined are falsy;
      every array and every object, even an empty one, is truthy. */
  predicate Truthy(v: JsValue) {
    match v
    case Undefined => false
    case Null => false
    case Bool(b) => b
    case Num(n) => n != 0.0
    case Str(s) => s != ""
    case Arr(_) => true
    case Obj(_) => true
  }

  /** `a || b`. */
  function Or(a: JsValue, b: JsValue): JsValue {
    if Truthy(a) then a else b
  }

  /** `v.key` on a value that is neither null nor undefined: only objects carry
      the named properties the application reads. */
  function Prop(v: JsValue, key: string): JsValue {
    match v
    case Obj(m) => if key in m then m[key] else Undefined
    case _ => Undefined
  }

  /** The values `for (const x of v)` visits for a field that passed
      `v && v.length > 0`: the items of an array, the characters of a string;
      nothing for any other value. */
  function Elements(v: JsValue): seq<JsValue> {
    match v
    case Arr(xs) => xs
    case Str(s) => seq(|s|, i requires 0 <= i < |s| => Str([s[i]]))
    case _ => []
  }

  /** `a || b` yields a truthy value whenever either operand is truthy,
      and yields the right operand exactly when the left one is falsy. */
  lemma OrTruthy(a: JsValue, b: JsValue)
    ensures Truthy(Or(a, b)) <==> Truthy(a) || Truthy(b)
    ensures Or(a, b) == a || Or(a, b) == b
  {
  }

  /** Only a non-empty array or a non-empty string gives a field something to iterate,
      and such a field is truthy. */
  lemma ElementsNonEmpty(v: JsValue)
    ensures |Elements(v)| > 0 ==> Truthy(v)
    ensures |Elements(v)| > 0 <==> (v.Arr? && |v.items| > 0) || (v.Str? && |v.s| > 0)
  {
  }
}
