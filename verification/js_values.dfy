/** JavaScript values as they reach the subscription code through JSON bodies,
    and the truthiness test that `if (!v)` and `v || fallback` perform on them. */
module JsValues {

  datatype Option<+T> = None | Some(value: T)

  /** One field of a parsed JSON body. `Undefined` is a field that is absent;
      `Compound` is an object or an array. Numbers are integers in this model. */
  datatype JsValue =
    | Undefined
    | Null
    | Bool(b: bool)
    | Number(n: int)
    | Str(s: string)
    | Compound

  /** JavaScript truthiness: `undefined`, `null`, `false`, `0` and `""` are falsy,
      every other value is truthy. */
  predicate Truthy(v: JsValue)
    ensures v.Undefined? || v.Null? ==> !Truthy(v)
    ensures v.Bool? ==> (Truthy(v) <==> v.b)
    ensures v.Number? ==> (Truthy(v) <==> v.n != 0)
    ensures v.Compound? ==> Truthy(v)
    ensures v.Str? ==> (Truthy(v) <==> |v.s| > 0)
  {
    match v
    case Undefined => false
    case Null => false
    case Bool(b) => b
    case Number(n) => n != 0
    case Str(s) => s != ""
    case Compound => true
  }

  /** The operator `a || b`: yields one of its operands, and is truthy as soon as
      either operand is. */
  function Or(a: JsValue, b: JsValue): (r: JsValue)
    ensures r == a || r == b
    ensures Truthy(r) <==> Truthy(a) || Truthy(b)
    ensures Truthy(a) ==> r == a
    ensures !Truthy(a) ==> r == b
  {
    if Truthy(a) then a else b
  }

  /** The JavaScript value of an environment variable: a string, or undefined. */
  function EnvValue(v: Option<string>): JsValue {
    if v.Some? then Str(v.value) else Undefined
  }

  /** An environment variable counts as set when `!v` is false: it is defined and
      not the empty string. */
  predicate IsSet(v: Option<string>)
    ensures IsSet(v) <==> Truthy(EnvValue(v))
  {
    v.Some? && v.value != ""
  }
}
