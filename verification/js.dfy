/** The JavaScript semantics the explorer's route handlers rely on, over a
    parsed JSON body: `undefined`, truthiness, `||`, property access (which
    throws on `null` and `undefined`), optional chaining and `===`; and the
    outcome of the gateway fetch. */
module Js {
  import opened Wrappers
  import opened Json

  /** A JavaScript value as the handlers see it: `undefined`, or a value
      that came out of `JSON.parse`. */
  datatype JsVal = Undefined | Val(v: Json)

  predicate Nullish(x: JsVal) {
    x.Undefined? || x == Val(Null)
  }

  /** JavaScript truthiness: unlike Python, an empty array or object is
      truthy. */
  predicate Truthy(x: JsVal) {
    match x
    case Undefined => false
    case Val(j) =>
      match j
      case Null => false
      case Bool(b) => b
      case Num(n) => n != 0
      case Str(s) => s != []
      case Arr(_) => true
      case Obj(_) => true
  }

  /** `a || b`. */
  function Or(a: JsVal, b: JsVal): (r: JsVal)
    ensures Truthy(a) ==> r == a
    ensures !Truthy(a) ==> r == b
  {
    if Truthy(a) then a else b
  }

  /** `x.p` for a property name that no built-in prototype defines (such as
      `chain`, `ts` or `receipt_hash`): a TypeError on `null` and
      `undefined`, the member on an object, `undefined` everywhere else. */
  function Prop(x: JsVal, p: string): (r: Result<JsVal>)
    ensures r.Raised? <==> Nullish(x)
    ensures x.Val? && x.v.Obj? && !HasKey(x.v.members, p) ==> r == Ok(Undefined)
    ensures x.Val? && x.v.Obj? && HasKey(x.v.members, p) ==> r == Ok(Val(Field(x.v.members, p)))
  {
    match x
    case Undefined => Raised
    case Val(j) =>
      match j
      case Null => Raised
      case Obj(ms) => (match Lookup(ms, p) case Some(v) => Ok(Val(v)) case None => Ok(Undefined))
      case _ => Ok(Undefined)
  }

  /** `x?.p`: `undefined` when `x` is `null` or `undefined`. */
  function OptProp(x: JsVal, p: string): (r: JsVal)
    ensures Nullish(x) ==> r == Undefined
    ensures !Nullish(x) ==> Ok(r) == Prop(x, p)
  {
    if Nullish(x) then Undefined else Prop(x, p).value
  }

  /** `a === b` between values read out of one parsed document: primitives
      compare by value (with no conversion between booleans and numbers),
      and two arrays or objects are never the same object, since every
      occurrence in the text is parsed into a fresh one. */
  predicate StrictEq(a: JsVal, b: JsVal) {
    match a
    case Undefined => b.Undefined?
    case Val(x) =>
      b.Val? &&
      match x
      case Null => b.v.Null?
      case Bool(p) => b.v.Bool? && b.v.b == p
      case Num(n) => b.v.Num? && b.v.n == n
      case Str(s) => b.v.Str? && b.v.s == s
      case Arr(_) => false
      case Obj(_) => false
  }

  /** What `await fetch(url)` and `await r.json()` give: a network failure
      (the promise rejects), or a response with its status and its body,
      which is `None` when the body is not JSON (`r.json()` rejects). */
  datatype Fetched = NetworkError | Response(status: int, body: Option<Json>)

  /** `r.ok`: a status in the range 200-299. */
  predicate StatusOk(status: int) {
    200 <= status <= 299
  }
}
