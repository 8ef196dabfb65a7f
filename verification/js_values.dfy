/** JavaScript values as the route handlers see them once Express has parsed a
    JSON request body or a query string. */
module JsValues {

  /** A JSON-parsed JavaScript value. Numbers are reals: JSON cannot carry NaN,
      and an overflowing literal parses to a nonzero, truthy infinity, so the
      only falsy number is zero. */
  datatype JsVal =
    | Undefined
    | Null
    | Bool(b: bool)
    | Num(x: real)
    | Str(s: string)
    | Arr(elems: seq<JsVal>)
    | Obj(props: seq<(string, JsVal)>)

  /** ECMAScript ToBoolean, the test behind `!name`, `!!fromAdmin` and `x || null`. */
  predicate Truthy(v: JsVal)
    ensures !Truthy(v) <==> v in {Undefined, Null, Bool(false), Num(0.0), Str("")}
  {
    match v
    case Undefined => false
    case Null => false
    case Bool(b) => b
    case Num(x) => x != 0.0
    case Str(s) => s != ""
    case Arr(_) => true
    case Obj(_) => true
  }

  /** A request body after `req.body || {}`: property name to value. A body that
      is missing, or is not an object, reads as the empty map. */
  type Body = map<string, JsVal>

  /** Destructuring `const { key } = body`: an absent property reads as `undefined`. */
  function Field(body: Body, key: string): JsVal {
    if key in body then body[key] else Undefined
  }

  /** Destructuring with a default, `const { key = d } = body`: the default
      replaces only `undefined`; a supplied `""`, `null`, `0` or `false` is kept. */
  function OrDefault(v: JsVal, d: JsVal): (r: JsVal)
    ensures v != Undefined ==> r == v
    ensures v == Undefined ==> r == d
    ensures d != Undefined ==> r != Undefined
  {
    if v == Undefined then d else v
  }

  /** `v || null`. */
  function OrNull(v: JsVal): (r: JsVal)
    ensures Truthy(r) == Truthy(v)
    ensures Truthy(v) ==> r == v
    ensures !Truthy(v) ==> r == Null
    ensures r != Undefined
  {
    if Truthy(v) then v else Null
  }

  /** ECMAScript ToString, as a template literal `${v}` applies it, returns
      rather than throws. A parsed object with its own `toString` property has
      a non-callable `toString`; the fallback `valueOf` returns the object
      itself, so the conversion throws a TypeError. An array joins its
      elements, so it converts when every element does. */
  predicate ToStringReturns(v: JsVal) {
    match v
    case Arr(elems) => forall i :: 0 <= i < |elems| ==> ToStringReturns(elems[i])
    case Obj(props) => forall i :: 0 <= i < |props| ==> props[i].0 != "toString"
    case _ => true
  }

  /** `Array.isArray(v) && v.length > 0`. */
  predicate NonEmptyArray(v: JsVal) {
    v.Arr? && |v.elems| > 0
  }
}
