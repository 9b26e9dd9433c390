/**
  The few JavaScript value semantics the request handlers rely on: the values a JSON
  body or a query string can carry, their truthiness, and the `||` operator that the
  handlers chain to pick a field from the body, then the query, then a default.
  Numbers are integers here; floating point and NaN are not modelled.
 */
module JsValues {

  /** A value read from a parsed JSON body or from the query string. */
  datatype JsValue = Undefined | Null | Bool(b: bool) | Num(n: int) | Str(s: string)

  /** JavaScript truthiness: `undefined`, `null`, `false`, `0` and `""` are falsy. */
  predicate Truthy(v: JsValue)
    ensures !Truthy(v) <==> v in [Undefined, Null, Bool(false), Num(0), Str("")]
  {
    match v
    case Undefined => false
    case Null => false
    case Bool(b) => b
    case Num(n) => n != 0
    case Str(s) => s != ""
  }

  /** JavaScript `a || b`: the left operand when it is truthy, otherwise the right one. */
  function Or(a: JsValue, b: JsValue): (r: JsValue)
    ensures Truthy(r) <==> Truthy(a) || Truthy(b)
    ensures Truthy(a) ==> r == a
    ensures !Truthy(a) ==> r == b
  {
    if Truthy(a) then a else b
  }

  /**
    Reference meaning of a chain `v0 || v1 || ... || vn`: the first truthy operand,
    or the last operand when none is truthy.
   */
  function FirstTruthy(vs: seq<JsValue>): (r: JsValue)
    requires |vs| > 0
    ensures r in vs
    ensures Truthy(r) <==> exists i :: 0 <= i < |vs| && Truthy(vs[i])
    ensures !Truthy(r) ==> r == vs[|vs| - 1]
    ensures Truthy(r) ==> exists i :: 0 <= i < |vs| && vs[i] == r && NoneTruthy(vs[..i])
  {
    if |vs| == 1 || Truthy(vs[0]) then
      assert vs[..0] == [];
      vs[0]
    else
      var r := FirstTruthy(vs[1..]);
      assert forall i :: 1 <= i < |vs| ==> vs[i] == vs[1..][i - 1];
      assert Truthy(r) ==> exists i :: 0 <= i < |vs| && vs[i] == r && NoneTruthy(vs[..i]) by {
        if Truthy(r) {
          var k :| 0 <= k < |vs| - 1 && vs[1..][k] == r && NoneTruthy(vs[1..][..k]);
          assert vs[..k + 1] == [vs[0]] + vs[1..][..k];
        }
      }
      r
  }

  /** No element of `vs` is truthy. */
  predicate NoneTruthy(vs: seq<JsValue>) {
    forall i :: 0 <= i < |vs| ==> !Truthy(vs[i])
  }

  /** A two-operand chain `a || b` means the same as its reference reading. */
  lemma OrIsFirstTruthy(a: JsValue, b: JsValue)
    ensures Or(a, b) == FirstTruthy([a, b])
  {
  }

  /** A three-operand chain `a || b || c` (left-associative) means the same as its reference reading. */
  lemma OrChainIsFirstTruthy(a: JsValue, b: JsValue, c: JsValue)
    ensures Or(Or(a, b), c) == FirstTruthy([a, b, c])
  {
  }
}
