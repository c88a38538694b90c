/** The JavaScript values the proxy and the client pass around once JSON has
    been parsed, and the handful of language operations their code applies to
    them: truthiness, `typeof x === "object"`, `Array.isArray`, property access
    `x.key` (undefined when absent), `a || b`, `String(x)` and `Number(x)`. */
module JsValues {
  import opened JsText

  /** Numbers are integral; `Num` never holds NaN (NaN only arises from `ToNumber`). */
  datatype JsValue =
    | Undefined
    | Null
    | Bool(b: bool)
    | Num(n: int)
    | Str(s: string)
    | Arr(elems: seq<JsValue>)
    | Obj(props: map<string, JsValue>)

  /** `JSON.parse` as a total function: None stands for the SyntaxError it throws. */
  type JsonParser = string -> Option<JsValue>

  /** `!!x`. */
  predicate Truthy(v: JsValue)
  {
    match v
    case Undefined => false
    case Null => false
    case Bool(b) => b
    case Num(n) => n != 0
    case Str(s) => s != ""
    case Arr(_) => true
    case Obj(_) => true
  }

  /** `typeof v === "object"` (true of null, arrays and plain objects). */
  predicate IsObjectType(v: JsValue)
  {
    v.Null? || v.Arr? || v.Obj?
  }

  /** `v && typeof v === "object"`. */
  predicate IsObjectLike(v: JsValue)
  {
    Truthy(v) && IsObjectType(v)
  }

  lemma ObjectLikeCases(v: JsValue)
    ensures IsObjectLike(v) <==> v.Arr? || v.Obj?
  {
  }

  /** `v.key` for the plain data keys this code reads; no such key exists on a string, number or array. */
  function Get(v: JsValue, key: string): (r: JsValue)
    ensures !v.Obj? ==> r == Undefined
    ensures v.Obj? && key in v.props ==> r == v.props[key]
  {
    if v.Obj? && key in v.props then v.props[key] else Undefined
  }

  /** `a || b`. */
  function Or(a: JsValue, b: JsValue): (r: JsValue)
    ensures Truthy(a) ==> r == a
    ensures !Truthy(a) ==> r == b
  {
    if Truthy(a) then a else b
  }

  /** `String(v)`. An array prints its elements joined by ",", with null and undefined elements empty. */
  function JsString(v: JsValue): string
    decreases v, 1
  {
    match v
    case Undefined => "undefined"
    case Null => "null"
    case Bool(b) => if b then "true" else "false"
    case Num(n) => IntToString(n)
    case Str(s) => s
    case Arr(es) => JoinElements(v, |es|)
    case Obj(_) => "[object Object]"
  }

  /** `Array.prototype.join(",")` over the first `n` elements of `arr`. */
  function JoinElements(arr: JsValue, n: nat): string
    requires arr.Arr? && n <= |arr.elems|
    decreases arr, 0, n
  {
    if n == 0 then ""
    else if n == 1 then ElementString(arr.elems[0])
    else JoinElements(arr, n - 1) + "," + ElementString(arr.elems[n - 1])
  }

  function ElementString(v: JsValue): string
    decreases v, 2
  {
    if v.Undefined? || v.Null? then "" else JsString(v)
  }

  /** `String(s)` of a string is the string itself. */
  lemma JsStringOfStr(s: string)
    ensures JsString(Str(s)) == s
  {
  }

  /** `Number(v)`; None is NaN. An array or object converts through its string form. */
  function ToNumber(v: JsValue): (r: Option<int>)
    ensures v.Num? ==> r == Some(v.n)
    ensures v.Str? || v.Arr? || v.Obj? ==> r == StringToNumber(JsString(v))
  {
    match v
    case Undefined => None
    case Null => Some(0)
    case Bool(b) => Some(if b then 1 else 0)
    case Num(n) => Some(n)
    case Str(s) => StringToNumber(s)
    case Arr(_) => StringToNumber(JsString(v))
    case Obj(_) => StringToNumber(JsString(v))
  }

  /** A list of strings as a JavaScript array's elements. */
  function Strs(ws: seq<string>): (r: seq<JsValue>)
    ensures |r| == |ws| && forall k :: 0 <= k < |ws| ==> r[k] == Str(ws[k])
  {
    if ws == [] then [] else [Str(ws[0])] + Strs(ws[1..])
  }

  /** `String(x)` of every array element. */
  function ElementStrings(es: seq<JsValue>): (r: seq<string>)
    ensures |r| == |es| && forall k :: 0 <= k < |es| ==> r[k] == JsString(es[k])
  {
    if es == [] then [] else [JsString(es[0])] + ElementStrings(es[1..])
  }

  /** Strings printed back are the strings themselves. */
  lemma ElementStringsOfStrs(ws: seq<string>)
    ensures ElementStrings(Strs(ws)) == ws
  {
    var es := Strs(ws);
    forall k | 0 <= k < |ws| ensures ElementStrings(es)[k] == ws[k] {
      JsStringOfStr(ws[k]);
    }
  }

  /** `Array.isArray(v) ? v : []`, as elements. */
  function ArrayOrEmpty(v: JsValue): seq<JsValue>
  {
    if v.Arr? then v.elems else []
  }

  /** The own enumerable data properties `{...v}` copies. Index keys of a spread array are dropped:
      nothing in this code reads them afterwards. */
  function OwnProps(v: JsValue): map<string, JsValue>
  {
    if v.Obj? then v.props else map[]
  }

  /** `{ ...a, ...b }`: later properties win. */
  function Spread(a: JsValue, b: JsValue): (r: JsValue)
    ensures r.Obj?
    ensures forall k :: k in OwnProps(b) ==> Get(r, k) == OwnProps(b)[k]
    ensures forall k :: k !in OwnProps(b) ==> Get(r, k) == Get(Obj(OwnProps(a)), k)
  {
    Obj(OwnProps(a) + OwnProps(b))
  }
}
