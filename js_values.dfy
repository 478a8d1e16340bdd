/**
 * The JSON values a client can put in a request body, and JavaScript's truthiness on them.
 * Numbers are integers in this model.
 */
module JsValues {
  datatype JsValue =
    | Undefined              // the field is absent from the body
    | Null
    | Bool(b: bool)
    | Num(n: int)
    | Str(s: string)
    | Arr(elems: seq<JsValue>)
    | Obj                    // any JSON object; its fields play no part here

  /** JavaScript's `!!v`: false for undefined, null, false, 0 and "". */
  predicate Truthy(v: JsValue) {
    match v
    case Undefined => false
    case Null => false
    case Bool(b) => b
    case Num(n) => n != 0
    case Str(s) => s != ""
    case Arr(_) => true
    case Obj => true
  }

  /** `message || fallback` on strings: the message when there is one, the fallback otherwise. */
  function MessageOr(message: string, fallback: string): (r: string)
    ensures message == "" ==> r == fallback
    ensures message != "" ==> r == message
    ensures fallback != "" ==> r != ""
  {
    if message == "" then fallback else message
  }

  /** The JSON array of strings a client sends for a list of strings. */
  function Strs(ss: seq<string>): (r: seq<JsValue>)
    ensures |r| == |ss|
    ensures forall k :: 0 <= k < |ss| ==> r[k] == Str(ss[k])
  {
    seq(|ss|, k requires 0 <= k < |ss| => Str(ss[k]))
  }
}
