/**
 * What the Next.js API handlers see of a request and what they write back.
 * Request fields are JSON (or query-string) values; a handler's observable
 * behaviour is the list of `res.status(..).json(..)` calls it makes, in order,
 * plus the message of an exception that escapes it.
 */
module Http {
  import opened Wrappers
  import opened Table

  /** A JSON or query-string value as JavaScript sees it; `Undefined` is a missing field. */
  datatype Value =
    | Undefined
    | Null
    | Bool(b: bool)
    | Num(n: int)            // integers only; see `ToJsString` for the ones printed faithfully
    | Str(s: string)
    | Array(items: seq<Value>)
    | Object

  /** JavaScript truthiness, the test behind `if (!account)`. */
  predicate Truthy(v: Value) {
    match v
    case Undefined => false
    case Null => false
    case Bool(b) => b
    case Num(n) => n != 0
    case Str(s) => s != ""
    case Array(_) => true
    case Object => true
  }

  /** The test `!x || typeof x !== "string"` fails exactly for a non-empty string. */
  predicate NonEmptyText(v: Value) {
    v.Str? && v.s != ""
  }

  /** The JSON bodies the handlers answer with. */
  datatype Body =
    | SuccessBody(success: bool)                          // { success }
    | SuccessMessageBody(success: bool, message: string)  // { success, message }
    | IsSubscribedBody(isSubscribed: bool)                // { isSubscribed }
    | SubscriberBody(subscriber: Option<Row>)             // { subscriber }, None is undefined

  datatype Response = Response(status: int, body: Body)

  /**
   * Everything a handler invocation does on the response: the responses it
   * writes, in order, and the message of an exception it lets escape.
   * Node's HTTP layer delivers only the first write to the client.
   */
  datatype Reply = Reply(emitted: seq<Response>, thrown: Option<string>)

  function Ok(): Response { Response(200, SuccessBody(true)) }

  function BadRequest(): Response { Response(400, SuccessBody(false)) }

  function ServerError(message: string): Response {
    Response(500, SuccessMessageBody(false, message))
  }

  /**
   * The 405 a handler writes when the request method is not `expected`;
   * the handlers that write it do not return afterwards.
   */
  function NotAllowed(httpMethod: string, expected: string): seq<Response> {
    if httpMethod != expected then [Response(405, SuccessBody(false))] else []
  }

  /** What a thrown value is: an `Error` (with its message) or anything else. */
  datatype Thrown = ErrorValue(message: string) | NonErrorValue

  /** The outcome of the one database write a request performs. */
  datatype WriteOutcome = Written | Threw(error: Thrown)

  /**
   * Plain decimal digits of `n`. This is how JavaScript prints an integer
   * below 10^21 that a double holds exactly; from 10^21 on it uses
   * exponential form instead.
   */
  function Digits(n: nat): (s: string)
    ensures |s| >= 1
    ensures forall i :: 0 <= i < |s| ==> '0' <= s[i] <= '9'
  {
    if n < 10 then ["0123456789"[n]] else Digits(n / 10) + ["0123456789"[n % 10]]
  }

  /** The number a string of decimal digits spells. */
  function DigitsValue(s: string): nat
    requires forall i :: 0 <= i < |s| ==> '0' <= s[i] <= '9'
  {
    if s == [] then 0
    else DigitsValue(s[..|s| - 1]) * 10 + (s[|s| - 1] as int - '0' as int)
  }

  /** `Digits` spells its argument. */
  lemma {:induction false} DigitsSpellsValue(n: nat)
    ensures DigitsValue(Digits(n)) == n
  {
    if n >= 10 {
      DigitsSpellsValue(n / 10);
      var s := Digits(n);
      assert s[..|s| - 1] == Digits(n / 10);
    }
  }

  /** `String(v)`, as a template literal renders a value (integers only for numbers). */
  function ToJsString(v: Value): string
    decreases v
  {
    match v
    case Undefined => "undefined"
    case Null => "null"
    case Bool(b) => if b then "true" else "false"
    case Num(n) => if n < 0 then "-" + Digits(-n) else Digits(n)
    case Str(s) => s
    case Array(items) =>
      // Array.prototype.join(","): null and undefined elements print as ""
      Join(seq(|items|, i requires 0 <= i < |items| =>
        if items[i].Undefined? || items[i].Null? then "" else ToJsString(items[i])))
    case Object => "[object Object]"
  }

  function Join(parts: seq<string>): string {
    if |parts| == 0 then ""
    else if |parts| == 1 then parts[0]
    else parts[0] + "," + Join(parts[1..])
  }
}
