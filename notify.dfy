/**
 * POST /api/notify (`pages/api/notify.ts`): forwards the body to the cast
 * relay and answers `{ success }`, true when the relay reports the first
 * target account as sent. The relay call is not modelled; what it produced
 * (a reply, or a thrown error) is an input.
 */
module Notify {
  import opened Wrappers
  import opened Http

  /** The notification body; the handler itself reads only `accounts`. */
  datatype Payload = Payload(accounts: seq<string>)

  /**
   * What the `fetch` and `result.json()` produced: the relay's status and
   * its `sent` list, or a thrown error with its `message`, if it has one.
   */
  datatype RelayOutcome = Replied(status: int, sent: seq<string>) | Failed(message: Option<string>)

  /** `Array.prototype.includes` on a list of strings. */
  function Includes(list: seq<string>, x: string): (b: bool)
    ensures b <==> x in list
  {
    if list == [] then false else list[0] == x || Includes(list[1..], x)
  }

  /** `accounts[0]`, which is `undefined` for an empty list. */
  function FirstAccount(accounts: seq<string>): Option<string> {
    if accounts == [] then None else Some(accounts[0])
  }

  /** The reply for a request with method `httpMethod` and body `body` (`None` when the body is falsy). */
  function Handle(httpMethod: string, body: Option<Payload>, relay: RelayOutcome): (reply: Reply)
    // any method but POST throws before the relay is called
    ensures httpMethod != "POST" ==> reply == Reply([], Some("Method not allowed"))
    // a missing body is refused before the relay is called
    ensures httpMethod == "POST" && body == None ==> reply == Reply([BadRequest()], None)
    // the relay's status is passed on; success means the first account was sent
    ensures httpMethod == "POST" && body.Some? && relay.Replied? ==>
      reply.thrown == None && |reply.emitted| == 1 &&
      reply.emitted[0].status == relay.status &&
      reply.emitted[0].body == SuccessBody(|body.value.accounts| > 0 && body.value.accounts[0] in relay.sent)
    // a thrown error gives 500 with its message, or a fixed text when it has none
    ensures httpMethod == "POST" && body.Some? && relay.Failed? ==>
      reply == Reply([ServerError(relay.message.GetOr("Internal server error"))], None)
  {
    if httpMethod != "POST" then
      Reply([], Some("Method not allowed"))
    else if body.None? then
      Reply([BadRequest()], None)
    else
      match relay
      case Replied(status, sent) =>
        var successful := match FirstAccount(body.value.accounts)
          case Some(first) => Includes(sent, first)
          case None => false;
        Reply([Response(status, SuccessBody(successful))], None)
      case Failed(message) =>
        Reply([ServerError(message.GetOr("Internal server error"))], None)
  }

  /** Only `accounts[0]` decides success: the accounts after it never matter. */
  lemma OnlyFirstAccountCounts(httpMethod: string, first: string, rest: seq<string>, rest': seq<string>, relay: RelayOutcome)
    ensures Handle(httpMethod, Some(Payload([first] + rest)), relay) ==
            Handle(httpMethod, Some(Payload([first] + rest')), relay)
  {
  }

  /** A request refused by the method or body checks gets the same reply whatever the relay would have done. */
  lemma RefusedBeforeRelay(httpMethod: string, body: Option<Payload>, relay: RelayOutcome, relay': RelayOutcome)
    requires httpMethod != "POST" || body == None
    ensures Handle(httpMethod, body, relay) == Handle(httpMethod, body, relay')
  {
  }
}
