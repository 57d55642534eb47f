/**
 * The three API handlers that write the `gm_users` table
 * (`pages/api/webhook.ts`, `pages/api/subscribe.ts`,
 * `pages/api/update-subscriber.ts`), as methods of the object that owns the
 * table. Handlers run one at a time; each database write either succeeds or
 * throws, and a write that throws leaves the table as it was.
 */
module GmUsers {
  import opened Wrappers
  import opened Table
  import opened Http

  /** The table after a `subscribed` webhook that got as far as its insert: a row is added only for a new account. */
  function InsertIfAbsent(rows: seq<Row>, a: string, welcomed: bool): (r: seq<Row>)
    ensures Matching(rows, a) != [] ==> r == rows
    ensures Matching(rows, a) == [] ==> r == rows + [Row(a, welcomed)] && Matching(r, a) == [Row(a, welcomed)]
    ensures forall b :: b != a ==> Matching(r, b) == Matching(rows, b)
  {
    MatchingAppendAll(rows, Row(a, welcomed));
    if Matching(rows, a) != [] then rows else rows + [Row(a, welcomed)]
  }

  /** No row has the empty account. */
  ghost predicate AccountsNonEmpty(rows: seq<Row>) {
    forall r :: r in rows ==> r.account != ""
  }

  /**
   * In a table the handlers maintain, the empty account has no rows, so
   * refusing `""` with a 400 never hides a stored row.
   */
  lemma EmptyAccountHasNoRows(rows: seq<Row>)
    requires AccountsNonEmpty(rows)
    ensures Matching(rows, "") == []
  {
    MatchingEmptyIff(rows, "");
    assert forall i :: 0 <= i < |rows| ==> rows[i] in rows;
  }

  /** `MatchingAppend` for every account at once. */
  lemma MatchingAppendAll(rows: seq<Row>, r: Row)
    ensures forall b {:trigger Matching(rows + [r], b)} ::
      Matching(rows + [r], b) == Matching(rows, b) + (if r.account == b then [r] else [])
  {
    forall b ensures Matching(rows + [r], b) == Matching(rows, b) + (if r.account == b then [r] else []) {
      MatchingAppend(rows, r, b);
    }
  }

  /** The owner of the `gm_users` rows. */
  class GmUsers {
    var rows: seq<Row>
    /** The `hasBeenWelcomed` value an insert that omits it stores (the schema's column default). */
    const welcomedDefault: bool

    /** Every stored row has a non-empty account: each handler inserts only after `if (!account)`. */
    ghost predicate Valid()
      reads this
    {
      AccountsNonEmpty(rows)
    }

    constructor (welcomedDefault: bool)
      ensures Valid() && rows == [] && this.welcomedDefault == welcomedDefault
    {
      rows := [];
      this.welcomedDefault := welcomedDefault;
    }

    /**
     * POST /api/webhook with body `{ event, account }`; `write` is the outcome
     * of the insert or delete the event leads to, if any.
     */
    method Webhook(httpMethod: string, event: Value, account: Value, write: WriteOutcome) returns (reply: Reply)
      requires Valid()
      requires account.Str? || !Truthy(account)
      modifies this
      ensures Valid()
      ensures reply.thrown == None
      // a 405 is written first, and processing continues regardless
      ensures |reply.emitted| >= 1
      ensures reply.emitted[..|NotAllowed(httpMethod, "POST")|] == NotAllowed(httpMethod, "POST")
      // missing account or event
      ensures !Truthy(account) || !Truthy(event) ==>
        rows == old(rows) && reply.emitted == NotAllowed(httpMethod, "POST") + [BadRequest()]
      // subscribed: insert only when the account has no row yet
      ensures Truthy(account) && event == Str("subscribed") ==>
        if Matching(old(rows), account.s) != [] || write.Written? then
          rows == InsertIfAbsent(old(rows), account.s, welcomedDefault) &&
          reply.emitted == NotAllowed(httpMethod, "POST") + [Ok()]
        else
          rows == old(rows) &&
          reply.emitted == NotAllowed(httpMethod, "POST") + [FailedWrite(write.error)]
      // unsubscribed: delete every row of the account
      ensures Truthy(account) && event == Str("unsubscribed") ==>
        if write.Written? then
          rows == DeleteAll(old(rows), account.s) && reply.emitted == NotAllowed(httpMethod, "POST") + [Ok()]
        else
          rows == old(rows) && reply.emitted == NotAllowed(httpMethod, "POST") + [FailedWrite(write.error)]
      // any other event: 400, then the trailing 200 as well
      ensures Truthy(account) && Truthy(event) && event != Str("subscribed") && event != Str("unsubscribed") ==>
        rows == old(rows) &&
        reply.emitted == NotAllowed(httpMethod, "POST") + [UnknownEvent(event), Ok()]
    {
      var emitted := NotAllowed(httpMethod, "POST");
      if !Truthy(account) || !Truthy(event) {
        return Reply(emitted + [BadRequest()], None);
      }
      var a := account.s;
      if event == Str("subscribed") {
        if Matching(rows, a) != [] {
          return Reply(emitted + [Ok()], None);
        }
        match write {
          case Written =>
            rows := rows + [Row(a, welcomedDefault)];
            return Reply(emitted + [Ok()], None);
          case Threw(ErrorValue(message)) =>
            return Reply(emitted + [ServerError(message)], None);
          case Threw(NonErrorValue) =>
            // not an Error: the catch writes nothing and control reaches the final 200
        }
      } else if event == Str("unsubscribed") {
        match write {
          case Written =>
            rows := DeleteAll(rows, a);
            return Reply(emitted + [Ok()], None);
          case Threw(ErrorValue(message)) =>
            return Reply(emitted + [ServerError(message)], None);
          case Threw(NonErrorValue) =>
        }
      } else {
        emitted := emitted + [UnknownEvent(event)];
      }
      emitted := emitted + [Ok()];
      reply := Reply(emitted, None);
    }

    /**
     * POST /api/subscribe with body `{ account }`; `write` is the outcome of
     * the insert, if the handler reaches it.
     */
    method Subscribe(httpMethod: string, account: Value, write: WriteOutcome) returns (reply: Reply)
      requires Valid()
      requires account.Str? || !Truthy(account)
      modifies this
      ensures Valid()
      // any other method throws before the table is read
      ensures httpMethod != "POST" ==> rows == old(rows) && reply == Reply([], Some("Method not allowed"))
      ensures httpMethod == "POST" ==> reply.thrown == None
      ensures httpMethod == "POST" && !Truthy(account) ==> rows == old(rows) && reply.emitted == [BadRequest()]
      // more than one row already: nothing is inserted
      ensures httpMethod == "POST" && Truthy(account) && |Matching(old(rows), account.s)| > 1 ==>
        rows == old(rows) && reply.emitted == [Ok()]
      // zero rows or exactly one: a row is appended
      ensures httpMethod == "POST" && Truthy(account) && |Matching(old(rows), account.s)| <= 1 ==>
        match write
        case Written => rows == old(rows) + [Row(account.s, welcomedDefault)] && reply.emitted == [Ok()]
        case Threw(ErrorValue(message)) => rows == old(rows) && reply.emitted == [ServerError(message)]
        case Threw(NonErrorValue) => rows == old(rows) && reply.emitted == []
    {
      if httpMethod != "POST" {
        return Reply([], Some("Method not allowed"));
      }
      if !Truthy(account) {
        return Reply([BadRequest()], None);
      }
      var a := account.s;
      if |Matching(rows, a)| > 1 {
        return Reply([Ok()], None);
      }
      match write {
        case Written =>
          rows := rows + [Row(a, welcomedDefault)];
          reply := Reply([Ok()], None);
        case Threw(ErrorValue(message)) =>
          reply := Reply([ServerError(message)], None);
        case Threw(NonErrorValue) =>
          // not an Error: the handler ends without answering
          reply := Reply([], None);
      }
    }

    /**
     * POST /api/update-subscriber with body `{ account, hasBeenWelcomed }`;
     * `write` is the outcome of the update, if the handler reaches it.
     */
    method UpdateSubscriber(httpMethod: string, account: Value, hasBeenWelcomed: bool, write: WriteOutcome)
      returns (reply: Reply)
      requires Valid()
      modifies this
      ensures Valid()
      ensures reply.thrown == None
      ensures |reply.emitted| >= 1
      ensures reply.emitted[..|NotAllowed(httpMethod, "POST")|] == NotAllowed(httpMethod, "POST")
      ensures !NonEmptyText(account) ==> rows == old(rows) && reply.emitted == NotAllowed(httpMethod, "POST") + [BadRequest()]
      ensures NonEmptyText(account) && write.Written? ==>
        rows == SetWelcomed(old(rows), account.s, hasBeenWelcomed) &&
        reply.emitted == NotAllowed(httpMethod, "POST") + [Ok()]
      ensures NonEmptyText(account) && write.Threw? ==>
        rows == old(rows) && reply.emitted == NotAllowed(httpMethod, "POST") + [Response(500, SuccessBody(false))]
    {
      var emitted := NotAllowed(httpMethod, "POST");
      if !Truthy(account) || !account.Str? {
        return Reply(emitted + [BadRequest()], None);
      }
      if write.Threw? {
        return Reply(emitted + [Response(500, SuccessBody(false))], None);
      }
      var updated := UpdateRows(rows, account.s, hasBeenWelcomed);
      SetWelcomedAccounts(rows, account.s, hasBeenWelcomed);
      assert forall k :: 0 <= k < |rows| ==> Accounts(updated)[k] == Accounts(rows)[k];
      rows := updated;
      reply := Reply(emitted + [Ok()], None);
    }
  }

  /**
   * The rows as the `update ... where account = a` statement rewrites them,
   * one row at a time in table order.
   */
  method UpdateRows(rows: seq<Row>, a: string, v: bool) returns (updated: seq<Row>)
    ensures updated == SetWelcomed(rows, a, v)
  {
    updated := rows;
    var i := 0;
    while i < |updated|
      invariant 0 <= i <= |updated| == |rows|
      invariant updated[..i] == SetWelcomed(rows[..i], a, v)
      invariant updated[i..] == rows[i..]
    {
      assert rows[..i + 1] == rows[..i] + [rows[i]];
      updated := updated[i := Updated(updated[i], a, v)];
      i := i + 1;
    }
    assert rows[..i] == rows;
  }

  /** The response to a write that threw: 500 with the message of an `Error`, the trailing 200 otherwise. */
  function FailedWrite(e: Thrown): Response {
    match e
    case ErrorValue(message) => ServerError(message)
    case NonErrorValue => Ok()
  }

  /** The 400 for an event other than `subscribed` and `unsubscribed`. */
  function UnknownEvent(event: Value): Response {
    Response(400, SuccessMessageBody(false,
      "Unknown event " + ToJsString(event) + ". Expected \"subscribed\" or \"unsubscribed\"."))
  }

  /** A repeated `subscribed` delivery changes nothing more. */
  lemma SubscribedIdempotent(rows: seq<Row>, a: string, welcomed: bool)
    ensures InsertIfAbsent(InsertIfAbsent(rows, a, welcomed), a, welcomed) == InsertIfAbsent(rows, a, welcomed)
  {
  }

  /** A repeated `unsubscribed` delivery changes nothing more. */
  lemma UnsubscribedIdempotent(rows: seq<Row>, a: string)
    ensures DeleteAll(DeleteAll(rows, a), a) == DeleteAll(rows, a)
  {
    var d := DeleteAll(rows, a);
    assert forall i :: 0 <= i < |d| ==> d[i] in d;
    DeleteAllAbsent(d, a);
  }

  /** Deleting an account that has no row leaves the table as it was. */
  lemma {:induction false} DeleteAllAbsent(rows: seq<Row>, a: string)
    requires forall i :: 0 <= i < |rows| ==> rows[i].account != a
    ensures DeleteAll(rows, a) == rows
  {
    if rows != [] {
      var init, last := rows[..|rows| - 1], rows[|rows| - 1];
      DeleteAllAbsent(init, a);
      assert DeleteAll(rows, a) == DeleteAll(init, a) + [last];
      assert rows == init + [last];
    }
  }

  /**
   * The insert of subscribe adds one row to its account and leaves the rows
   * of every other account as they were.
   */
  lemma SubscribeInsert(rows: seq<Row>, a: string, welcomed: bool, b: string)
    ensures |Matching(rows + [Row(a, welcomed)], a)| == |Matching(rows, a)| + 1
    ensures b != a ==> Matching(rows + [Row(a, welcomed)], b) == Matching(rows, b)
  {
  }

  /**
   * The webhook skips its insert once an account has one row (`> 0`), while
   * subscribe skips it only from two rows on (`> 1`): for an account with one
   * row, a successful subscribe leaves two.
   */
  lemma DeduplicationThresholdsDiffer(rows: seq<Row>, a: string, welcomed: bool)
    requires |Matching(rows, a)| == 1
    ensures InsertIfAbsent(rows, a, welcomed) == rows
    ensures |Matching(rows + [Row(a, welcomed)], a)| == 2
  {
  }
}
