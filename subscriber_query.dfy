/**
 * GET /api/subscriber?account=… (`pages/api/subscriber.ts`): a read-only
 * lookup of the first row of an account, and what the other handlers'
 * effects mean for it.
 */
module SubscriberQuery {
  import opened Wrappers
  import opened Table
  import opened Http
  import opened GmUsers

  /** `k` is the least index of a row of account `a`. */
  ghost predicate IsFirstRowOf(rows: seq<Row>, a: string, k: int) {
    0 <= k < |rows| && rows[k].account == a && forall j :: 0 <= j < k ==> rows[j].account != a
  }

  /** `existingUser[0]`: the first row the select returns, `None` for `undefined`. */
  function First(rows: seq<Row>, a: string): Option<Row> {
    var m := Matching(rows, a);
    if m == [] then None else Some(m[0])
  }

  lemma FirstIsFirstRow(rows: seq<Row>, a: string)
    ensures First(rows, a) == None <==> forall i :: 0 <= i < |rows| ==> rows[i].account != a
    ensures forall k {:trigger IsFirstRowOf(rows, a, k)} :: IsFirstRowOf(rows, a, k) ==> First(rows, a) == Some(rows[k])
  {
    MatchingEmptyIff(rows, a);
    forall k | IsFirstRowOf(rows, a, k) ensures First(rows, a) == Some(rows[k]) {
      MatchingFirst(rows, a, k);
    }
  }

  /**
   * The handler for a request with method `httpMethod` and query parameter
   * `account` (a string, or an array when the parameter repeats) against the
   * table `rows`. It has no effect on the table.
   */
  function Subscriber(rows: seq<Row>, httpMethod: string, account: Value): (reply: Reply)
    ensures reply.thrown == None
    // a 405 first for any method but GET, then the lookup runs all the same
    ensures |reply.emitted| == |NotAllowed(httpMethod, "GET")| + 1
    ensures reply.emitted == NotAllowed(httpMethod, "GET") + [reply.emitted[|reply.emitted| - 1]]
    ensures !NonEmptyText(account) ==>
      reply.emitted[|reply.emitted| - 1] == Response(400, IsSubscribedBody(false))
    ensures NonEmptyText(account) ==>
      var answer := reply.emitted[|reply.emitted| - 1];
      answer.status == 200 && answer.body.SubscriberBody? &&
      (answer.body.subscriber == None <==> forall i :: 0 <= i < |rows| ==> rows[i].account != account.s) &&
      forall k {:trigger IsFirstRowOf(rows, account.s, k)} ::
        IsFirstRowOf(rows, account.s, k) ==> answer.body.subscriber == Some(rows[k])
  {
    var emitted := NotAllowed(httpMethod, "GET");
    if !Truthy(account) || !account.Str? then
      Reply(emitted + [Response(400, IsSubscribedBody(false))], None)
    else
      FirstIsFirstRow(rows, account.s);
      Reply(emitted + [Response(200, SubscriberBody(First(rows, account.s)))], None)
  }

  /** After a `subscribed` webhook for `a`, the lookup finds a row of `a`: the first old one, or the new one. */
  lemma LookupAfterSubscribed(rows: seq<Row>, a: string, welcomed: bool)
    requires a != ""
    ensures Subscriber(InsertIfAbsent(rows, a, welcomed), "GET", Str(a)) ==
      Reply([Response(200, SubscriberBody(Some(
        if Matching(rows, a) != [] then Matching(rows, a)[0] else Row(a, welcomed))))], None)
  {
  }

  /** After an `unsubscribed` webhook for `a`, the lookup finds nothing. */
  lemma LookupAfterUnsubscribed(rows: seq<Row>, a: string)
    requires a != ""
    ensures Subscriber(DeleteAll(rows, a), "GET", Str(a)) == Reply([Response(200, SubscriberBody(None))], None)
  {
  }

  /** After update-subscriber for `a`, the lookup finds a row of `a` exactly when it did before, now with the new flag. */
  lemma LookupAfterUpdate(rows: seq<Row>, a: string, v: bool)
    requires a != ""
    ensures First(SetWelcomed(rows, a, v), a).Some? == First(rows, a).Some?
    ensures First(SetWelcomed(rows, a, v), a).Some? ==>
      First(SetWelcomed(rows, a, v), a).value == First(rows, a).value.(hasBeenWelcomed := v)
  {
  }

  /**
   * The subscribe-then-unsubscribe walk through the handlers for one wallet,
   * starting from an empty table: `subscribed` twice, a lookup, `unsubscribed`,
   * a lookup.
   */
  method SubscriptionWalkthrough(a: string) returns (found: Reply, gone: Reply)
    requires a != ""
    ensures found == Reply([Response(200, SubscriberBody(Some(Row(a, false))))], None)
    ensures gone == Reply([Response(200, SubscriberBody(None))], None)
  {
    var table := new GmUsers(false);
    var one := [Row(a, false)];
    assert Matching([], a) == [];
    assert Matching(one, a) == one by { MatchingAppend([], Row(a, false), a); }
    var r1 := table.Webhook("POST", Str("subscribed"), Str(a), Written);
    assert table.rows == one;
    var r2 := table.Webhook("POST", Str("subscribed"), Str(a), Written);
    assert table.rows == one;
    assert r1 == r2 == Reply([Ok()], None);
    assert First(one, a) == Some(Row(a, false));
    found := Subscriber(table.rows, "GET", Str(a));
    var r3 := table.Webhook("POST", Str("unsubscribed"), Str(a), Written);
    assert table.rows == DeleteAll(one, a);
    LookupAfterUnsubscribed(one, a);
    gone := Subscriber(table.rows, "GET", Str(a));
  }
}
