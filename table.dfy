/**
 * The `gm_users` table as a sequence of rows, in insertion order, and the
 * three drizzle queries the handlers run against it, each keyed by account:
 * `select ... where account = a`, `delete ... where account = a` and
 * `update ... set hasBeenWelcomed = v where account = a`.
 * Nothing makes `account` unique: the table may hold several rows per account.
 */
module Table {

  /** One subscriber row. */
  datatype Row = Row(account: string, hasBeenWelcomed: bool)

  /**
   * The rows `select().from(gmUsers).where(eq(gmUsers.account, a))` returns.
   * The query has no `ORDER BY`; the model fixes the order to insertion order.
   */
  function Matching(rows: seq<Row>, a: string): (m: seq<Row>)
    ensures |m| <= |rows|
    ensures forall r :: r in m <==> r in rows && r.account == a
  {
    if rows == [] then []
    else
      var last := rows[|rows| - 1];
      Matching(rows[..|rows| - 1], a) + (if last.account == a then [last] else [])
  }

  /** The table after `delete(gmUsers).where(eq(gmUsers.account, a))`. */
  function DeleteAll(rows: seq<Row>, a: string): (d: seq<Row>)
    ensures forall r :: r in d <==> r in rows && r.account != a
  {
    if rows == [] then []
    else
      var last := rows[|rows| - 1];
      DeleteAll(rows[..|rows| - 1], a) + (if last.account == a then [] else [last])
  }

  /** A row as `set({ hasBeenWelcomed: v }).where(eq(gmUsers.account, a))` leaves it. */
  function Updated(r: Row, a: string, v: bool): Row {
    if r.account == a then r.(hasBeenWelcomed := v) else r
  }

  /** The table after `update(gmUsers).set({ hasBeenWelcomed: v }).where(eq(gmUsers.account, a))`. */
  function SetWelcomed(rows: seq<Row>, a: string, v: bool): (u: seq<Row>)
    ensures |u| == |rows|
    ensures forall k :: 0 <= k < |rows| ==> u[k] == Updated(rows[k], a, v)
  {
    if rows == [] then []
    else SetWelcomed(rows[..|rows| - 1], a, v) + [Updated(rows[|rows| - 1], a, v)]
  }

  /** The accounts of the rows, in table order. */
  function Accounts(rows: seq<Row>): (s: seq<string>)
    ensures |s| == |rows|
  {
    seq(|rows|, i requires 0 <= i < |rows| => rows[i].account)
  }

  /** Inserting a row adds it to the rows selected for its own account and to no other. */
  lemma MatchingAppend(rows: seq<Row>, r: Row, a: string)
    ensures Matching(rows + [r], a) == Matching(rows, a) + (if r.account == a then [r] else [])
  {
  }

  /** The indices of the rows of account `a`. */
  ghost function IndicesOf(rows: seq<Row>, a: string): set<int> {
    set i | 0 <= i < |rows| && rows[i].account == a
  }

  /** The select returns one row for every row of the account, duplicates included. */
  lemma {:induction false} MatchingCount(rows: seq<Row>, a: string)
    ensures |Matching(rows, a)| == |IndicesOf(rows, a)|
  {
    if rows != [] {
      var n := |rows| - 1;
      MatchingCount(rows[..n], a);
      IndicesOfSnoc(rows, a);
    }
  }

  /** The indices of `a` in a table are those in all but its last row, plus the last if it is a row of `a`. */
  lemma IndicesOfSnoc(rows: seq<Row>, a: string)
    requires rows != []
    ensures var n := |rows| - 1;
      IndicesOf(rows, a) == IndicesOf(rows[..n], a) + (if rows[n].account == a then {n} else {}) &&
      n !in IndicesOf(rows[..n], a)
  {
    var n := |rows| - 1;
    var before, after := IndicesOf(rows[..n], a), IndicesOf(rows, a);
    forall i | i in after && i != n ensures i in before { assert rows[..n][i] == rows[i]; }
    forall i | i in before ensures i in after { assert rows[..n][i] == rows[i]; }
  }

  /** The select for `a` is empty exactly when no row has account `a`. */
  lemma {:induction false} MatchingEmptyIff(rows: seq<Row>, a: string)
    ensures Matching(rows, a) == [] <==> forall i :: 0 <= i < |rows| ==> rows[i].account != a
  {
    if rows != [] {
      var init := rows[..|rows| - 1];
      MatchingEmptyIff(init, a);
      assert forall i :: 0 <= i < |init| ==> init[i] == rows[i];
    }
  }

  /** The first row of the select is the row of least index whose account is `a`. */
  lemma {:induction false} MatchingFirst(rows: seq<Row>, a: string, k: nat)
    requires k < |rows| && rows[k].account == a
    requires forall j :: 0 <= j < k ==> rows[j].account != a
    ensures Matching(rows, a) != [] && Matching(rows, a)[0] == rows[k]
  {
    var init := rows[..|rows| - 1];
    if k < |rows| - 1 {
      MatchingFirst(init, a, k);
    } else {
      MatchingEmptyIff(init, a);
    }
  }

  /**
   * After deleting the rows of `a`, the select for `a` is empty and the select
   * for every other account returns the same rows in the same order.
   */
  lemma {:induction false} DeleteAllMatching(rows: seq<Row>, a: string, b: string)
    ensures Matching(DeleteAll(rows, a), b) == if a == b then [] else Matching(rows, b)
  {
    if rows != [] {
      var init, last := rows[..|rows| - 1], rows[|rows| - 1];
      DeleteAllMatching(init, a, b);
      assert Matching(rows, b) == Matching(init, b) + (if last.account == b then [last] else []);
      if last.account == a {
        assert DeleteAll(rows, a) == DeleteAll(init, a);
      } else {
        assert DeleteAll(rows, a) == DeleteAll(init, a) + [last];
        MatchingAppend(DeleteAll(init, a), last, b);
      }
    }
  }

  /** Deleting the rows of `a` removes exactly as many rows as the select for `a` returns. */
  lemma {:induction false} DeleteAllSize(rows: seq<Row>, a: string)
    ensures |DeleteAll(rows, a)| == |rows| - |Matching(rows, a)|
  {
    if rows != [] {
      DeleteAllSize(rows[..|rows| - 1], a);
    }
  }

  /** The update changes no account, so it neither creates nor deletes a row of any account. */
  lemma SetWelcomedAccounts(rows: seq<Row>, a: string, v: bool)
    ensures Accounts(SetWelcomed(rows, a, v)) == Accounts(rows)
  {
  }

  /**
   * The update gives every row of `a` the new flag, keeps the number of rows
   * of `a`, and leaves the select for every other account as it was.
   */
  lemma {:induction false} SetWelcomedMatching(rows: seq<Row>, a: string, v: bool, b: string)
    ensures |Matching(SetWelcomed(rows, a, v), b)| == |Matching(rows, b)|
    ensures a == b ==> forall r :: r in Matching(SetWelcomed(rows, a, v), b) ==> r.hasBeenWelcomed == v
    ensures a != b ==> Matching(SetWelcomed(rows, a, v), b) == Matching(rows, b)
  {
    if rows != [] {
      var init, last := rows[..|rows| - 1], rows[|rows| - 1];
      SetWelcomedMatching(init, a, v, b);
      var u, w := SetWelcomed(init, a, v), Updated(last, a, v);
      assert SetWelcomed(rows, a, v) == u + [w];
      assert Matching(rows, b) == Matching(init, b) + (if last.account == b then [last] else []);
      MatchingAppend(u, w, b);
      var m := Matching(u, b);
      assert Matching(u + [w], b) == m + (if w.account == b then [w] else []);
    }
  }
}
