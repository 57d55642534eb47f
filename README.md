# GM dApp server core in Dafny

This project models the server-side logic of the GM dApp, a WalletConnect demo.
The dApp keeps a `gm_users` subscriber table: each row is an account and a
`hasBeenWelcomed` flag. Four Next.js API handlers work on that table:

- `webhook` takes `subscribed`/`unsubscribed` events from the push service.
- `subscribe` registers an account.
- `update-subscriber` sets the welcomed flag.
- `subscriber` looks an account up.

The project also models the `notify` handler, which turns the cast relay's
reply into `{ success }`, and the client-side `PushReducer`.

Modules:

- `Table` (`table.dfy`): the table as a sequence of rows in insertion order. Rows are not unique per account. The file also holds the drizzle `select`/`delete`/`update ... where account = a` queries as functions, and their lemmas.
- `Http` (`http.dfy`): request fields as JavaScript values with JavaScript truthiness. It also has the JSON bodies and responses. A `Reply` is the list of `res.status(..).json(..)` calls a handler makes, in order, plus the message of any exception that escapes it.
- `GmUsers` (`gm_users.dfy`): class `GmUsers` owns the rows. `Webhook`, `Subscribe` and `UpdateSubscriber` are methods that change the rows. Each takes the outcome of its one database write as a parameter: `Written`, or `Threw` an `Error` or some other value. A write that throws leaves the table unchanged.
- `SubscriberQuery` (`subscriber_query.dfy`): the read-only lookup as a function of the table. It also holds the lemmas that connect each handler's effect to what the lookup then returns.
- `Notify` (`notify.dfy`): the notify handler as a function. The relay's reply, or the error thrown while getting it, is an input.
- `PushReducer` (`push_reducer.dfy`): the reducer and how its actions combine.

Behaviour of the source that the model keeps and proves:

- `webhook`, `update-subscriber` and `subscriber` write a 405 for a wrong method and do not return. The request is then processed as usual, and the handler goes on to a second `res.status(..).json(..)` call. In Next.js that call throws, because the headers are already sent. The model lists it as if it had returned (see "## Left out"). `Webhook`, `UpdateSubscriber` and `Subscriber` ensure that the 405 comes first.
- The webhook skips its insert when the account has more than zero rows. `subscribe` skips it only when the account has more than one row. So `subscribe` can give an account a second row (`DeduplicationThresholdsDiffer`).
- A `subscribed` event for an account that already has a row leaves that row as it is. The handler inserts if absent; it never upserts or resets `hasBeenWelcomed`.
- For an unknown event, the webhook writes a 400 and then reaches the trailing 200 write as well. That second write throws out of the handler, and the model lists it as if it had returned.
- A write that throws a non-`Error` value has different effects in the two handlers. In `webhook` it falls through to the trailing 200 `{ success: true }`. In `subscribe` the handler ends without writing any response.

## Model

| member | source | states |
|---|---|---|
| `Table.Matching` | pages/api/webhook.ts:41-44 | a row is in the select for an account exactly when it is in the table and belongs to that account |
| `Table.MatchingCount` | pages/api/subscribe.ts:35-40 | the select returns one row per row of the account, duplicates included, so `existingUser.length` is the account's row count |
| `Table.DeleteAll` | pages/api/webhook.ts:64 | after the delete, a row is in the table exactly when it was there before and belongs to another account |
| `Table.SetWelcomed` | pages/api/update-subscriber.ts:37-42 | the update keeps the row count and sets the flag on exactly the rows of the account, each row in place |
| `Table.MatchingAppend` | pages/api/subscribe.ts:48 | an inserted row joins the select of its own account (last, in the model's insertion order) and no other select |
| `Table.MatchingEmptyIff` | pages/api/subscriber.ts:36-41 | the select for an account is empty if and only if no row has that account |
| `Table.MatchingFirst` | pages/api/subscriber.ts:41 | in the model's insertion order, the first row of the select is the row of least index with that account |
| `Table.DeleteAllMatching` | pages/api/webhook.ts:62-65 | after deleting an account, its select is empty and every other account's select returns the same rows in the same order |
| `Table.DeleteAllSize` | pages/api/webhook.ts:64 | the delete removes exactly as many rows as the account's select returns |
| `Table.SetWelcomedAccounts` | pages/api/update-subscriber.ts:37-42 | the update leaves the sequence of accounts unchanged, so it creates and deletes no rows |
| `Table.SetWelcomedMatching` | pages/api/update-subscriber.ts:36-42 | after the update the account has the same number of rows, all with the requested flag, and every other account's select is unchanged |
| `Http.DigitsSpellsValue` | pages/api/webhook.ts:76 | the digits printed for a number in the unknown-event message spell that number |
| `GmUsers.EmptyAccountHasNoRows` | pages/api/subscriber.ts:32-41 | in a table the handlers maintain (no row with an empty account), the empty account has no rows, so answering 400 to `""` hides no stored row |
| `GmUsers.InsertIfAbsent` | pages/api/webhook.ts:40-54 | a `subscribed` event that reaches its insert adds a row only when the account has none, after which the account has exactly one row; other accounts are untouched |
| `GmUsers.GmUsers.Webhook` | pages/api/webhook.ts:21-81 | a 405 comes first for a non-POST and processing continues; a missing account or event gets 400 and no change; `subscribed` inserts if absent; `unsubscribed` deletes the account's rows; a failed write gets 500 with the error's message and no change (200 for a non-`Error` throw); an unknown event gets 400 with the "Unknown event" message, then 200 |
| `GmUsers.GmUsers.Subscribe` | pages/api/subscribe.ts:21-55 | a non-POST throws "Method not allowed" before touching the table; a missing account gets 400; more than one row gets 200 and no insert; otherwise one row is appended and 200 written; a failed insert leaves the table and gets 500 with the message, or no response for a non-`Error` throw |
| `GmUsers.GmUsers.UpdateSubscriber` | pages/api/update-subscriber.ts:21-49 | a 405 comes first for a non-POST and the update still runs; an account that is not a non-empty string gets 400 and no change; success sets the flag on the account's rows (none for an unknown account) and gets 200; a failed update gets 500 `{ success: false }` and no change |
| `GmUsers.UpdateRows` | pages/api/update-subscriber.ts:37-42 | rewriting the rows one at a time in table order yields exactly the updated table |
| `GmUsers.SubscribedIdempotent` | pages/api/webhook.ts:41-54 | after a first `subscribed` delivery that found a row of the account or inserted one, a second delivery for the same account leaves the table as the first left it; a first delivery whose insert threw changed nothing, so a later successful one still inserts |
| `GmUsers.UnsubscribedIdempotent` | pages/api/webhook.ts:62-65 | a second `unsubscribed` delivery leaves the table as the first left it |
| `GmUsers.DeleteAllAbsent` | pages/api/webhook.ts:64 | deleting an account with no rows changes nothing |
| `GmUsers.SubscribeInsert` | pages/api/subscribe.ts:43-49 | subscribe's insert adds exactly one row for its account and leaves every other account's rows as they were |
| `GmUsers.DeduplicationThresholdsDiffer` | pages/api/subscribe.ts:35-49 | for an account with one row, the webhook's insert-if-absent changes nothing, but a successful subscribe leaves two rows |
| `SubscriberQuery.FirstIsFirstRow` | pages/api/subscriber.ts:36-41 | `existingUser[0]` is undefined if and only if no row matches, and otherwise is the matching row of least index |
| `SubscriberQuery.Subscriber` | pages/api/subscriber.ts:21-42 | a 405 comes first for a non-GET and the lookup still runs; an account that is not a non-empty string gets 400 `{ isSubscribed: false }`; otherwise 200 with the first matching row, or undefined when none matches; the table is only read |
| `SubscriberQuery.LookupAfterSubscribed` | pages/api/subscriber.ts:36-41 | after a `subscribed` event the lookup finds a row of the account: the first old one, or the one just inserted |
| `SubscriberQuery.LookupAfterUnsubscribed` | pages/api/subscriber.ts:36-41 | after an `unsubscribed` event the lookup answers 200 with `subscriber` undefined |
| `SubscriberQuery.LookupAfterUpdate` | pages/api/update-subscriber.ts:36-44 | after an update the lookup finds a row exactly when it did before, and that row carries the new flag |
| `SubscriberQuery.SubscriptionWalkthrough` | pages/api/webhook.ts:40-65 | starting from an empty table, `subscribed` twice, then a lookup, finds one row; after `unsubscribed` the lookup finds none |
| `Notify.Includes` | pages/api/notify.ts:40 | the scan of `sent` is true exactly when the account is in the list |
| `Notify.Handle` | pages/api/notify.ts:13-48 | a non-POST throws before the relay call; a missing body gets 400; otherwise the relay's status is passed on with `success` true exactly when `sent` contains `accounts[0]`; a thrown error gives 500 with its message or "Internal server error" |
| `Notify.OnlyFirstAccountCounts` | pages/api/notify.ts:39-41 | accounts after the first never change the reply |
| `Notify.RefusedBeforeRelay` | pages/api/notify.ts:17-24 | a request refused by the method or body check gets the same reply whatever the relay would do |
| `PushReducer.Reduce` | contexts/PushReducer.ts:13-39 | `SET_PUSH_CLIENT` sets only `pushClient`, `SET_AUTH_CLIENT` sets only `authClient`, and the core and the setters are never replaced |
| `PushReducer.OtherActionKeepsState` | contexts/PushReducer.ts:36-37 | any other action type returns the state unchanged |
| `PushReducer.ReduceIdempotent` | contexts/PushReducer.ts:26-35 | dispatching the same action twice gives the same state as dispatching it once |
| `PushReducer.SettersCommute` | contexts/PushReducer.ts:26-35 | `SET_AUTH_CLIENT` and `SET_PUSH_CLIENT` commute |
| `PushReducer.ReplayLastPushClientWins` | contexts/PushProvider.tsx:18-32 | after a run of dispatches, the push client is the last `SET_PUSH_CLIENT` payload, or the initial one if there was none, and the core and both setters are the initial ones |

## Left out

- The Postgres pool, the drizzle setup and the environment-variable checks at module load (`pages/api/*.ts:7-19`, `pages/api/notify.ts:3-11`). The table is an in-memory row sequence.
- Failures of the read queries (`select` in webhook, subscribe and subscriber). They sit outside any `try`, so a failure rejects the handler's promise; the model's reads always succeed.
- GmUsers.GmUsers.Webhook, GmUsers.GmUsers.UpdateSubscriber, SubscriberQuery.Subscriber: a second `res.status(..).json(..)` call throws in Next.js, because the headers are already sent. That happens after a 405, and after the webhook's unknown-event 400. The exception either escapes the handler (webhook.ts:37, 47 and 80, update-subscriber.ts:33, subscriber.ts:33 and 41) or lands in the handler's own `catch` (webhook.ts:54 and 65, update-subscriber.ts:44; the write in the `catch` then throws as well). The model does not capture these throws. A `Reply` lists every write the code attempts as if each had returned, and `thrown` stays `None`. The client receives only the first response. The table effects are the same either way, because every write to the table comes before the throwing response write.
- Table.Matching, Table.MatchingFirst, SubscriberQuery.FirstIsFirstRow, SubscriberQuery.Subscriber: the selects at webhook.ts:41-44, subscribe.ts:35-38 and subscriber.ts:36-39 have no `ORDER BY`. SQL promises no row order, and Postgres may return rows in any order (updates move tuples, inserts reuse free space, scans may start mid-table). The model fixes the select's order to insertion order. So which row `existingUser[0]` is, when an account has several rows with different flags, and the order statements in `MatchingAppend`, `DeleteAllMatching` and `LookupAfterSubscribed`, hold of the model but not of the source. The order-free facts do hold of the source: whether the select is empty (`MatchingEmptyIff`), how many rows it returns (`MatchingCount`), which rows it contains (`Matching`), and the flag of every row of the account after an update (`SetWelcomedMatching`).
- Concurrency: handlers run one at a time, so the select-then-insert race between concurrent webhook deliveries is not modelled.
- Logging (`console.log`) and the `id` and `dappUrl` webhook fields, which are only logged. The log template at webhook.ts:32-34 converts `id`, `event`, `account` and `dappUrl` to strings before any check. An object with a non-callable own `toString`, or an array holding one, makes that conversion throw a `TypeError` before the table is read. The model assumes every logged value converts to a string. Its `Object` stands for an object without its own `toString`, which prints as `[object Object]`.
- A request body that is not an object (destructuring `undefined` throws); every body here has the fields the handler reads, possibly `undefined`.
- Http.ToJsString: numbers are integers, printed as plain decimal digits. This matches JavaScript only for integers of magnitude below 10^21 that a double holds exactly. The unknown-event message does not model the exponential form JavaScript uses from 10^21 on (`1e+21`), nor integers beyond a double's precision (such as 2^53 + 1, which no JavaScript number holds). It does not model the rendering of fractions, `NaN` or `-0` either.
- GmUsers.GmUsers.Webhook: a truthy account that is not a string (a number, an array, an object) is excluded by a precondition. The handler hands it to drizzle and node-postgres, whose parameter coercion is not part of this model.
- GmUsers.GmUsers.Subscribe: the same precondition on the account, for the same reason.
- GmUsers.GmUsers.UpdateSubscriber: `hasBeenWelcomed` is a boolean. What drizzle does with a missing or non-boolean value is not part of this model.
- The default of `hasBeenWelcomed` on insert comes from `db/schema/gm_users`, which is not part of this model. It is the class constant `welcomedDefault`.
- Notify.Handle: a body whose `accounts` is missing or not an array of strings is not modelled. That `TypeError` is caught by the same `catch`, like the relay errors that the `Failed` input stands for. The outbound `fetch` to the relay and its JSON body are inputs, not modelled calls.
- `utils/useSendNotification.tsx` (the client's call to `/api/notify`), all React/Chakra UI, the WalletConnect/web3inbox/wagmi SDK wiring (`utils/clients.ts`, `hooks/useInitialization.ts`, `components/W3MProvider.tsx`, `contexts/PushProvider.tsx` apart from its use of the reducer, `contexts/PushContext.tsx`), and the scope, notification-list and subscription components. These are presentation or delegate entirely to external libraries.
