# Cassie: delayed-write bookkeeping and query builders

This project models the core of `Cassie` (src/cassie.js), the adapter that
lets a gateway write device state to a Cassandra server whose writes may be
*delayed*. A delayed write's result carries the warnings `["DELAY", ts]`;
completion of the delayed operation is announced later, out of band, by a
`finishedProcessing` message whose text after the first space is the same
timestamp token `ts`. Two process-wide structures correlate the two:

- `pending`, a dictionary from token to the `Deferred` a write waits on;
- `finished`, an array of tokens whose completion arrived before the write
  looked for it.

The model has four modules:

- `JsStrings` (strings.dfy): the JavaScript string operations used:
  `toLowerCase` on ASCII, `formatId` (`replace(/-/g, '_')`), `inQuotes`,
  `indexOf`, and a comma-join used as the reference for the query lists.
- `Queries` (queries.dfy): the `typeMap` lookup, the `UPDATE` of `write`, the
  `SELECT` of `read`, and `initDevice`'s `CREATE TABLE` and `INSERT`, built
  by loops as in the source and proved equal to join-based definitions.
- `Correlation` (correlation.dfy): the bookkeeping as values. `OnWriteResult`
  is `write`'s callback on the outcome of `execute`, `PendingExecution` is
  `pendingExecution`, and `OnFinished` is the `finishedProcessing` handler.
  Lemmas cover each path, the invariant, resolution and order independence.
  `Run` replays any interleaving of callbacks and notifications.
- `CassieClient` (cassie.dfy): the `Cassie` class. Its fields `pending`
  (a map) and `finished` (a sequence) are updated in place by `Write`,
  `PendingExecution` and `FinishedProcessing`. Each method is proved to
  produce exactly the state and status the matching `Correlation` function
  gives (`OnWriteResult`, `PendingExecution`, `OnFinished`). Each keeps the
  invariant under its own condition: `FinishedProcessing` always, `Write`
  when a `DELAY` marker carries its token, and `PendingExecution` when the
  token is not already finished.

A `Deferred` is a waiter with two states, `Waiting` and `Resolved`. The
object keeps every waiter it created in a sequence `waiters`, and `pending`
maps a token to a waiter's position there. One call of `write` takes the
outcome of `execute` as an input: the query failed, or it returned a result
whose `warnings` may be absent. The call ends in one of three states:

- resolved at once;
- awaiting a waiter;
- never resolving. `execute` swallows a failure and returns `undefined`, so
  `result.info` throws inside the callback.

The invariant (`Correlation.Valid`) says four things:

- every pending token names an existing waiter;
- no token is both pending and finished;
- every pending waiter is still waiting;
- distinct pending tokens name distinct waiters.

Both operations keep it, one step at a time (`OnWriteResultValid`,
`OnFinishedValid`) and over any interleaving (`RunValid`). There is one
proviso: a `DELAY` marker must come with its token. When `warnings` is just
`["DELAY"]`, the source reads `undefined` as the token. `finished.includes`
then never finds it, and `pendingExecution` files the new waiter under the
key `"undefined"`. If a notification with the token `undefined` came first,
that key is then both pending and finished (`MissingTokenBreaksExclusion`).

Behaviour of the code worth noting:

- the early-finish record is an array, not a set, and the late check
  removes only the first occurrence of the token;
- `write` and `read` ignore the device id and always address the table
  `smart_switch`;
- a failed query in `write` is not reported to the caller; the call never
  settles;
- the `finishedProcessing` handler is commented out in the source, but it
  is modelled as written.

## Model

| member | source | states |
|---|---|---|
| JsStrings.LowerChar | src/cassie.js:71 | `toLowerCase` on one ASCII character: capitals move down by 32, nothing else changes, no capital remains |
| JsStrings.ToLower | src/cassie.js:71 | same length, each character lowered independently, no ASCII capital left in the result |
| JsStrings.ToLowerIdempotent | src/cassie.js:71 | lowering an already lowered string changes nothing |
| JsStrings.ToLowerOfLower | src/cassie.js:208 | a string without capitals is its own `toLowerCase` |
| JsStrings.FormatId | src/cassie.js:237-239 | same length, no `-` left, every `-` became `_`, every other character unchanged |
| JsStrings.FormatIdIdempotent | src/cassie.js:237-239 | formatting an identifier twice equals formatting it once |
| JsStrings.FormatIdToLowerCommute | src/cassie.js:71 | dash replacement and lower-casing commute |
| JsStrings.FormatIdExample | src/cassie.js:71 | device id `smart-switch-01` is sanitised to `smart_switch_01` |
| JsStrings.InQuotes | src/cassie.js:232-234 | two characters longer, a `"` at each end, the argument in between |
| JsStrings.InQuotesInjective | src/cassie.js:232-234 | quoting is injective: equal quoted strings come from equal strings |
| JsStrings.IndexOf | src/cassie.js:171 | -1 exactly when the element is absent; otherwise a position holding it with no earlier occurrence |
| JsStrings.JoinSnoc | src/cassie.js:96-98 | joining one more item appends the separator and the item |
| JsStrings.JoinEndsWithLast | src/cassie.js:115-116 | a joined non-empty list ends with its last item, not with a separator |
| JsStrings.JoinCount | src/cassie.js:115-116 | with a separator mark no item contains, the joined list holds one mark fewer than it has items |
| Queries.TypeMap | src/cassie.js:21-24 | defined exactly for `boolean` and `number`, mapping them to `boolean` and `double` |
| Queries.QuotedColumn | src/cassie.js:97 | the quoted, lower-cased column identifier: quotes at both ends, no capitals |
| Queries.QuotedColumnCaseInsensitive | src/cassie.js:111 | property names differing only in case give the same column identifier |
| Queries.DeviceTable | src/cassie.js:71 | the sanitised table name keeps the length and has no `-` and no capitals |
| Queries.ColumnDefs | src/cassie.js:93-97 | the `id text PRIMARY KEY` entry, then one `"<name>" <type>` entry per property in order, with `undefined` for an unmapped type |
| Queries.BuildCreateTable | src/cassie.js:93-100 | the loop with a trailing comma and the final cut yields `CREATE TABLE "<table>" ( <definitions joined by ", "> );` |
| Queries.CreateTableColumnCount | src/cassie.js:96-100 | when no property name contains a comma, the column list has exactly one comma per property |
| Queries.CreateTableNoTrailingComma | src/cassie.js:100 | the statement ends with the last column definition followed by ` );`, never with a separator |
| Queries.InsertColumns | src/cassie.js:106-111 | `id`, then one quoted lower-cased name per property in order |
| Queries.InsertValues | src/cassie.js:107-112 | `'state'`, then each property's value text in order |
| Queries.BuildInsert | src/cassie.js:106-119 | the loops with trailing `, ` and the two-character cut yield `INSERT INTO "<table>"(<names>) VALUES (<values>);` with both lists joined by `, ` |
| Queries.InsertListsAligned | src/cassie.js:109-116 | with comma-free names and values, both lists hold one comma per property, so each name has its value |
| Queries.InitDevice | src/cassie.js:67-121 | sends CREATE TABLE for the sanitised id unless the lookup found the table (a failed lookup creates it), then the INSERT |
| Queries.UpdateQuery | src/cassie.js:154-158 | `UPDATE smart_switch SET `, the quoted lower-cased column, `=` and the value, then ` WHERE id='state';` |
| Queries.SelectQuery | src/cassie.js:207-211 | `SELECT ` and the quoted lower-cased column, then ` FROM "smart_switch" WHERE id='state';` |
| Queries.ReadWriteSameColumn | src/cassie.js:155-211 | for names equal up to case, `read` selects exactly the column `write` sets |
| Queries.QueriesCaseInsensitive | src/cassie.js:155 | letter case in the property name never changes the UPDATE or SELECT query |
| Correlation.DelayOf | src/cassie.js:162-165 | a delay exactly when warnings exist and the first is `DELAY`; the token is the second warning, or `undefined` when there is none |
| Correlation.ExtractToken | src/cassie.js:50 | a suffix of the message: all of it when there is no space, else what follows the first space |
| Correlation.ExtractTokenOfMessage | src/cassie.js:50 | a message `<word> <token>` with a space-free word yields the token back |
| Correlation.InitialValid | src/cassie.js:31-32 | the empty `pending` and `finished` satisfy the invariant |
| Correlation.PendingExecution | src/cassie.js:195-199 | a new waiting waiter is added and the write awaits it |
| Correlation.LateCheck | src/cassie.js:165-181 | resolves at once exactly when the token is already finished, removing one occurrence of it from `finished` with `pending` and the waiters unchanged; otherwise awaits a new waiting waiter filed under the token, or under the key `undefined` when the marker came without one, with `finished` unchanged |
| Correlation.OnWriteResult | src/cassie.js:160-186 | never resolves exactly when the query failed, and then changes nothing; without the `DELAY` marker changes nothing and resolves; with it, goes to the late check; existing waiters are kept |
| Correlation.PendingExecutionValid | src/cassie.js:195-199 | filing a fresh waiter under a token that is not finished keeps the invariant |
| Correlation.OnFinished | src/cassie.js:48-61 | the handler keeps every pending token naming an existing waiter |
| Correlation.FailurePath | src/cassie.js:160-162 | a failed query changes nothing and the write never resolves |
| Correlation.NoDelayPath | src/cassie.js:183-185 | without the `DELAY` marker nothing changes and the write resolves |
| Correlation.EarlyFinishPath | src/cassie.js:168-174 | a finished token is removed once, at its first occurrence, with the rest in order; `pending` unchanged; resolved at once |
| Correlation.LatePath | src/cassie.js:176-181 | `finished` unchanged; the token now names a fresh waiting waiter, overwriting any earlier entry; the write is not resolved |
| Correlation.NotificationPath | src/cassie.js:53-60 | a pending token's waiter becomes resolved and the key goes; otherwise the token is appended to `finished` and nothing else changes |
| Correlation.OnWriteResultValid | src/cassie.js:162-185 | the write callback keeps the invariant when the marker carries its token |
| Correlation.OnFinishedValid | src/cassie.js:53-60 | the notification handler keeps the invariant |
| Correlation.MissingTokenBreaksExclusion | src/cassie.js:165-181 | a marker without its token, after a notification for `undefined`, leaves that key both pending and finished |
| Correlation.OnWriteResultResolvesNone | src/cassie.js:160-186 | a write callback resolves no waiter: existing waiters unchanged, at most a waiting one added |
| Correlation.OnFinishedResolvesAtMostOne | src/cassie.js:53-56 | a notification changes at most the waiter pending under its token, from waiting to resolved, so none is resolved twice |
| Correlation.NotifyThenWrite | src/cassie.js:57-60 | notification first: the delayed write resolves at once and the bookkeeping returns to where it started |
| Correlation.WriteThenNotify | src/cassie.js:176-181 | write first: unresolved until the notification, then resolved, with `pending` and `finished` as they started |
| Correlation.OrderIndependent | src/cassie.js:48-61 | in both orders the write ends resolved and the token is neither pending nor finished |
| Correlation.NotificationResolvesOnlyItsWrite | src/cassie.js:53-56 | with two writes delayed on different tokens, a notification resolves only its own write |
| Correlation.Step | src/cassie.js:48-61 | one callback or notification keeps pending tokens naming existing waiters and never drops a waiter |
| Correlation.Run | src/cassie.js:160-186 | the same holds over any sequence of callbacks and notifications |
| Correlation.RunValid | src/cassie.js:162-181 | the invariant holds after any interleaving of well-formed write callbacks and notifications |
| Correlation.RunKeepsResolved | src/cassie.js:53-55 | a resolved waiter stays resolved whatever events follow |
| CassieClient.Cassie.constructor | src/cassie.js:31-32 | `pending` and `finished` start empty, satisfying the invariant |
| CassieClient.Cassie.PendingExecution | src/cassie.js:195-199 | `pending[ts]` is set to a new waiting waiter, overwriting any earlier one, with `finished` unchanged, exactly as `Correlation.PendingExecution` says; keeps the invariant when `ts` is not finished |
| CassieClient.Cassie.Write | src/cassie.js:150-188 | sends the UPDATE, then updates `pending`/`finished` in place exactly as `OnWriteResult` says and keeps the invariant when a `DELAY` marker carries its token |
| CassieClient.Cassie.FinishedProcessing | src/cassie.js:48-61 | updates `pending`/`finished`/waiters in place exactly as `OnFinished` says for the message's token and keeps the invariant |

## Left out

- The Cassandra driver (client construction, contact points, `connect`, `metadata.getTable`, `client.execute`) is network I/O. Its answers are inputs: the execute outcome of a write, the table lookup of `initDevice`.
- `execute`'s error logging: a failure is only the `ExecFailed` outcome. `initDevice` ignores the outcome of its queries, so they are modelled as the list of queries sent.
- The `Deferred` and promise machinery: a waiter is a `Waiting`/`Resolved` state, and a caller "resumes" when its waiter is `Resolved`.
- Scheduling: what may happen between sending a query and running its callback is modelled as events in any order (`Run`). Each callback and handler runs as one atomic step.
- `read`'s extraction of the value from the result rows depends on the driver's result format, so only its query is modelled.
- The benchmark-only `write`, the `count`, `requests`, `notifications` and `intervals` fields, the `Date.now()` timing, and all `console` logging.
- JavaScript's full Unicode `toLowerCase`: only ASCII letters are lowered.
- Tokens that name properties of `Object.prototype` (such as `constructor`): the source's `pending` is a plain object, so `this.pending[ts]` would be truthy for them. The model treats `pending` as a plain map.
- The order of `for...in` over `properties`: integer-like keys come first in JavaScript. The model takes the properties in their iteration order, as a sequence. The intermediate `columnTypes` and `propValues` objects iterate in that same order, so the loops over them are modelled as loops over the sequence.
- How JavaScript turns a property value or `write`'s value into text: values are given as that text.
- A property whose `type` is missing: `typeName` is a string, so that case shows up only as an unmapped type, `undefined`.
- Queries.CreateTableColumnCount: stated only for property names without commas. Quoting does not escape a comma, so the count cannot be stated otherwise.
- Queries.InsertListsAligned: stated only for names and values without commas, for the same reason.
- CassieClient.Cassie.PendingExecution: keeps the invariant only for a token that is not finished; the late check is what ensures that.
- CassieClient.Cassie.Write: keeps the invariant only when a `DELAY` marker carries its token, as `Correlation.OnWriteResultValid` below.
- Correlation.OnWriteResultValid: holds only when a `DELAY` marker carries its token. The case without a token is shown to break the invariant (`MissingTokenBreaksExclusion`), not excluded.
