# Read processor projection, modelled in Dafny

The read processor keeps the query side of the ledger up to date. It
subscribes to three event topics and projects each event into two tables:

- `account_balance`: one row per account, with owner, balance, currency,
  status and last-updated time;
- `transactions`: one row per deposit or withdrawal event, keyed by the
  event's identifier, with the balance snapshot taken right after the event.

An `events.account.created` event inserts the account row with status
`'active'`, unless a row with that id is already there. An
`events.account.deposited` or `events.account.withdrawn` event first adds
the amount to the account's balance, or subtracts it. It then inserts the
transaction row, with `balance_after` read from the row it just updated.
The two statements do not share one SQL transaction. For a well-formed
event, every failure of a statement is caught and logged, and nothing is
raised to the caller.

The model has these parts:

- `wrappers.dfy`: `Option` and `Result`.
- `tables.dfy` (module `Tables`): the row types and the two tables as maps.
  The three SQL statements are functions on the maps: the conflict-ignoring
  insert, the balance `UPDATE`, and the `INSERT ... SELECT`.
- `projection.dfy` (module `Projection`): the typed events and their topics.
  It holds the three handlers as functions from tables to tables plus a log
  entry, dispatch by event variant (`Apply`), replay of a sequence of
  deliveries, and the well-formedness invariant.
- `properties.dfy` (module `ProjectionProperties`): the lemmas. They cover
  idempotent account creation, balance arithmetic over any sequence of
  deliveries, the snapshot, "missing account → no change", frame
  conditions, swallowed errors and the redelivery hazard.
- `read_processor.dfy` (module `ReadProcessor`): class `ReadModel` holds the
  two tables as fields. It has one method per subscription. Each method
  assigns the tables statement by statement and is proved to agree with the
  corresponding `Projection` function.

Modelling choices:

- Amounts and balances are SQL decimals. They are modelled as `int` minor
  units, with no sign constraint.
- `NOW()` is a `now` parameter. The event's `created_at` is an opaque
  `Timestamp`.
- Store failures are a `StoreFault` parameter. The store can reject a
  handler's first statement, its second statement, or neither.
- `transactions.transaction_id` is the table's key. A second insert with the
  same event id is rejected (`UniqueViolation`) and caught like any other
  error.
- The description is stored as `data.description || 'Deposit'` (or
  `'Withdrawal'`). A missing (`None`) or empty description takes the
  default.
- The account insert does not write `last_updated`. Its value then is
  `None`, standing for the column default.

Two facts about the code shape the model:

- No statement in `services/read-processor/src/index.ts` writes a transfer
  table or correlates the two sides of a transfer, so neither appears here.
- A deposit or withdrawal on an account with no row inserts zero
  transaction rows without error, and the handler logs success
  (index.ts:50 and 79). The model returns `Processed` in that case
  (`MissingAccountNoChange`).

## Model

| member | source | states |
|---|---|---|
| `Tables.InsertAccountIfAbsent` | services/read-processor/src/index.ts:15-20 | The account id is present afterwards. Every existing row is unchanged (`ON CONFLICT DO NOTHING`). A new id gets the row (id, owner, initial balance, currency, `'active'`). |
| `Tables.UpdateBalance` | services/read-processor/src/index.ts:35-40 | The key set is unchanged and every other account row is unchanged. An existing row gets `balance ± amount` and `last_updated = now`, with its other columns kept. The withdrawal form at lines 64-69 is the same with `-`. |
| `Tables.InsertTransactionSelect` | services/read-processor/src/index.ts:43-48 | Missing account: zero rows selected, table unchanged, no error. Existing account with a used event id: key violation. Otherwise: exactly one new row keyed by the event id, old rows kept, `balance_after` equal to the account's current balance. |
| `Projection.StoredDescription` | services/read-processor/src/index.ts:47 | A missing or empty description becomes the default (`'Deposit'`/`'Withdrawal'`). Any other description is kept. The result is never empty. |
| `Projection.CreateAccount` | services/read-processor/src/index.ts:13-24 | Transactions untouched. At most the event's account id is added, and existing accounts are unchanged. An error is logged exactly when the store fails. |
| `Projection.RecordEntry` | services/read-processor/src/index.ts:33-53 | Frame: the account key set is unchanged and only the `aggregate_id` row may change. Existing transaction rows are kept, and at most the `event_id` row is added. |
| `Projection.Replay` | services/read-processor/src/index.ts:9-83 | Over any sequence of deliveries, accounts are never removed and existing transaction rows are never changed or removed. |
| `ProjectionProperties.TopicsDistinct` | services/read-processor/src/index.ts:9-57 | The three subscribed topics are distinct, so an event's topic determines which handler receives it. |
| `ProjectionProperties.CreateAccountInsertsRow` | services/read-processor/src/index.ts:15-20 | A new account id adds exactly one row with the event's owner, initial balance and currency and status `'active'`. Transactions are untouched and success is logged. |
| `ProjectionProperties.CreateAccountExistingIsNoOp` | services/read-processor/src/index.ts:14-18 | An existing account id leaves both tables unchanged, whatever the store does. |
| `ProjectionProperties.ApplyKeepsAccountIdentity` | services/read-processor/src/index.ts:14-69 | One delivery of any event keeps an existing account's id, owner, currency and status. |
| `ProjectionProperties.ReplayKeepsAccountIdentity` | services/read-processor/src/index.ts:14-69 | First writer wins over any sequence of deliveries. An existing account's id, owner, currency and status never change; only its balance and last-updated time move. |
| `ProjectionProperties.CreateAccountIdempotent` | services/read-processor/src/index.ts:14-18 | Applying the same AccountCreated event a second time after a successful first one changes nothing. |
| `ProjectionProperties.DepositAddsAmount` | services/read-processor/src/index.ts:35-40 | On an existing account whose UPDATE runs, the balance becomes old + amount and `last_updated` becomes now. Nothing else in the row changes. |
| `ProjectionProperties.WithdrawalSubtractsAmount` | services/read-processor/src/index.ts:64-69 | On an existing account whose UPDATE runs, the balance becomes old − amount and `last_updated` becomes now. Nothing else in the row changes. |
| `ProjectionProperties.WithdrawalMayOverdraw` | services/read-processor/src/index.ts:64-69 | No floor: withdrawing 30 from 10 stores −20 and logs success. |
| `ProjectionProperties.ApplyBalance` | services/read-processor/src/index.ts:35-69 | One delivery moves an existing account's balance by its credit minus its debit. |
| `ProjectionProperties.ReplayBalance` | services/read-processor/src/index.ts:35-69 | After any sequence of deliveries, an existing account's balance is B + Σaᵢ − Σbⱼ over the deposits and withdrawals on it whose UPDATE ran. Redeliveries count again. |
| `ProjectionProperties.SnapshotOnInsert` | services/read-processor/src/index.ts:43-47 | Healthy store, existing account, new event id: success is logged. The balance is adjusted, and exactly one row is added: (event_id, aggregate_id, kind, amount, stored description, created_at), with `balance_after` equal to the balance just written. Same at lines 72-76. |
| `ProjectionProperties.KindTags` | services/read-processor/src/index.ts:44-45 | The `type` column holds `'deposit'` for deposits and `'withdrawal'` for withdrawals (line 74). |
| `ProjectionProperties.MissingAccountNoChange` | services/read-processor/src/index.ts:36-46 | With no row for `aggregate_id`, both tables are unchanged for any store behaviour. With a healthy store the handler logs success. |
| `ProjectionProperties.FailedInsertKeepsBalanceChange` | services/read-processor/src/index.ts:33-53 | A failure of the insert is caught and logged as a key violation or a store failure. The balance change stays and no transaction row is added. |
| `ProjectionProperties.FailedUpdateChangesNothing` | services/read-processor/src/index.ts:33-53 | If the store rejects the first statement, both tables are unchanged and the failure is logged. |
| `ProjectionProperties.RedeliveryDoubleApplies` | services/read-processor/src/index.ts:33-53 | Delivering a deposit or withdrawal twice applies the amount twice. The transaction table keeps the first delivery's single row, and the second delivery logs a key violation. |
| `ProjectionProperties.EntryFrame` | services/read-processor/src/index.ts:36-46 | A deposit or withdrawal changes only the `aggregate_id` row and keeps every existing transaction row. It adds at most the `event_id` row, so the table grows by at most one. |
| `ProjectionProperties.ApplyPreservesWellFormed` | services/read-processor/src/index.ts:15-76 | Every handler keeps each row under its own key and every transaction row pointing at an existing account. |
| `ProjectionProperties.ReplayPreservesWellFormed` | services/read-processor/src/index.ts:9-83 | Any sequence of deliveries keeps the tables well formed. |
| `ProjectionProperties.NoAccountWithoutCreation` | services/read-processor/src/index.ts:28-83 | Without an AccountCreated event for an account, no sequence of deliveries creates its row or leaves a transaction row for it. |
| `ProjectionProperties.CreateDepositRedeliverScenario` | services/read-processor/src/index.ts:15-48 | Create A with 100, deposit 50 as E1: balance 150 and one row (E1, deposit, 50, 150, 'Deposit'). Redeliver E1: still that one row, and the balance is 200. |
| `ReadProcessor.ReadModel.OnAccountCreated` | services/read-processor/src/index.ts:9-25 | The new tables and log equal `CreateAccount` of the old tables. Transactions are unchanged and the tables stay well formed. |
| `ReadProcessor.ReadModel.RecordEntryInPlace` | services/read-processor/src/index.ts:33-53 | The UPDATE then the INSERT, assigned in that order with failures caught. The new tables and log equal `RecordEntry` of the old tables. |
| `ReadProcessor.ReadModel.OnMoneyDeposited` | services/read-processor/src/index.ts:28-54 | The new tables and log equal `RecordEntry(Deposit)` of the old tables. An existing account's balance grows by the amount when the UPDATE runs. |
| `ReadProcessor.ReadModel.OnMoneyWithdrawn` | services/read-processor/src/index.ts:57-83 | The new tables and log equal `RecordEntry(Withdrawal)` of the old tables. An existing account's balance shrinks by the amount when the UPDATE runs. |
| `ReadProcessor.ReadModel.Handle` | services/read-processor/src/index.ts:9-83 | Each event reaches the handler subscribed to its topic, and the result equals `Apply` of the old tables. |

## Left out

- `connectNats`, `subscribe` and `query` are modules that are not part of this model. Connection, reconnect, acknowledgement and redelivery policy are not modelled. Redelivery appears only as the same event handled again.
- `console.log` and `console.error` have no observable state. The model keeps only which error, if any, was caught (`Log`).
- `NOW()` and `created_at` are opaque parameters. No time ordering is modelled.
- Handlers for different events can interleave at each awaited statement. That concurrency is not modelled: each handler is a sequential run of its statements.
- The table schema is not part of this model. The model assumes `account_id` and `transaction_id` are the keys. Column defaults (`last_updated` at insertion) are `None`, and no other constraint (NOT NULL, types) is modelled.
- Payload decoding is not modelled. Events are typed, and malformed payloads (a missing field becoming SQL NULL) are not modelled.
- Handlers escaping on malformed events are not modelled. If an AccountCreated event has no `event_data`, reading `data.account_id` throws inside the `try` (index.ts:19). The catch block then reads `data.account_id` again (index.ts:23), so the error escapes the handler. A null event throws at index.ts:10, 29 or 58, before any `try`. Every handler here returns normally.
- The startup `try`/`catch` around the subscriptions (lines 4-90) is not modelled.
- A transfer-correlation table is not modelled, because no shown code writes one.
- `scripts/simulate-traffic.js` is a traffic generator over HTTP and is not part of the projection.
