/**
 The read processor's three event handlers as functions on the tables: the
 events they consume, the statements each one runs and in which order, and
 the catch block that turns any failure into a log entry.
 */
module Projection {
  import opened Wrappers
  import opened Tables

  /** The `event_data` fields an AccountCreated handler reads. */
  datatype AccountCreatedEvent = AccountCreatedEvent(
    accountId: AccountId,
    ownerName: string,
    initialBalance: Money,
    currency: string)

  /** The fields a MoneyDeposited or MoneyWithdrawn handler reads: the envelope's
      `event_id`, `aggregate_id` and `created_at`, and `amount` and the optional
      `description` of `event_data`. */
  datatype MoneyEvent = MoneyEvent(
    eventId: EventId,
    aggregateId: AccountId,
    amount: Money,
    description: Option<string>,
    createdAt: Timestamp)

  /** One event per subscribed topic. */
  datatype Event =
    | AccountCreated(created: AccountCreatedEvent)
    | MoneyDeposited(entry: MoneyEvent)
    | MoneyWithdrawn(entry: MoneyEvent)
  {
    /** The subject the event arrives on. */
    function Topic(): string {
      match this
      case AccountCreated(_) => "events.account.created"
      case MoneyDeposited(_) => "events.account.deposited"
      case MoneyWithdrawn(_) => "events.account.withdrawn"
    }

    /** The transaction kind a MoneyDeposited or MoneyWithdrawn event records. */
    function Kind(): TxKind
      requires !AccountCreated?
    {
      if MoneyDeposited? then Deposit else Withdrawal
    }
  }

  /** Where, if anywhere, the store rejects one handler run: nowhere, on the
      handler's first statement, or on its second. */
  datatype StoreFault = NoFault | FailsOnFirstStatement | FailsOnSecondStatement

  /** What the handler logs once it is done: success, or the error it caught. */
  datatype Log = Processed | ErrorLogged(error: SqlError)

  /** The tables after one handler run, and what the handler logged. */
  datatype Step = Step(tables: Tables, log: Log)

  /** `description || default`: a missing or empty description becomes the
      kind's default, and the stored description is never empty. */
  function StoredDescription(description: Option<string>, kind: TxKind): (r: string)
    ensures r != ""
    ensures description.Some? && description.value != "" ==> r == description.value
    ensures description.None? || description.value == "" ==> r == kind.DefaultDescription()
  {
    if description.Some? && description.value != "" then description.value
    else kind.DefaultDescription()
  }

  /** The AccountCreated handler: one idempotent insert, inside try/catch. */
  function CreateAccount(t: Tables, e: AccountCreatedEvent, fault: StoreFault): (s: Step)
    ensures s.tables.transactions == t.transactions
    ensures s.tables.accounts.Keys <= t.accounts.Keys + {e.accountId}
    ensures forall k :: k in t.accounts ==> k in s.tables.accounts && s.tables.accounts[k] == t.accounts[k]
    ensures s.log.ErrorLogged? <==> fault == FailsOnFirstStatement
  {
    if fault == FailsOnFirstStatement then
      Step(t, ErrorLogged(StoreFailure))
    else
      var accounts := InsertAccountIfAbsent(t.accounts, e.accountId, e.ownerName,
                                            e.initialBalance, e.currency);
      Step(t.(accounts := accounts), Processed)
  }

  /**
   The MoneyDeposited / MoneyWithdrawn handler: the balance UPDATE, then the
   INSERT ... SELECT of the transaction row, inside one try/catch and not in
   one SQL transaction, so a failure of the insert leaves the update in place.
   Whatever happens, only the row of `e.aggregateId` and the transaction row
   `e.eventId` can change.
   */
  function RecordEntry(t: Tables, kind: TxKind, e: MoneyEvent, now: Timestamp,
                       fault: StoreFault): (s: Step)
    ensures s.tables.accounts.Keys == t.accounts.Keys
    ensures forall k :: k in t.accounts && k != e.aggregateId ==> s.tables.accounts[k] == t.accounts[k]
    ensures s.tables.transactions.Keys <= t.transactions.Keys + {e.eventId}
    ensures forall x :: x in t.transactions ==>
      x in s.tables.transactions && s.tables.transactions[x] == t.transactions[x]
  {
    if fault == FailsOnFirstStatement then
      Step(t, ErrorLogged(StoreFailure))
    else
      var accounts := UpdateBalance(t.accounts, e.aggregateId, kind, e.amount, now);
      var updated := t.(accounts := accounts);
      if fault == FailsOnSecondStatement then
        Step(updated, ErrorLogged(StoreFailure))
      else
        match InsertTransactionSelect(accounts, t.transactions, e.eventId, e.aggregateId, kind,
                                      e.amount, StoredDescription(e.description, kind), e.createdAt)
        case Success(txs) => Step(updated.(transactions := txs), Processed)
        case Failure(err) => Step(updated, ErrorLogged(err))
  }

  /** Topic dispatch: each event goes to the handler subscribed to its topic. */
  function Apply(t: Tables, e: Event, now: Timestamp, fault: StoreFault): Step {
    match e
    case AccountCreated(c) => CreateAccount(t, c, fault)
    case MoneyDeposited(m) => RecordEntry(t, Deposit, m, now, fault)
    case MoneyWithdrawn(m) => RecordEntry(t, Withdrawal, m, now, fault)
  }

  /** One delivery of an event to the read processor. */
  datatype Delivery = Delivery(event: Event, now: Timestamp, fault: StoreFault)

  /**
   The tables after handling a sequence of deliveries one after another.
   Accounts are never removed and transaction rows are never changed or
   removed.
   */
  function Replay(t: Tables, ds: seq<Delivery>): (r: Tables)
    ensures t.accounts.Keys <= r.accounts.Keys
    ensures forall x :: x in t.transactions ==>
      x in r.transactions && r.transactions[x] == t.transactions[x]
    decreases |ds|
  {
    if ds == [] then t
    else Replay(Apply(t, ds[0].event, ds[0].now, ds[0].fault).tables, ds[1..])
  }

  /**
   The referential shape of the tables: every row sits under its own key, and
   every transaction row refers to an existing account.
   */
  predicate WellFormed(t: Tables) {
    && (forall id :: id in t.accounts ==> t.accounts[id].accountId == id)
    && (forall x :: x in t.transactions ==>
          t.transactions[x].transactionId == x && t.transactions[x].accountId in t.accounts)
  }
}
