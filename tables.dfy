/**
 The two tables of the read model, `account_balance` and `transactions`, and
 the three SQL statements the read processor sends to them, each stated as a
 function from table contents to table contents.
 */
module Tables {
  import opened Wrappers

  type AccountId = string
  type EventId = string
  /** An opaque point in time: the event's `created_at` or the store's `NOW()`. */
  type Timestamp = string
  /** SQL decimal amounts and balances, in minor units. No sign is enforced. */
  type Money = int

  /** The status every projected account row is created with. */
  const ActiveStatus := "active"

  /** A row of `account_balance`, keyed by `accountId`. `lastUpdated` is `None`
      while the row still holds the column default set at insertion. */
  datatype AccountRow = AccountRow(
    accountId: AccountId,
    ownerName: string,
    balance: Money,
    currency: string,
    status: string,
    lastUpdated: Option<Timestamp>)

  /** The `type` column of `transactions`. */
  datatype TxKind = Deposit | Withdrawal {

    /** The literal written into the `type` column. */
    function Tag(): string {
      match this
      case Deposit => "deposit"
      case Withdrawal => "withdrawal"
    }

    /** The description stored when the event carries none. */
    function DefaultDescription(): string {
      match this
      case Deposit => "Deposit"
      case Withdrawal => "Withdrawal"
    }

    /** `balance + amount` for a deposit, `balance - amount` for a withdrawal. */
    function Adjust(balance: Money, amount: Money): Money {
      match this
      case Deposit => balance + amount
      case Withdrawal => balance - amount
    }
  }

  /** A row of `transactions`, keyed by `transactionId` (the event identifier). */
  datatype TxRow = TxRow(
    transactionId: EventId,
    accountId: AccountId,
    kind: TxKind,
    amount: Money,
    balanceAfter: Money,
    description: string,
    timestamp: Timestamp)

  type Accounts = map<AccountId, AccountRow>
  type Transactions = map<EventId, TxRow>

  /** The whole read model as seen through the store. */
  datatype Tables = Tables(accounts: Accounts, transactions: Transactions)

  /** Why a statement is rejected: a duplicate key on `transactions`, or a
      failure of the store itself (connection, timeout, ...). */
  datatype SqlError = UniqueViolation | StoreFailure

  /**
   `INSERT INTO account_balance ... VALUES (id, owner, balance, currency, 'active')
   ON CONFLICT (account_id) DO NOTHING`: the first writer wins, and an existing
   row is never touched.
   */
  function InsertAccountIfAbsent(accounts: Accounts, id: AccountId, owner: string,
                                 balance: Money, currency: string): (r: Accounts)
    ensures r.Keys == accounts.Keys + {id}
    ensures forall k :: k in accounts ==> r[k] == accounts[k]
    ensures id !in accounts ==>
      r[id] == AccountRow(id, owner, balance, currency, ActiveStatus, None)
  {
    if id in accounts then accounts
    else accounts[id := AccountRow(id, owner, balance, currency, ActiveStatus, None)]
  }

  /**
   `UPDATE account_balance SET balance = balance +/- amount, last_updated = NOW()
   WHERE account_id = id`: changes at most the one row keyed by `id`, and
   matches no row (without error) when there is none.
   */
  function UpdateBalance(accounts: Accounts, id: AccountId, kind: TxKind,
                         amount: Money, now: Timestamp): (r: Accounts)
    ensures r.Keys == accounts.Keys
    ensures forall k :: k in accounts && k != id ==> r[k] == accounts[k]
    ensures id in accounts ==>
      && r[id].balance == kind.Adjust(accounts[id].balance, amount)
      && r[id].lastUpdated == Some(now)
      && r[id] == accounts[id].(balance := r[id].balance, lastUpdated := r[id].lastUpdated)
  {
    if id in accounts then
      var row := accounts[id];
      accounts[id := row.(balance := kind.Adjust(row.balance, amount), lastUpdated := Some(now))]
    else
      accounts
  }

  /**
   `INSERT INTO transactions (...) SELECT eventId, id, kind, amount, balance,
   description, timestamp FROM account_balance WHERE account_id = id`: the
   SELECT yields one row when the account exists and none otherwise; the one
   row, if any, is inserted with the account's current balance as its
   snapshot, and a second row with the same transaction identifier is
   rejected by the table's key.
   */
  function InsertTransactionSelect(accounts: Accounts, txs: Transactions, eventId: EventId,
                                   id: AccountId, kind: TxKind, amount: Money,
                                   description: string, timestamp: Timestamp)
    : (r: Result<Transactions, SqlError>)
    ensures id !in accounts ==> r == Success(txs)
    ensures id in accounts && eventId in txs ==> r == Failure(UniqueViolation)
    ensures id in accounts && eventId !in txs ==>
      && r.Success?
      && r.value.Keys == txs.Keys + {eventId}
      && (forall x :: x in txs ==> r.value[x] == txs[x])
      && r.value[eventId].balanceAfter == accounts[id].balance
      && r.value[eventId] == TxRow(eventId, id, kind, amount, r.value[eventId].balanceAfter,
                                   description, timestamp)
  {
    if id !in accounts then Success(txs)
    else if eventId in txs then Failure(UniqueViolation)
    else Success(txs[eventId := TxRow(eventId, id, kind, amount, accounts[id].balance,
                                      description, timestamp)])
  }
}
