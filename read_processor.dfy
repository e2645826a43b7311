/**
 The read processor itself: an object holding the two tables, with one
 method per subscription. Each method runs its statements in the source's
 order, assigning each table as its statement completes, and catches every
 failure; the methods are proved to do what the functions of `Projection`
 describe, so the lemmas of `ProjectionProperties` carry over to them.
 */
module ReadProcessor {
  import opened Wrappers
  import opened Tables
  import opened Projection

  class ReadModel {
    /** `account_balance`, keyed by `account_id`. */
    var accounts: Accounts
    /** `transactions`, keyed by `transaction_id`. */
    var transactions: Transactions

    ghost function State(): Tables
      reads this
    {
      Tables(accounts, transactions)
    }

    ghost predicate Valid()
      reads this
    {
      WellFormed(State())
    }

    /** Two empty tables. */
    constructor ()
      ensures Valid()
      ensures accounts == map[] && transactions == map[]
    {
      accounts := map[];
      transactions := map[];
    }

    /** Handler of `events.account.created`. */
    method OnAccountCreated(e: AccountCreatedEvent, fault: StoreFault) returns (log: Log)
      requires Valid()
      modifies this
      ensures Valid()
      ensures Step(State(), log) == CreateAccount(old(State()), e, fault)
      ensures transactions == old(transactions)
    {
      // try
      if fault == FailsOnFirstStatement {
        // catch: logged, nothing written
        return ErrorLogged(StoreFailure);
      }
      accounts := InsertAccountIfAbsent(accounts, e.accountId, e.ownerName, e.initialBalance, e.currency);
      log := Processed;
    }

    /** The body shared by the deposit and withdrawal handlers. */
    method RecordEntryInPlace(kind: TxKind, e: MoneyEvent, now: Timestamp, fault: StoreFault)
      returns (log: Log)
      requires Valid()
      modifies this
      ensures Valid()
      ensures Step(State(), log) == RecordEntry(old(State()), kind, e, now, fault)
    {
      // try
      if fault == FailsOnFirstStatement {
        return ErrorLogged(StoreFailure);
      }
      accounts := UpdateBalance(accounts, e.aggregateId, kind, e.amount, now);
      if fault == FailsOnSecondStatement {
        // catch: the UPDATE above is not rolled back
        return ErrorLogged(StoreFailure);
      }
      var inserted := InsertTransactionSelect(accounts, transactions, e.eventId, e.aggregateId, kind,
                                              e.amount, StoredDescription(e.description, kind), e.createdAt);
      match inserted
      case Success(txs) =>
        transactions := txs;
        log := Processed;
      case Failure(err) =>
        // catch: the UPDATE above is not rolled back
        log := ErrorLogged(err);
    }

    /** Handler of `events.account.deposited`. */
    method OnMoneyDeposited(e: MoneyEvent, now: Timestamp, fault: StoreFault) returns (log: Log)
      requires Valid()
      modifies this
      ensures Valid()
      ensures Step(State(), log) == RecordEntry(old(State()), Deposit, e, now, fault)
      ensures e.aggregateId in old(accounts) && fault != FailsOnFirstStatement ==>
        accounts[e.aggregateId].balance == old(accounts[e.aggregateId].balance) + e.amount
    {
      log := RecordEntryInPlace(Deposit, e, now, fault);
    }

    /** Handler of `events.account.withdrawn`. */
    method OnMoneyWithdrawn(e: MoneyEvent, now: Timestamp, fault: StoreFault) returns (log: Log)
      requires Valid()
      modifies this
      ensures Valid()
      ensures Step(State(), log) == RecordEntry(old(State()), Withdrawal, e, now, fault)
      ensures e.aggregateId in old(accounts) && fault != FailsOnFirstStatement ==>
        accounts[e.aggregateId].balance == old(accounts[e.aggregateId].balance) - e.amount
    {
      log := RecordEntryInPlace(Withdrawal, e, now, fault);
    }

    /** Topic dispatch: the handler subscribed to the event's topic runs. */
    method Handle(e: Event, now: Timestamp, fault: StoreFault) returns (log: Log)
      requires Valid()
      modifies this
      ensures Valid()
      ensures Step(State(), log) == Apply(old(State()), e, now, fault)
    {
      match e
      case AccountCreated(c) =>
        log := OnAccountCreated(c, fault);
      case MoneyDeposited(m) =>
        log := OnMoneyDeposited(m, now, fault);
      case MoneyWithdrawn(m) =>
        log := OnMoneyWithdrawn(m, now, fault);
    }
  }
}
