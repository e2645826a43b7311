/**
 What the read processor's handlers guarantee about the two tables, one
 event at a time and over whole sequences of deliveries.
 */
module ProjectionProperties {
  import opened Wrappers
  import opened Tables
  import opened Projection

  /** The row an AccountCreated event inserts. */
  function CreatedRow(e: AccountCreatedEvent): AccountRow {
    AccountRow(e.accountId, e.ownerName, e.initialBalance, e.currency, ActiveStatus, None)
  }

  // ---------------------------------------------------------------- topic dispatch

  /** The three subscribed topics are distinct, so a topic determines the
      handler its events go to. */
  lemma TopicsDistinct(e1: Event, e2: Event)
    requires e1.Topic() == e2.Topic()
    ensures e1.AccountCreated? == e2.AccountCreated?
    ensures e1.MoneyDeposited? == e2.MoneyDeposited?
    ensures e1.MoneyWithdrawn? == e2.MoneyWithdrawn?
  {
  }

  // ---------------------------------------------------------------- AccountCreated

  /** A new account id gains exactly one row, active, with the event's fields. */
  lemma CreateAccountInsertsRow(t: Tables, e: AccountCreatedEvent, now: Timestamp)
    requires e.accountId !in t.accounts
    ensures Apply(t, AccountCreated(e), now, NoFault)
         == Step(Tables(t.accounts[e.accountId := CreatedRow(e)], t.transactions), Processed)
  {
  }

  /** An existing account id leaves both tables as they were, without error. */
  lemma CreateAccountExistingIsNoOp(t: Tables, e: AccountCreatedEvent, now: Timestamp, fault: StoreFault)
    requires e.accountId in t.accounts
    ensures Apply(t, AccountCreated(e), now, fault).tables == t
  {
  }

  /** Applying the same AccountCreated event twice equals applying it once. */
  lemma CreateAccountIdempotent(t: Tables, e: AccountCreatedEvent, now: Timestamp,
                                now': Timestamp, fault: StoreFault)
    ensures var once := Apply(t, AccountCreated(e), now, NoFault).tables;
            Apply(once, AccountCreated(e), now', fault).tables == once
  {
  }

  // ---------------------------------------------------------------- balance arithmetic

  /** On an existing account a deposit adds the amount, stamps `last_updated`
      and leaves the row's other columns alone. */
  lemma DepositAddsAmount(t: Tables, m: MoneyEvent, now: Timestamp, fault: StoreFault)
    requires m.aggregateId in t.accounts
    requires fault != FailsOnFirstStatement
    ensures var row := Apply(t, MoneyDeposited(m), now, fault).tables.accounts[m.aggregateId];
            row == t.accounts[m.aggregateId].(balance := t.accounts[m.aggregateId].balance + m.amount,
                                              lastUpdated := Some(now))
  {
  }

  /** On an existing account a withdrawal subtracts the amount, stamps
      `last_updated` and leaves the row's other columns alone. */
  lemma WithdrawalSubtractsAmount(t: Tables, m: MoneyEvent, now: Timestamp, fault: StoreFault)
    requires m.aggregateId in t.accounts
    requires fault != FailsOnFirstStatement
    ensures var row := Apply(t, MoneyWithdrawn(m), now, fault).tables.accounts[m.aggregateId];
            row == t.accounts[m.aggregateId].(balance := t.accounts[m.aggregateId].balance - m.amount,
                                              lastUpdated := Some(now))
  {
  }

  /** No floor is enforced: withdrawing 30 from a balance of 10 stores -20. */
  lemma WithdrawalMayOverdraw()
    ensures var t := Tables(map["A" := AccountRow("A", "Alice", 10, "USD", ActiveStatus, None)], map[]);
            var m := MoneyEvent("E1", "A", 30, None, "t0");
            var s := Apply(t, MoneyWithdrawn(m), "t1", NoFault);
            s.log == Processed && s.tables.accounts["A"].balance == -20
  {
  }

  /** The amount a delivery adds to account `a` through a deposit whose UPDATE runs. */
  function Credit(d: Delivery, a: AccountId): Money {
    if d.event.MoneyDeposited? && d.event.entry.aggregateId == a && d.fault != FailsOnFirstStatement
    then d.event.entry.amount else 0
  }

  /** The amount a delivery takes from account `a` through a withdrawal whose UPDATE runs. */
  function Debit(d: Delivery, a: AccountId): Money {
    if d.event.MoneyWithdrawn? && d.event.entry.aggregateId == a && d.fault != FailsOnFirstStatement
    then d.event.entry.amount else 0
  }

  /** Σ of the deposited amounts a₁..aₙ on `a`. */
  function Deposited(ds: seq<Delivery>, a: AccountId): Money {
    if ds == [] then 0 else Credit(ds[0], a) + Deposited(ds[1..], a)
  }

  /** Σ of the withdrawn amounts b₁..bₘ on `a`. */
  function Withdrawn(ds: seq<Delivery>, a: AccountId): Money {
    if ds == [] then 0 else Debit(ds[0], a) + Withdrawn(ds[1..], a)
  }

  /** One delivery moves the balance of an existing account by its credit minus its debit. */
  lemma ApplyBalance(t: Tables, d: Delivery, a: AccountId)
    requires a in t.accounts
    ensures var t' := Apply(t, d.event, d.now, d.fault).tables;
            a in t'.accounts && t'.accounts[a].balance == t.accounts[a].balance + Credit(d, a) - Debit(d, a)
  {
  }

  /**
   Starting from balance B, after any sequence of deliveries the balance of
   an existing account is B + Σaᵢ − Σbⱼ, where the aᵢ and bⱼ are the amounts
   of the deposits and withdrawals on it whose UPDATE ran. Every delivery
   counts, a redelivered one included: the UPDATE has no idempotency guard.
   */
  lemma {:induction false} ReplayBalance(t: Tables, ds: seq<Delivery>, a: AccountId)
    requires a in t.accounts
    ensures a in Replay(t, ds).accounts
    ensures Replay(t, ds).accounts[a].balance
         == t.accounts[a].balance + Deposited(ds, a) - Withdrawn(ds, a)
    decreases |ds|
  {
    if ds != [] {
      var t' := Apply(t, ds[0].event, ds[0].now, ds[0].fault).tables;
      ApplyBalance(t, ds[0], a);
      ReplayBalance(t', ds[1..], a);
    }
  }

  // ---------------------------------------------------------------- the transaction row

  /**
   With a healthy store, an existing account and a new event id, the handler
   inserts exactly one transaction row: id `eventId`, account `aggregateId`,
   the event's kind and amount, the stored description, and as
   `balance_after` the balance the handler's own UPDATE just wrote.
   */
  lemma SnapshotOnInsert(t: Tables, e: Event, now: Timestamp)
    requires !e.AccountCreated?
    requires e.entry.aggregateId in t.accounts
    requires e.entry.eventId !in t.transactions
    ensures var s := Apply(t, e, now, NoFault);
            var m := e.entry;
            && s.log == Processed
            && m.aggregateId in s.tables.accounts
            && s.tables.accounts[m.aggregateId].balance
               == e.Kind().Adjust(t.accounts[m.aggregateId].balance, m.amount)
            && s.tables.transactions == t.transactions[m.eventId := TxRow(
                 m.eventId, m.aggregateId, e.Kind(), m.amount,
                 s.tables.accounts[m.aggregateId].balance,
                 StoredDescription(m.description, e.Kind()), m.createdAt)]
  {
  }

  /** The `type` column holds 'deposit' for a deposit and 'withdrawal' for a withdrawal. */
  lemma KindTags(e: Event)
    requires !e.AccountCreated?
    ensures e.MoneyDeposited? ==> e.Kind().Tag() == "deposit"
    ensures e.MoneyWithdrawn? ==> e.Kind().Tag() == "withdrawal"
  {
  }

  /**
   With no row for `aggregateId`, a deposit or withdrawal changes neither
   table: the UPDATE matches no row and the INSERT ... SELECT selects none.
   Nothing is raised, so the handler logs success.
   */
  lemma MissingAccountNoChange(t: Tables, e: Event, now: Timestamp, fault: StoreFault)
    requires !e.AccountCreated?
    requires e.entry.aggregateId !in t.accounts
    ensures Apply(t, e, now, fault).tables == t
    ensures fault == NoFault ==> Apply(t, e, now, fault).log == Processed
  {
  }

  /**
   A failure after the UPDATE is swallowed: the handler logs it, the balance
   change stays, and no transaction row is added. A duplicate event id is
   such a failure, rejected by the key of `transactions`.
   */
  lemma FailedInsertKeepsBalanceChange(t: Tables, e: Event, now: Timestamp, fault: StoreFault)
    requires !e.AccountCreated?
    requires e.entry.aggregateId in t.accounts
    requires fault == FailsOnSecondStatement || (fault == NoFault && e.entry.eventId in t.transactions)
    ensures var s := Apply(t, e, now, fault);
            var a := e.entry.aggregateId;
            && s.log == ErrorLogged(if fault == NoFault then UniqueViolation else StoreFailure)
            && s.tables.transactions == t.transactions
            && a in s.tables.accounts
            && s.tables.accounts[a].balance == e.Kind().Adjust(t.accounts[a].balance, e.entry.amount)
  {
  }

  /** A failure on the UPDATE itself leaves both tables as they were. */
  lemma FailedUpdateChangesNothing(t: Tables, e: Event, now: Timestamp)
    ensures Apply(t, e, now, FailsOnFirstStatement) == Step(t, ErrorLogged(StoreFailure))
  {
  }

  /**
   The redelivery hazard: delivering the same deposit or withdrawal twice
   applies the amount twice to the balance, while the transaction table
   keeps the single row, with the snapshot, of the first delivery.
   */
  lemma RedeliveryDoubleApplies(t: Tables, e: Event, now: Timestamp, now': Timestamp)
    requires !e.AccountCreated?
    requires e.entry.aggregateId in t.accounts
    requires e.entry.eventId !in t.transactions
    ensures var once := Apply(t, e, now, NoFault);
            var twice := Apply(once.tables, e, now', NoFault);
            var a := e.entry.aggregateId;
            && twice.log == ErrorLogged(UniqueViolation)
            && twice.tables.transactions == once.tables.transactions
            && twice.tables.transactions.Keys == t.transactions.Keys + {e.entry.eventId}
            && a in twice.tables.accounts
            && twice.tables.accounts[a].balance
               == e.Kind().Adjust(e.Kind().Adjust(t.accounts[a].balance, e.entry.amount), e.entry.amount)
  {
    SnapshotOnInsert(t, e, now);
    var once := Apply(t, e, now, NoFault);
    FailedInsertKeepsBalanceChange(once.tables, e, now', NoFault);
  }

  // ---------------------------------------------------------------- frame and shape

  /** A table whose keys lie within the old keys plus one grows by at most one row. */
  lemma {:induction false} GrowsByAtMostOne(before: Transactions, after: Transactions, x: EventId)
    requires after.Keys <= before.Keys + {x}
    ensures |after| <= |before| + 1
  {
    var all := before.Keys + {x};
    assert all == after.Keys + (all - after.Keys);
    assert |all| == |after.Keys| + |all - after.Keys|;
    if x in before.Keys {
      assert all == before.Keys;
    }
  }

  /**
   A deposit or withdrawal touches only the row of `aggregateId`, keeps every
   existing transaction row, and adds at most the row `eventId`.
   */
  lemma EntryFrame(t: Tables, e: Event, now: Timestamp, fault: StoreFault)
    requires !e.AccountCreated?
    ensures var s := Apply(t, e, now, fault).tables;
            && s.accounts.Keys == t.accounts.Keys
            && (forall k :: k in t.accounts && k != e.entry.aggregateId ==> s.accounts[k] == t.accounts[k])
            && (forall x :: x in t.transactions ==> x in s.transactions && s.transactions[x] == t.transactions[x])
            && s.transactions.Keys <= t.transactions.Keys + {e.entry.eventId}
            && |s.transactions| <= |t.transactions| + 1
  {
    var s := RecordEntry(t, e.Kind(), e.entry, now, fault);
    assert Apply(t, e, now, fault) == s;
    GrowsByAtMostOne(t.transactions, s.tables.transactions, e.entry.eventId);
  }

  /** Every handler keeps the tables well formed, whatever the store does. */
  lemma ApplyPreservesWellFormed(t: Tables, e: Event, now: Timestamp, fault: StoreFault)
    requires WellFormed(t)
    ensures WellFormed(Apply(t, e, now, fault).tables)
  {
    match e
    case AccountCreated(c) =>
      var s := CreateAccount(t, c, fault).tables;
      assert forall id :: id in s.accounts ==> s.accounts[id].accountId == id;
    case MoneyDeposited(m) =>
      RecordEntryPreservesWellFormed(t, Deposit, m, now, fault);
    case MoneyWithdrawn(m) =>
      RecordEntryPreservesWellFormed(t, Withdrawal, m, now, fault);
  }

  /** The deposit/withdrawal half of `ApplyPreservesWellFormed`. */
  lemma RecordEntryPreservesWellFormed(t: Tables, kind: TxKind, m: MoneyEvent, now: Timestamp,
                                       fault: StoreFault)
    requires WellFormed(t)
    ensures WellFormed(RecordEntry(t, kind, m, now, fault).tables)
  {
    if fault != FailsOnFirstStatement {
      var accounts := UpdateBalance(t.accounts, m.aggregateId, kind, m.amount, now);
      assert forall id :: id in accounts ==> accounts[id].accountId == id;
    }
  }

  /** ... and so does any sequence of deliveries. */
  lemma {:induction false} ReplayPreservesWellFormed(t: Tables, ds: seq<Delivery>)
    requires WellFormed(t)
    ensures WellFormed(Replay(t, ds))
    decreases |ds|
  {
    if ds != [] {
      ApplyPreservesWellFormed(t, ds[0].event, ds[0].now, ds[0].fault);
      ReplayPreservesWellFormed(Apply(t, ds[0].event, ds[0].now, ds[0].fault).tables, ds[1..]);
    }
  }

  /** One delivery keeps an existing account's id, owner, currency and status. */
  lemma ApplyKeepsAccountIdentity(t: Tables, d: Delivery, a: AccountId)
    requires a in t.accounts
    ensures var t' := Apply(t, d.event, d.now, d.fault).tables;
            && a in t'.accounts
            && t'.accounts[a].accountId == t.accounts[a].accountId
            && t'.accounts[a].ownerName == t.accounts[a].ownerName
            && t'.accounts[a].currency == t.accounts[a].currency
            && t'.accounts[a].status == t.accounts[a].status
  {
  }

  /**
   First writer wins over a whole replay: once an account row exists, no
   sequence of deliveries changes its id, owner, currency or status; only
   its balance and last-updated time ever move.
   */
  lemma {:induction false} ReplayKeepsAccountIdentity(t: Tables, ds: seq<Delivery>, a: AccountId)
    requires a in t.accounts
    ensures var r := Replay(t, ds);
            && a in r.accounts
            && r.accounts[a].accountId == t.accounts[a].accountId
            && r.accounts[a].ownerName == t.accounts[a].ownerName
            && r.accounts[a].currency == t.accounts[a].currency
            && r.accounts[a].status == t.accounts[a].status
    decreases |ds|
  {
    if ds != [] {
      ApplyKeepsAccountIdentity(t, ds[0], a);
      ReplayKeepsAccountIdentity(Apply(t, ds[0].event, ds[0].now, ds[0].fault).tables, ds[1..], a);
    }
  }

  /** True when some delivery in `ds` is an AccountCreated event for `a`. */
  predicate CreatesAccount(ds: seq<Delivery>, a: AccountId) {
    exists i :: 0 <= i < |ds| && ds[i].event.AccountCreated? && ds[i].event.created.accountId == a
  }

  /**
   Without an AccountCreated event for `a`, deposits and withdrawals on `a`
   never create its row and never leave a transaction row for it.
   */
  lemma {:induction false} NoAccountWithoutCreation(t: Tables, ds: seq<Delivery>, a: AccountId)
    requires WellFormed(t)
    requires a !in t.accounts
    requires !CreatesAccount(ds, a)
    ensures a !in Replay(t, ds).accounts
    ensures forall x :: x in Replay(t, ds).transactions ==> Replay(t, ds).transactions[x].accountId != a
    decreases |ds|
  {
    if ds == [] {
    } else {
      var t' := Apply(t, ds[0].event, ds[0].now, ds[0].fault).tables;
      ApplyPreservesWellFormed(t, ds[0].event, ds[0].now, ds[0].fault);
      assert a !in t'.accounts;
      assert !CreatesAccount(ds[1..], a) by {
        forall i | 0 <= i < |ds[1..]|
          ensures !(ds[1..][i].event.AccountCreated? && ds[1..][i].event.created.accountId == a)
        {
          assert ds[1..][i] == ds[i + 1];
        }
      }
      NoAccountWithoutCreation(t', ds[1..], a);
    }
  }

  // ---------------------------------------------------------------- a worked scenario

  /**
   Create account A with balance 100, deposit 50 as event E1, then redeliver
   E1: after the deposit the balance is 150 with one row (E1, deposit, 50,
   balance_after 150); after the redelivery there is still exactly that one
   row for E1, and the balance has moved to 200.
   */
  lemma CreateDepositRedeliverScenario()
    ensures var empty := Tables(map[], map[]);
            var created := Apply(empty, AccountCreated(AccountCreatedEvent("A", "Alice", 100, "USD")),
                                 "t0", NoFault).tables;
            var dep := MoneyDeposited(MoneyEvent("E1", "A", 50, None, "t1"));
            var once := Apply(created, dep, "t2", NoFault).tables;
            var twice := Apply(once, dep, "t3", NoFault).tables;
            && once.accounts["A"].balance == 150
            && once.transactions == map["E1" := TxRow("E1", "A", Deposit, 50, 150, "Deposit", "t1")]
            && twice.transactions == once.transactions
            && twice.accounts["A"].balance == 200
  {
    var empty := Tables(map[], map[]);
    var created := Apply(empty, AccountCreated(AccountCreatedEvent("A", "Alice", 100, "USD")),
                         "t0", NoFault).tables;
    assert created.accounts == map["A" := CreatedRow(AccountCreatedEvent("A", "Alice", 100, "USD"))];
    var dep := MoneyDeposited(MoneyEvent("E1", "A", 50, None, "t1"));
    SnapshotOnInsert(created, dep, "t2");
    RedeliveryDoubleApplies(created, dep, "t2", "t3");
  }
}
