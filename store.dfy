/** The database as the handlers see it: the users, wallets, transactions and
    points_transactions tables, the id counters, and the SQL aggregates the
    handlers run over them. Each handler is one atomic step on this state. */
module Store {
  import opened Models

  /** `SUM(amount)` over the rows whose wallet is in `ids`; SQL's NULL for no
      rows becomes 0 through the handlers' `or 0`. */
  function LoggedTotal(log: seq<Transaction>, ids: set<int>): int
  {
    if log == [] then 0
    else (if log[0].walletId in ids then log[0].amount else 0) + LoggedTotal(log[1..], ids)
  }

  /** `SUM(amount)` over the rows of the wallets in `ids` that have type `t`. */
  function TypeTotal(log: seq<Transaction>, ids: set<int>, t: TransactionType): int
  {
    if log == [] then 0
    else (if log[0].walletId in ids && log[0].transactionType == t then log[0].amount else 0)
         + TypeTotal(log[1..], ids, t)
  }

  /** `SUM(points)` over one user's points rows, 0 when there are none; a
      user whose rows are all earns has a total of at least 0. */
  function PointsTotal(plog: seq<PointsTransaction>, userId: int): (r: int)
    ensures (forall i :: 0 <= i < |plog| ==> plog[i].userId != userId) ==> r == 0
    ensures (forall i :: 0 <= i < |plog| ==> plog[i].userId != userId || plog[i].points >= 0) ==> r >= 0
  {
    if plog == [] then 0
    else
      assert forall i :: 0 <= i < |plog[1..]| ==> plog[1..][i] == plog[i + 1];
      (if plog[0].userId == userId then plog[0].points else 0) + PointsTotal(plog[1..], userId)
  }

  /** The handlers write only credit and debit rows. */
  predicate OnlyCreditsAndDebits(log: seq<Transaction>)
  {
    forall i :: 0 <= i < |log| ==> log[i].transactionType == Credit || log[i].transactionType == Debit
  }

  /** What a wallet's balance holds beyond its logged history: the seed script
      opens wallets with a balance and no rows, so this is not always 0, but no
      handler ever changes it. */
  ghost function Drift(wallets: map<int, Wallet>, log: seq<Transaction>, id: int): int
    requires id in wallets
  {
    wallets[id].balance - LoggedTotal(log, {id})
  }

  lemma {:induction false} LoggedTotalAppend(a: seq<Transaction>, b: seq<Transaction>, ids: set<int>)
    ensures LoggedTotal(a + b, ids) == LoggedTotal(a, ids) + LoggedTotal(b, ids)
  {
    if a == [] {
      assert a + b == b;
    } else {
      assert (a + b)[1..] == a[1..] + b;
      LoggedTotalAppend(a[1..], b, ids);
    }
  }

  lemma {:induction false} TypeTotalAppend(a: seq<Transaction>, b: seq<Transaction>, ids: set<int>, t: TransactionType)
    ensures TypeTotal(a + b, ids, t) == TypeTotal(a, ids, t) + TypeTotal(b, ids, t)
  {
    if a == [] {
      assert a + b == b;
    } else {
      assert (a + b)[1..] == a[1..] + b;
      TypeTotalAppend(a[1..], b, ids, t);
    }
  }

  lemma {:induction false} PointsTotalAppend(a: seq<PointsTransaction>, b: seq<PointsTransaction>, userId: int)
    ensures PointsTotal(a + b, userId) == PointsTotal(a, userId) + PointsTotal(b, userId)
  {
    if a == [] {
      assert a + b == b;
    } else {
      assert (a + b)[1..] == a[1..] + b;
      PointsTotalAppend(a[1..], b, userId);
    }
  }

  /** Appending one row moves its wallet's total by the row's amount and no
      other wallet's total. */
  lemma LoggedTotalAppendRow(log: seq<Transaction>, row: Transaction, ids: set<int>)
    ensures LoggedTotal(log + [row], ids) == LoggedTotal(log, ids) + (if row.walletId in ids then row.amount else 0)
  {
    LoggedTotalAppend(log, [row], ids);
  }

  /** Appending one row moves the total of its type in its wallet by the row's
      amount and no other total. */
  lemma TypeTotalAppendRow(log: seq<Transaction>, row: Transaction, ids: set<int>, t: TransactionType)
    ensures TypeTotal(log + [row], ids, t)
         == TypeTotal(log, ids, t) + (if row.walletId in ids && row.transactionType == t then row.amount else 0)
  {
    TypeTotalAppend(log, [row], ids, t);
  }

  /** Appending one points row moves its user's total by the row's delta and
      no other user's total. */
  lemma PointsTotalAppendRow(plog: seq<PointsTransaction>, row: PointsTransaction, userId: int)
    ensures PointsTotal(plog + [row], userId) == PointsTotal(plog, userId) + (if row.userId == userId then row.points else 0)
  {
    PointsTotalAppend(plog, [row], userId);
  }

  /** The wallets no row refers to have a zero total, per type and overall:
      SQL's NULL for an empty SUM, turned into 0 by the handlers' `or 0`. */
  lemma {:induction false} TotalsOfUnusedWallets(log: seq<Transaction>, ids: set<int>, t: TransactionType)
    ensures (forall i :: 0 <= i < |log| ==> log[i].walletId !in ids) ==>
              LoggedTotal(log, ids) == 0 && TypeTotal(log, ids, t) == 0
  {
    if log != [] {
      assert forall i :: 0 <= i < |log[1..]| ==> log[1..][i] == log[i + 1];
      TotalsOfUnusedWallets(log[1..], ids, t);
    }
  }

  /** On a log of credit and debit rows only, credits plus debits is the
      signed total of the log. */
  lemma {:induction false} CreditsPlusDebits(log: seq<Transaction>, ids: set<int>)
    ensures OnlyCreditsAndDebits(log) ==>
              TypeTotal(log, ids, Credit) + TypeTotal(log, ids, Debit) == LoggedTotal(log, ids)
  {
    if log != [] {
      assert forall i :: 0 <= i < |log[1..]| ==> log[1..][i] == log[i + 1];
      CreditsPlusDebits(log[1..], ids);
    }
  }

  /** The four tables and the id sequences of the wallets and transactions
      tables. */
  class Database {
    var users: set<int>
    var wallets: map<int, Wallet>
    var transactions: seq<Transaction>
    var pointsTransactions: seq<PointsTransaction>
    var nextWalletId: int
    var nextTransactionId: int

    /** The declared constraints (balance check; foreign keys from wallets
        and points rows to users and from transaction rows to wallets;
        unique ascending ids) and the invariants the handlers keep (only
        credit and debit rows; no negative points total). The transaction id
        is a primary key: no two rows share one. */
    ghost predicate Valid()
      reads this
      ensures Valid() ==>
                forall i, j :: 0 <= i < |transactions| && 0 <= j < |transactions| && transactions[i].id == transactions[j].id
                  ==> i == j
    {
      && (forall id :: id in wallets ==>
            id < nextWalletId && BalanceNonNegative(wallets[id]) && wallets[id].userId in users)
      && (forall i :: 0 <= i < |transactions| ==>
            transactions[i].walletId in wallets && transactions[i].id < nextTransactionId)
      && (forall i, j :: 0 <= i < j < |transactions| ==> transactions[i].id < transactions[j].id)
      && OnlyCreditsAndDebits(transactions)
      && (forall i :: 0 <= i < |pointsTransactions| ==> pointsTransactions[i].userId in users)
      && (forall u :: PointsTotal(pointsTransactions, u) >= 0)
    }

    /** A database whose users are `users` and whose ledger tables are empty. */
    constructor (users: set<int>)
      ensures Valid()
      ensures this.users == users && wallets == map[] && transactions == [] && pointsTransactions == []
    {
      this.users := users;
      wallets := map[];
      transactions := [];
      pointsTransactions := [];
      nextWalletId := 1;
      nextTransactionId := 1;
    }
  }
}
