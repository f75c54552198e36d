/** The transactions router: transfers between wallets, per-wallet and
    per-user summaries, listings and pagination of the transaction log, and
    single-transaction lookup. The handlers declared before the router is
    rebound (app/routers/transactions.py:70) are not reachable over HTTP;
    they are modelled as the queries they are. */
module Transactions {
  import opened Results
  import opened Models
  import opened Store

  function Min(a: int, b: int): int { if a <= b then a else b }
  function Max(a: int, b: int): int { if a <= b then b else a }

  // ---------------- Transfer ----------------

  /** The balances a successful transfer reports. */
  datatype TransferReceipt = TransferReceipt(fromWalletBalance: int, toWalletBalance: int)

  /** Moves `amount` from one wallet to another and logs a debit row of
      `-amount` on the sender, then a credit row of `amount` on the receiver.
      The checks run in the source's order: same wallet, either wallet
      absent, sender balance below `amount`. `amount` is not required to be
      positive; a negative amount that would take the receiver below 0 is
      refused by the balance check at commit. Every failure changes nothing. */
  method TransferFunds(db: Database, fromWalletId: int, toWalletId: int, amount: int)
    returns (r: Result<TransferReceipt>)
    requires db.Valid()
    modifies db
    ensures db.Valid()
    ensures r.Ok? <==>
              && fromWalletId != toWalletId && fromWalletId in old(db.wallets) && toWalletId in old(db.wallets)
              && old(db.wallets[fromWalletId].balance) >= amount && old(db.wallets[toWalletId].balance) + amount >= 0
    ensures r == Err(SameWallet) <==> fromWalletId == toWalletId
    ensures r == Err(NotFound) <==>
              fromWalletId != toWalletId && (fromWalletId !in old(db.wallets) || toWalletId !in old(db.wallets))
    ensures r == Err(InsufficientFunds) <==>
              && fromWalletId != toWalletId && fromWalletId in old(db.wallets) && toWalletId in old(db.wallets)
              && old(db.wallets[fromWalletId].balance) < amount
    ensures r == Err(BalanceCheckViolated) <==>
              && fromWalletId != toWalletId && fromWalletId in old(db.wallets) && toWalletId in old(db.wallets)
              && old(db.wallets[fromWalletId].balance) >= amount
              && old(db.wallets[toWalletId].balance) + amount < 0
    ensures r.Err? ==> unchanged(db)
    ensures r.Ok? ==>
              var f, t := old(db.wallets[fromWalletId]), old(db.wallets[toWalletId]);
              var n := old(db.nextTransactionId);
              && db.wallets == old(db.wallets)[fromWalletId := f.(balance := f.balance - amount)]
                                              [toWalletId := t.(balance := t.balance + amount)]
              && r.value == TransferReceipt(f.balance - amount, t.balance + amount)
              && db.transactions == old(db.transactions)
                   + [NewTransaction(n, fromWalletId, -amount, Debit), NewTransaction(n + 1, toWalletId, amount, Credit)]
              && db.nextTransactionId == n + 2
              && db.users == old(db.users) && db.pointsTransactions == old(db.pointsTransactions)
              && db.nextWalletId == old(db.nextWalletId)
    // the two balances are conserved, and no other wallet moves
    ensures r.Ok? ==>
              && db.wallets.Keys == old(db.wallets.Keys)
              && db.wallets[fromWalletId].balance + db.wallets[toWalletId].balance
                 == old(db.wallets[fromWalletId].balance + db.wallets[toWalletId].balance)
              && forall id :: id in old(db.wallets) && id != fromWalletId && id != toWalletId ==>
                   db.wallets[id] == old(db.wallets[id])
    ensures r.Ok? ==> forall id :: id in old(db.wallets) ==>
              id in db.wallets && Drift(db.wallets, db.transactions, id) == old(Drift(db.wallets, db.transactions, id))
    // the signed logged totals, and so the summaries, of the two wallets move
    // by exactly what their balances move; no other wallet's total moves
    ensures r.Ok? ==> forall id ::
              LoggedTotal(db.transactions, {id})
              == old(LoggedTotal(db.transactions, {id})) + (if id == fromWalletId then -amount else 0)
                                                         + (if id == toWalletId then amount else 0)
  {
    if fromWalletId == toWalletId {
      return Err(SameWallet);
    }
    if fromWalletId !in db.wallets || toWalletId !in db.wallets {
      return Err(NotFound);
    }
    var fromWallet, toWallet := db.wallets[fromWalletId], db.wallets[toWalletId];
    if fromWallet.balance < amount {
      return Err(InsufficientFunds);
    }
    var fromBalance, toBalance := fromWallet.balance - amount, toWallet.balance + amount;
    if toBalance < 0 {
      return Err(BalanceCheckViolated);
    }
    ghost var oldLog := db.transactions;
    var debit := NewTransaction(db.nextTransactionId, fromWalletId, -amount, Debit);
    var credit := NewTransaction(db.nextTransactionId + 1, toWalletId, amount, Credit);
    db.wallets := db.wallets[fromWalletId := fromWallet.(balance := fromBalance)]
                            [toWalletId := toWallet.(balance := toBalance)];
    db.transactions := db.transactions + [debit];
    db.transactions := db.transactions + [credit];
    db.nextTransactionId := db.nextTransactionId + 2;
    assert db.transactions == oldLog + [debit] + [credit];
    forall id
      ensures LoggedTotal(db.transactions, {id})
           == LoggedTotal(oldLog, {id}) + (if id == fromWalletId then -amount else 0)
                                        + (if id == toWalletId then amount else 0)
    {
      LoggedTotalAppendRow(oldLog, debit, {id});
      LoggedTotalAppendRow(oldLog + [debit], credit, {id});
    }
    r := Ok(TransferReceipt(fromBalance, toBalance));
  }

  // ---------------- Summaries ----------------

  /** Credits, debits (stored negative) and their sum. */
  datatype Summary = Summary(totalCredits: int, totalDebits: int, currentBalance: int)

  /** The credit, debit and combined totals over the rows of the wallets in
      `ids`. */
  function Totals(log: seq<Transaction>, ids: set<int>): (s: Summary)
    ensures s.currentBalance == s.totalCredits + s.totalDebits
    ensures OnlyCreditsAndDebits(log) ==> s.currentBalance == LoggedTotal(log, ids)
    ensures (forall i :: 0 <= i < |log| ==> log[i].walletId !in ids) ==> s == Summary(0, 0, 0)
  {
    var credits := TypeTotal(log, ids, Credit);
    var debits := TypeTotal(log, ids, Debit);
    CreditsPlusDebits(log, ids);
    TotalsOfUnusedWallets(log, ids, Credit);
    TotalsOfUnusedWallets(log, ids, Debit);
    Summary(credits, debits, credits + debits)
  }

  /** The summary of one wallet, or NotFound when the wallet does not exist.
      On a log of credit and debit rows, `currentBalance` is the wallet's
      signed logged total. */
  function TransactionSummaryByWallet(wallets: map<int, Wallet>, log: seq<Transaction>, walletId: int)
    : (r: Result<Summary>)
    ensures r.Err? <==> walletId !in wallets
    ensures r.Err? ==> r.error == NotFound
    ensures r.Ok? ==>
              && r.value.totalCredits == TypeTotal(log, {walletId}, Credit)
              && r.value.totalDebits == TypeTotal(log, {walletId}, Debit)
    ensures r.Ok? && OnlyCreditsAndDebits(log) ==> r.value.currentBalance == LoggedTotal(log, {walletId})
  {
    if walletId !in wallets then Err(NotFound) else Ok(Totals(log, {walletId}))
  }

  /** The summary's current balance is the wallet's stored balance less its
      drift, so after any fund or transfer (which keep the drift) it moves by
      exactly as much as the balance does; for a wallet opened by the
      handlers (drift 0) it equals the balance. */
  lemma SummaryTracksBalance(db: Database, walletId: int)
    requires db.Valid() && walletId in db.wallets
    ensures TransactionSummaryByWallet(db.wallets, db.transactions, walletId).Ok?
    ensures TransactionSummaryByWallet(db.wallets, db.transactions, walletId).value.currentBalance
            == db.wallets[walletId].balance - Drift(db.wallets, db.transactions, walletId)
  {
  }

  /** The ids of the wallets `userId` owns. */
  function OwnedWalletIds(wallets: map<int, Wallet>, userId: int): (r: set<int>)
    ensures r <= wallets.Keys
    ensures forall id :: id in r <==> id in wallets && wallets[id].userId == userId
  {
    set id | id in wallets && wallets[id].userId == userId
  }

  /** The per-user summary as written: an unknown user is NotFound, a user
      with no wallets gets an all-zero summary, and on every other path the
      handler falls off its end (its return statement sits after another
      handler's return), returns `None`, and the reply is the JSON `null`
      with status 200. */
  function TransactionSummaryByUserAsWritten(
    users: set<int>, wallets: map<int, Wallet>, log: seq<Transaction>, userId: int)
    : (r: Result<Option<Summary>>)
    ensures r.Err? <==> userId !in users
    ensures r.Err? ==> r.error == NotFound
    ensures r.Ok? ==> (r.value.Some? <==> OwnedWalletIds(wallets, userId) == {})
    ensures r.Ok? && r.value.Some? ==> r.value.value == Summary(0, 0, 0)
  {
    if userId !in users then Err(NotFound)
    else if OwnedWalletIds(wallets, userId) == {} then Ok(Some(Summary(0, 0, 0)))
    else Ok(None)
  }

  /** The per-user summary with the unreachable return restored: the totals
      over every wallet the user owns; all zero when the user owns none. */
  function TransactionSummaryByUser(
    users: set<int>, wallets: map<int, Wallet>, log: seq<Transaction>, userId: int)
    : (r: Result<Summary>)
    ensures r.Err? <==> userId !in users
    ensures r.Err? ==> r.error == NotFound
    ensures r.Ok? && OwnedWalletIds(wallets, userId) == {} ==> r.value == Summary(0, 0, 0)
    ensures r.Ok? ==>
              && r.value.totalCredits == TypeTotal(log, OwnedWalletIds(wallets, userId), Credit)
              && r.value.totalDebits == TypeTotal(log, OwnedWalletIds(wallets, userId), Debit)
    ensures r.Ok? && OnlyCreditsAndDebits(log) ==>
              r.value.currentBalance == LoggedTotal(log, OwnedWalletIds(wallets, userId))
  {
    if userId !in users then Err(NotFound)
    else
      var ids := OwnedWalletIds(wallets, userId);
      if ids == {} then
        TotalsOfUnusedWallets(log, ids, Credit);
        TotalsOfUnusedWallets(log, ids, Debit);
        Ok(Summary(0, 0, 0))
      else Ok(Totals(log, ids))
  }

  /** A user who owns a funded wallet: the handler as written replies `null`
      where the corrected one reports the wallet's totals. */
  lemma UserSummaryAsWrittenLosesTotals()
    ensures var wallets := map[1 := Wallet(7, 500, "GHS")];
            var log := [NewTransaction(1, 1, 500, Credit)];
            && TransactionSummaryByUserAsWritten({7}, wallets, log, 7) == Ok(None)
            && TransactionSummaryByUser({7}, wallets, log, 7) == Ok(Summary(500, 0, 500))
  {
    var wallets := map[1 := Wallet(7, 500, "GHS")];
    var log := [NewTransaction(1, 1, 500, Credit)];
    assert 1 in OwnedWalletIds(wallets, 7);
    assert OwnedWalletIds(wallets, 7) == {1};
  }

  /** For every known user owning a wallet, the as-written handler drops the
      totals the corrected one computes. */
  lemma UserSummaryAsWrittenDiffers(users: set<int>, wallets: map<int, Wallet>, log: seq<Transaction>, userId: int, walletId: int)
    requires userId in users && walletId in wallets && wallets[walletId].userId == userId
    ensures TransactionSummaryByUserAsWritten(users, wallets, log, userId) == Ok(None)
    ensures TransactionSummaryByUser(users, wallets, log, userId).Ok?
  {
    assert walletId in OwnedWalletIds(wallets, userId);
  }

  // ---------------- Listings ----------------

  /** The rows of the wallets in `ids`, in log order. */
  function WalletRows(log: seq<Transaction>, ids: set<int>): (r: seq<Transaction>)
    ensures |r| <= |log|
    ensures forall x :: x in r <==> x in log && x.walletId in ids
    ensures r == [] <==> forall i :: 0 <= i < |log| ==> log[i].walletId !in ids
  {
    if log == [] then []
    else if log[0].walletId in ids then [log[0]] + WalletRows(log[1..], ids)
    else WalletRows(log[1..], ids)
  }

  /** Filtering distributes over appending, so rows appended later never
      move or change the rows listed before them. */
  lemma {:induction false} WalletRowsAppend(a: seq<Transaction>, b: seq<Transaction>, ids: set<int>)
    ensures WalletRows(a + b, ids) == WalletRows(a, ids) + WalletRows(b, ids)
  {
    if a == [] {
      assert a + b == b;
    } else {
      assert (a + b)[1..] == a[1..] + b;
      WalletRowsAppend(a[1..], b, ids);
    }
  }

  /** `OFFSET skip LIMIT limit` over `rows`. */
  function Page<T>(rows: seq<T>, skip: nat, limit: nat): (r: seq<T>)
    ensures |r| == Min(limit, Max(0, |rows| - skip))
    ensures forall i :: 0 <= i < |r| ==> r[i] == rows[skip + i]
  {
    if skip >= |rows| then [] else rows[skip..Min(skip + limit, |rows|)]
  }

  /** Two adjacent pages make up the page that spans both: no row is skipped
      and none is listed twice. */
  lemma AdjacentPages<T>(rows: seq<T>, skip: nat, limit: nat, limit': nat)
    ensures Page(rows, skip, limit) + Page(rows, skip + limit, limit') == Page(rows, skip, limit + limit')
  {
    var p, q, pq := Page(rows, skip, limit), Page(rows, skip + limit, limit'), Page(rows, skip, limit + limit');
    assert |p + q| == |pq|;
    forall i | 0 <= i < |pq| ensures (p + q)[i] == pq[i] {
      if i >= |p| { assert (p + q)[i] == q[i - |p|]; }
    }
  }

  /** Every row is on exactly the page its position says. */
  lemma RowOnItsPage<T>(rows: seq<T>, limit: nat, i: nat)
    requires limit > 0 && i < |rows|
    ensures var k := i / limit;
            i % limit < |Page(rows, k * limit, limit)| && Page(rows, k * limit, limit)[i % limit] == rows[i]
  {
    var k := i / limit;
    assert k * limit + i % limit == i;
  }

  /** Appending rows leaves every page that the old rows already filled
      unchanged. */
  lemma PageStableUnderAppend<T>(rows: seq<T>, more: seq<T>, skip: nat, limit: nat)
    requires skip + limit <= |rows|
    ensures Page(rows + more, skip, limit) == Page(rows, skip, limit)
  {
    var p, q := Page(rows + more, skip, limit), Page(rows, skip, limit);
    assert |p| == |q|;
    forall i | 0 <= i < |p| ensures p[i] == q[i] { }
  }

  /** The query defaults of both paginated listings. */
  const DefaultSkip: nat := 0
  const DefaultLimit: nat := 100

  /** A listing requested without `skip` and `limit` holds the first 100
      rows, or every row when there are fewer. */
  lemma DefaultPageIsFirstRows<T>(rows: seq<T>)
    ensures Page(rows, DefaultSkip, DefaultLimit) == rows[..Min(DefaultLimit, |rows|)]
  {
  }

  /** All transactions of one wallet; NotFound when it has none, whether or
      not the wallet exists. */
  function GetWalletTransactions(log: seq<Transaction>, walletId: int): (r: Result<seq<Transaction>>)
    ensures r.Err? <==> forall i :: 0 <= i < |log| ==> log[i].walletId != walletId
    ensures r.Err? ==> r.error == NotFound
    ensures r.Ok? ==> r.value != [] && forall x :: x in r.value <==> x in log && x.walletId == walletId
  {
    var rows := WalletRows(log, {walletId});
    if rows == [] then Err(NotFound) else Ok(rows)
  }

  /** All transactions of one wallet; NotFound only when the wallet does not
      exist (an empty list is a valid answer). */
  function GetTransactionsByWallet(wallets: map<int, Wallet>, log: seq<Transaction>, walletId: int)
    : (r: Result<seq<Transaction>>)
    ensures r.Err? <==> walletId !in wallets
    ensures r.Err? ==> r.error == NotFound
    ensures r.Ok? ==> forall x :: x in r.value <==> x in log && x.walletId == walletId
  {
    if walletId !in wallets then Err(NotFound) else Ok(WalletRows(log, {walletId}))
  }

  /** An existing wallet with no rows separates the two wallet listings: one
      answers NotFound, the other an empty list. */
  lemma WalletListingsDisagreeOnEmptyWallet(wallets: map<int, Wallet>, log: seq<Transaction>, walletId: int)
    requires walletId in wallets && forall i :: 0 <= i < |log| ==> log[i].walletId != walletId
    ensures GetWalletTransactions(log, walletId) == Err(NotFound)
    ensures GetTransactionsByWallet(wallets, log, walletId) == Ok([])
  {
  }

  /** All transactions of a user's wallets (the unpaginated handler);
      NotFound for an unknown user, an empty list for one without wallets. */
  function GetAllTransactionsByUser(
    users: set<int>, wallets: map<int, Wallet>, log: seq<Transaction>, userId: int)
    : (r: Result<seq<Transaction>>)
    ensures r.Err? <==> userId !in users
    ensures r.Err? ==> r.error == NotFound
    ensures r.Ok? && OwnedWalletIds(wallets, userId) == {} ==> r.value == []
    ensures r.Ok? ==> forall x :: x in r.value <==> x in log && x.walletId in OwnedWalletIds(wallets, userId)
  {
    if userId !in users then Err(NotFound)
    else
      var ids := OwnedWalletIds(wallets, userId);
      if ids == {} then Ok([]) else Ok(WalletRows(log, ids))
  }

  /** One page of a user's transactions: NotFound for an unknown user,
      otherwise the slice at `skip` of the rows of the user's wallets. */
  function GetTransactionsByUser(
    users: set<int>, wallets: map<int, Wallet>, log: seq<Transaction>, userId: int, skip: nat, limit: nat)
    : (r: Result<seq<Transaction>>)
    ensures r.Err? <==> userId !in users
    ensures r.Err? ==> r.error == NotFound
    ensures r.Ok? ==>
              var rows := WalletRows(log, OwnedWalletIds(wallets, userId));
              && |r.value| == Min(limit, Max(0, |rows| - skip))
              && forall i :: 0 <= i < |r.value| ==> r.value[i] == rows[skip + i]
  {
    if userId !in users then Err(NotFound)
    else
      var ids := OwnedWalletIds(wallets, userId);
      if ids == {} then Ok([])
      else Ok(Page(WalletRows(log, ids), skip, limit))
  }

  /** One page of the whole log. */
  function GetTransactions(log: seq<Transaction>, skip: nat, limit: nat): (r: seq<Transaction>)
    ensures |r| == Min(limit, Max(0, |log| - skip))
    ensures forall i :: 0 <= i < |r| ==> r[i] == log[skip + i]
  {
    Page(log, skip, limit)
  }

  /** The first row with id `transactionId`, or NotFound when no row has it. */
  function GetTransaction(log: seq<Transaction>, transactionId: int): (r: Result<Transaction>)
    ensures r.Ok? ==> r.value in log && r.value.id == transactionId
    ensures r.Err? <==> forall i :: 0 <= i < |log| ==> log[i].id != transactionId
    ensures r.Err? ==> r.error == NotFound
  {
    if log == [] then Err(NotFound)
    else if log[0].id == transactionId then Ok(log[0])
    else
      var r := GetTransaction(log[1..], transactionId);
      assert forall i :: 1 <= i < |log| ==> log[i] == log[1..][i - 1];
      r
  }

  /** Appends never change what an existing id looks up to: the log is
      append-only and its rows are immutable. */
  lemma {:induction false} GetTransactionStableUnderAppend(log: seq<Transaction>, more: seq<Transaction>, transactionId: int)
    requires GetTransaction(log, transactionId).Ok?
    ensures GetTransaction(log + more, transactionId) == GetTransaction(log, transactionId)
  {
    if log[0].id != transactionId {
      assert (log + more)[1..] == log[1..] + more;
      GetTransactionStableUnderAppend(log[1..], more, transactionId);
    }
  }
}
