/** The wallet handlers: open a wallet, look one up, fund one. */
module Wallets {
  import opened Results
  import opened Models
  import opened Store

  /** Opens a wallet with balance 0 for `userId` in `currency` and returns
      its id and row. The handler does not look the user up: the foreign key
      from wallets to users refuses the row at commit when the user does not
      exist, and then nothing changes. */
  method CreateWallet(db: Database, userId: int, currency: string) returns (r: Result<(int, Wallet)>)
    requires db.Valid()
    modifies db
    ensures db.Valid()
    ensures r.Err? <==> userId !in old(db.users)
    ensures r.Err? ==> r.error == ForeignKeyViolated && unchanged(db)
    ensures r.Ok? ==>
              var (id, wallet) := r.value;
              && wallet == Wallet(userId, 0, currency)
              && id == old(db.nextWalletId) && id !in old(db.wallets)
              && db.wallets == old(db.wallets)[id := wallet]
              && (forall i :: 0 <= i < |db.transactions| ==> db.transactions[i].walletId != id)
              && LoggedTotal(db.transactions, {id}) == 0 && Drift(db.wallets, db.transactions, id) == 0
              && db.nextWalletId == old(db.nextWalletId) + 1
              && db.users == old(db.users) && db.transactions == old(db.transactions)
              && db.pointsTransactions == old(db.pointsTransactions)
              && db.nextTransactionId == old(db.nextTransactionId)
  {
    if userId !in db.users {
      return Err(ForeignKeyViolated);
    }
    var id := db.nextWalletId;
    var wallet := Wallet(userId, 0, currency);
    db.wallets := db.wallets[id := wallet];
    db.nextWalletId := db.nextWalletId + 1;
    TotalsOfUnusedWallets(db.transactions, {id}, Credit);
    r := Ok((id, wallet));
  }

  /** The stored wallet, or NotFound. */
  function GetWallet(wallets: map<int, Wallet>, walletId: int): (r: Result<Wallet>)
    ensures r.Ok? <==> walletId in wallets
    ensures r.Ok? ==> r.value == wallets[walletId]
    ensures r.Err? ==> r.error == NotFound
  {
    if walletId in wallets then Ok(wallets[walletId]) else Err(NotFound)
  }

  /** Adds `amount` to the wallet and logs one credit row; returns the new
      balance. There is no check that `amount` is positive: a negative amount
      that would take the balance below 0 is refused by the balance check at
      commit, and then nothing changes. `source` is accepted and not used. */
  method FundWallet(db: Database, walletId: int, amount: int, source: string) returns (r: Result<int>)
    requires db.Valid()
    modifies db
    ensures db.Valid()
    ensures r.Ok? <==> walletId in old(db.wallets) && old(db.wallets[walletId].balance) + amount >= 0
    ensures r == Err(NotFound) <==> walletId !in old(db.wallets)
    ensures r == Err(BalanceCheckViolated) <==>
              walletId in old(db.wallets) && old(db.wallets[walletId].balance) + amount < 0
    ensures r.Err? ==> unchanged(db)
    ensures r.Ok? ==> walletId in old(db.wallets)
    ensures r.Ok? ==>
              var w := old(db.wallets[walletId]);
              && r.value == w.balance + amount
              && db.wallets == old(db.wallets)[walletId := w.(balance := w.balance + amount)]
              && db.transactions
                 == old(db.transactions) + [NewTransaction(old(db.nextTransactionId), walletId, amount, Credit)]
              && db.nextTransactionId == old(db.nextTransactionId) + 1
              && db.users == old(db.users) && db.pointsTransactions == old(db.pointsTransactions)
              && db.nextWalletId == old(db.nextWalletId)
    ensures r.Ok? ==> forall id :: id in old(db.wallets) ==>
              id in db.wallets && Drift(db.wallets, db.transactions, id) == old(Drift(db.wallets, db.transactions, id))
    // the funded wallet's signed logged total, and so its summary, moves by
    // `amount`; no other wallet's total moves
    ensures r.Ok? ==> forall id ::
              LoggedTotal(db.transactions, {id})
              == old(LoggedTotal(db.transactions, {id})) + (if id == walletId then amount else 0)
  {
    if walletId !in db.wallets {
      return Err(NotFound);
    }
    var wallet := db.wallets[walletId];
    var newBalance := wallet.balance + amount;
    if newBalance < 0 {
      return Err(BalanceCheckViolated);
    }
    var row := NewTransaction(db.nextTransactionId, walletId, amount, Credit);
    ghost var oldLog := db.transactions;
    db.wallets := db.wallets[walletId := wallet.(balance := newBalance)];
    db.transactions := db.transactions + [row];
    db.nextTransactionId := db.nextTransactionId + 1;
    forall id
      ensures LoggedTotal(db.transactions, {id}) == LoggedTotal(oldLog, {id}) + (if id == walletId then amount else 0)
    {
      LoggedTotalAppendRow(oldLog, row, {id});
    }
    r := Ok(newBalance);
  }
}
