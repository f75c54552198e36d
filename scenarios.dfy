/** Client runs of the handlers, proved from their contracts alone. */
module Scenarios {
  import opened Results
  import opened Models
  import opened Store
  import opened Wallets
  import opened Transactions
  import opened Points

  /** A new wallet funded with 100 and then 50 holds 150, has two rows, and
      its summary reports 150. */
  method FundTwice(db: Database, userId: int) returns (walletId: int)
    requires db.Valid() && userId in db.users
    modifies db
    ensures db.Valid() && walletId in db.wallets
    ensures db.wallets[walletId].balance == 150
    ensures |db.transactions| == old(|db.transactions|) + 2
    ensures TransactionSummaryByWallet(db.wallets, db.transactions, walletId) == Ok(Summary(150, 0, 150))
  {
    var opening := CreateWallet(db, userId, "GHS");
    walletId := opening.value.0;
    ghost var created := db.transactions;
    var first := FundWallet(db, walletId, 100, "card");
    var second := FundWallet(db, walletId, 50, "card");
    assert second == Ok(150);
    ghost var funded := db.transactions;
    ghost var r1, r2 := funded[|funded| - 2], funded[|funded| - 1];
    assert funded == created + [r1] + [r2];
    forall t: TransactionType ensures TypeTotal(funded, {walletId}, t) == if t == Credit then 150 else 0 {
      TotalsOfUnusedWallets(created, {walletId}, t);
      TypeTotalAppendRow(created, r1, {walletId}, t);
      TypeTotalAppendRow(created + [r1], r2, {walletId}, t);
    }
  }

  /** With A = 100 and B = 0, moving 50 from A to B leaves 50 in each and
      logs a debit on A and a credit on B; asking for more than A holds
      fails and changes nothing. */
  method TransferBetweenTwoWallets(db: Database, a: int, b: int)
    requires db.Valid() && a != b && a in db.wallets && b in db.wallets
    requires db.wallets[a].balance == 100 && db.wallets[b].balance == 0
    modifies db
    ensures db.Valid() && a in db.wallets && b in db.wallets
    ensures db.wallets[a].balance == 50 && db.wallets[b].balance == 50
    ensures |db.transactions| == old(|db.transactions|) + 2
    ensures db.transactions[|db.transactions| - 2].walletId == a
    ensures db.transactions[|db.transactions| - 2].transactionType == Debit
    ensures db.transactions[|db.transactions| - 1].walletId == b
    ensures db.transactions[|db.transactions| - 1].transactionType == Credit
  {
    var ok := TransferFunds(db, a, b, 50);
    assert ok.Ok?;
    var refused := TransferFunds(db, a, b, 51);
    assert refused == Err(InsufficientFunds);
  }

  /** A user without points rows cannot redeem 10; after two earns (10
      points each) a redemption of 12 leaves 8. */
  method EarnEarnRedeem(db: Database, userId: int) returns (remaining: Result<int>)
    requires db.Valid() && userId in db.users
    requires forall i :: 0 <= i < |db.pointsTransactions| ==> db.pointsTransactions[i].userId != userId
    modifies db
    ensures db.Valid()
    ensures remaining == Ok(8)
  {
    var refused := RedeemPoints(db, userId, 10, "voucher");
    assert refused == Err(InsufficientPoints);
    var e1 := EarnPoints(db, userId, "booking", None);
    var e2 := EarnPoints(db, userId, "referral", Some("friend"));
    assert e2 == Ok(20);
    remaining := RedeemPoints(db, userId, 12, "voucher");
  }
}
