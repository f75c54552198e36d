/** The points router: earn, redeem and read a user's loyalty points. A
    user's balance is never stored; it is always the sum of the user's rows. */
module Points {
  import opened Results
  import opened Models
  import opened Store

  /** Every earn awards the same number of points, whatever the activity. */
  const EarnedPoints: int := 10

  /** The activity recorded for a redemption. */
  const RedeemActivity: string := "redeem"

  /** Logs `EarnedPoints` for a known user and returns the user's new total.
      The detail text is handed to the row under the wrong field name, so the
      row's `details` stays empty. */
  method EarnPoints(db: Database, userId: int, activityType: string, metadata: Option<string>)
    returns (r: Result<int>)
    requires db.Valid()
    modifies db
    ensures db.Valid()
    ensures r.Err? <==> userId !in old(db.users)
    ensures r.Err? ==> r.error == NotFound && unchanged(db)
    ensures r.Ok? ==>
              && db.pointsTransactions
                 == old(db.pointsTransactions) + [PointsTransaction(userId, activityType, None, EarnedPoints)]
              && r.value == old(PointsTotal(db.pointsTransactions, userId)) + EarnedPoints
              && r.value == PointsTotal(db.pointsTransactions, userId)
              && db.users == old(db.users) && db.wallets == old(db.wallets)
              && db.transactions == old(db.transactions)
              && db.nextWalletId == old(db.nextWalletId) && db.nextTransactionId == old(db.nextTransactionId)
    ensures forall u :: u != userId ==> PointsTotal(db.pointsTransactions, u) == old(PointsTotal(db.pointsTransactions, u))
  {
    if userId !in db.users {
      return Err(NotFound);
    }
    var row := PointsTransaction(userId, activityType, None, EarnedPoints);
    ghost var oldLog := db.pointsTransactions;
    db.pointsTransactions := db.pointsTransactions + [row];
    forall u ensures PointsTotal(db.pointsTransactions, u) == PointsTotal(oldLog, u) + (if u == userId then EarnedPoints else 0) {
      PointsTotalAppendRow(oldLog, row, u);
    }
    var total := PointsTotal(db.pointsTransactions, userId);
    r := Ok(total);
  }

  /** Logs `-points` under activity "redeem" when the user's total covers
      `points`, and returns the remaining total. `points` is not required to
      be positive. `rewardType` goes to the row under the wrong field name,
      so the row's `details` stays empty. */
  method RedeemPoints(db: Database, userId: int, points: int, rewardType: string)
    returns (r: Result<int>)
    requires db.Valid()
    modifies db
    ensures db.Valid()
    ensures r == Err(NotFound) <==> userId !in old(db.users)
    ensures r == Err(InsufficientPoints) <==>
              userId in old(db.users) && old(PointsTotal(db.pointsTransactions, userId)) < points
    ensures r.Err? ==> unchanged(db)
    ensures r.Ok? <==> userId in old(db.users) && old(PointsTotal(db.pointsTransactions, userId)) >= points
    ensures r.Ok? ==>
              && db.pointsTransactions
                 == old(db.pointsTransactions) + [PointsTransaction(userId, RedeemActivity, None, -points)]
              && r.value == old(PointsTotal(db.pointsTransactions, userId)) - points
              && r.value == PointsTotal(db.pointsTransactions, userId)
              && r.value >= 0
              && db.users == old(db.users) && db.wallets == old(db.wallets)
              && db.transactions == old(db.transactions)
              && db.nextWalletId == old(db.nextWalletId) && db.nextTransactionId == old(db.nextTransactionId)
    ensures forall u :: u != userId ==> PointsTotal(db.pointsTransactions, u) == old(PointsTotal(db.pointsTransactions, u))
  {
    if userId !in db.users {
      return Err(NotFound);
    }
    var total := PointsTotal(db.pointsTransactions, userId);
    if total < points {
      return Err(InsufficientPoints);
    }
    var row := PointsTransaction(userId, RedeemActivity, None, -points);
    ghost var oldLog := db.pointsTransactions;
    db.pointsTransactions := db.pointsTransactions + [row];
    forall u ensures PointsTotal(db.pointsTransactions, u) == PointsTotal(oldLog, u) + (if u == userId then -points else 0) {
      PointsTotalAppendRow(oldLog, row, u);
    }
    r := Ok(total - points);
  }

  /** A user's points total, or NotFound for an unknown user. */
  function GetPointsBalance(users: set<int>, plog: seq<PointsTransaction>, userId: int): (r: Result<int>)
    ensures r.Err? <==> userId !in users
    ensures r.Err? ==> r.error == NotFound
    ensures r.Ok? ==> r.value == PointsTotal(plog, userId)
    ensures r.Ok? && (forall i :: 0 <= i < |plog| ==> plog[i].userId != userId) ==> r.value == 0
  {
    if userId !in users then Err(NotFound) else Ok(PointsTotal(plog, userId))
  }

  /** The balance the handler reads is never negative in a database the
      handlers have kept. */
  lemma PointsBalanceNonNegative(db: Database, userId: int)
    requires db.Valid() && userId in db.users
    ensures GetPointsBalance(db.users, db.pointsTransactions, userId).Ok?
    ensures GetPointsBalance(db.users, db.pointsTransactions, userId).value >= 0
  {
    assert PointsTotal(db.pointsTransactions, userId) >= 0;
  }
}
