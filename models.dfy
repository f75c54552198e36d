/** The ledger's tables: closed enumerations, row shapes, column defaults and
    the non-negative balance check. Money is in integer minor units. */
module Models {
  import opened Results

  /** Transaction types; stored by name. */
  datatype TransactionType = Credit | Debit | Funding | PointsRedeemed

  /** Transaction categories; stored by name. */
  datatype TransactionCategory = WalletFunding | PointUsage | TourBooking

  function TypeName(t: TransactionType): string
  {
    match t
    case Credit => "credit"
    case Debit => "debit"
    case Funding => "funding"
    case PointsRedeemed => "points_redeemed"
  }

  function CategoryName(c: TransactionCategory): string
  {
    match c
    case WalletFunding => "wallet_funding"
    case PointUsage => "point_usage"
    case TourBooking => "tour_booking"
  }

  /** The column accepts a type name and nothing else: a name maps back to the
      one type it names, and a string naming no type is refused. */
  function ParseTransactionType(s: string): (r: Option<TransactionType>)
    ensures r.Some? ==> TypeName(r.value) == s
    ensures r.None? ==> forall t: TransactionType :: TypeName(t) != s
  {
    if s == "credit" then Some(Credit)
    else if s == "debit" then Some(Debit)
    else if s == "funding" then Some(Funding)
    else if s == "points_redeemed" then Some(PointsRedeemed)
    else None
  }

  /** Likewise for the category column. */
  function ParseTransactionCategory(s: string): (r: Option<TransactionCategory>)
    ensures r.Some? ==> CategoryName(r.value) == s
    ensures r.None? ==> forall c: TransactionCategory :: CategoryName(c) != s
  {
    if s == "wallet_funding" then Some(WalletFunding)
    else if s == "point_usage" then Some(PointUsage)
    else if s == "tour_booking" then Some(TourBooking)
    else None
  }

  /** Every type has a name that parses back to it, and distinct types have
      distinct names. */
  lemma TypeNamesRoundTrip(t: TransactionType, u: TransactionType)
    ensures ParseTransactionType(TypeName(t)) == Some(t)
    ensures TypeName(t) == TypeName(u) ==> t == u
  {
  }

  /** Every category has a name that parses back to it, and distinct
      categories have distinct names. */
  lemma CategoryNamesRoundTrip(c: TransactionCategory, d: TransactionCategory)
    ensures ParseTransactionCategory(CategoryName(c)) == Some(c)
    ensures CategoryName(c) == CategoryName(d) ==> c == d
  {
  }

  /** A wallet row; its id is the key it is stored under. */
  datatype Wallet = Wallet(userId: int, balance: int, currency: string)

  /** The `check_balance_non_negative` constraint on the wallets table. */
  predicate BalanceNonNegative(w: Wallet)
  {
    w.balance >= 0
  }

  /** Default of the status column of a new transaction. */
  const DefaultStatus: string := "pending"

  /** A wallet transaction row. The handlers never set the category, so it is
      absent in every row they write. */
  datatype Transaction = Transaction(
    id: int,
    walletId: int,
    amount: int,
    transactionType: TransactionType,
    category: Option<TransactionCategory>,
    status: string)

  /** A row as the handlers build it: only wallet, amount and type are given;
      the status takes its column default and the category stays unset. */
  function NewTransaction(id: int, walletId: int, amount: int, t: TransactionType): Transaction
  {
    Transaction(id, walletId, amount, t, None, DefaultStatus)
  }

  /** A points row; `points` is the signed delta (earn > 0, redeem < 0). */
  datatype PointsTransaction = PointsTransaction(
    userId: int,
    activityType: string,
    details: Option<string>,
    points: int)
}
