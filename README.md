# Vooya travel wallet: the ledger core in Dafny

This project models the ledger of the Vooya travel-wallet API (FastAPI and
SQLAlchemy). It covers:

- wallets and their balances;
- the append-only log of wallet transactions;
- the append-only log of loyalty-points transactions;
- the handlers that change or read these.

The database is one in-memory state, the class `Store.Database`. It holds the
users, wallets, transactions and points_transactions tables and the id
sequences of the wallets and transactions tables. Each route handler is one
atomic step: it reads the state, checks, changes it, and commits once. It
returns a value or an error.

- Handlers that write (open a wallet, fund, transfer, earn, redeem) are
  methods on `db: Database` with `modifies db`. Their postconditions give the
  whole new state, keep `Valid()`, and state:
  - that a failure changes nothing;
  - for transfer, that the two balances are conserved and no other wallet
    moves;
  - that every wallet's drift (balance less the signed total of its logged
    rows) is unchanged;
  - that no user's points total goes below 0 and other users' totals do not
    move.
- Handlers that only read (wallet lookup, summaries, listings, pagination,
  single lookup, points balance) are functions over the table values.
  Being functions, they change nothing, and two reads with no write between
  them give the same answer.
- Money is in integer minor units. Points are integers.

Modules: `Results` (errors and results), `Models` (app/models.py), `Store` (the
tables, the SQL `SUM` aggregates, `Valid()`), `Wallets`, `Transactions` and
`Points` (one per router), and `Scenarios` (client runs proved from the
contracts alone).

What the handlers check, and what they leave to the database:

- `create_wallet` does not look the user up. The foreign key from wallets to
  users (app/models.py:40) refuses a wallet for an unknown user at commit; the
  model returns `ForeignKeyViolated` for that and changes nothing.
- Neither funding nor transfer rejects an amount that is zero or negative.
- Redeem does not reject a non-positive number of points.
- Every earn awards a fixed 10 points, whatever the activity.
- A self-transfer fails with its own error, `SameWallet`.
- With no positivity check, a negative amount only fails when the database's
  `check_balance_non_negative` constraint refuses the commit. The model
  returns `BalanceCheckViolated` for that and changes nothing.

Other behaviour of the code that the model keeps:

- Transaction rows never get a category, so `category` is `None` in every row
  the handlers write.
- The points handlers pass the detail text as `metadata=`, which is not the
  `details` column, so `details` stays `None`.
- The summaries add the credit total and the debit total. Debits are stored
  as negative amounts, so `currentBalance` is the wallet's signed logged total.
  The source comment says "credit - debit", but the code adds the two.
- The handlers declared before the router is rebound
  (app/routers/transactions.py:70) are not reachable over HTTP. They are
  modelled as the plain queries they are.
- The first `get_transactions_by_user` (app/routers/transactions.py:38-53)
  lists every row of the user's wallets without pagination; it is modelled as
  `GetAllTransactionsByUser`. The first `get_transactions` (lines 57-62) is
  the lookup of one transaction by id; it is modelled as `GetTransaction`.
- Both paginated listings default to `skip = 0` and `limit = 100`
  (`Transactions.DefaultSkip`, `Transactions.DefaultLimit`).

## Model

| member | source | states |
|---|---|---|
| `Models.ParseTransactionType` | app/models.py:8-12 | the type column accepts exactly the four type names; a parsed name maps back to itself, and any other string names no type |
| `Models.ParseTransactionCategory` | app/models.py:14-17 | the category column accepts exactly the three category names; any other string names no category |
| `Models.TypeName` | app/models.py:8-12 | the name each transaction type is stored under |
| `Models.CategoryName` | app/models.py:14-17 | the name each category is stored under |
| `Models.BalanceNonNegative` | app/models.py:50-53 | the `check_balance_non_negative` constraint: a wallet's balance is at least 0 |
| `Models.NewTransaction` | app/models.py:59-64 | a transaction row as the handlers build it: id, wallet, amount and type given, status the column default "pending", no category |
| `Models.TypeNamesRoundTrip` | app/models.py:8-12 | every transaction type parses back from its name, and distinct types have distinct names |
| `Models.CategoryNamesRoundTrip` | app/models.py:14-17 | every category parses back from its name, and distinct categories have distinct names |
| `Store.LoggedTotal` | app/routers/transactions.py:129-130 | the signed total of the amounts of the rows of the wallets in a set, 0 when there are none; on credit and debit rows it is the `current_balance` the summaries report |
| `Store.TypeTotal` | app/routers/transactions.py:153-162 | `SUM(amount)` over the rows of the wallets in a set that have one type, 0 where SQL gives NULL |
| `Store.PointsTotal` | app/routers/points.py:36 | `SUM(points)` over one user's rows: 0 for a user with no rows, as `or 0` gives at lines 36, 48 and 73, and at least 0 when every row of the user is an earn |
| `Store.Database.Valid` | app/models.py:40-75 | the balance check on every wallet, the foreign keys from wallets and points rows to users and from transaction rows to wallets, ids below their sequences, ascending transaction ids, only credit and debit rows, no negative points total; a database that satisfies it has no two transaction rows with the same id |
| `Store.LoggedTotalAppend` | app/routers/wallets.py:42-50 | the signed total of a wallet's rows over a log split in two is the sum of the two parts' totals |
| `Store.LoggedTotalAppendRow` | app/routers/wallets.py:45-50 | appending one row moves its own wallet's total by the row's amount and leaves every other wallet's total alone |
| `Store.TypeTotalAppend` | app/routers/transactions.py:118-127 | the per-type SUM over a log split in two is the sum of the parts' SUMs |
| `Store.TypeTotalAppendRow` | app/routers/transactions.py:118-127 | appending one row moves only the SUM of its own wallet and type, by its amount |
| `Store.TotalsOfUnusedWallets` | app/routers/transactions.py:118-127 | over wallets that no row refers to, the SUM is NULL and the handler's `or 0` makes it 0, both overall and per type |
| `Store.CreditsPlusDebits` | app/routers/transactions.py:129-130 | on a log of credit and debit rows, the credit total plus the debit total is the signed total of the rows |
| `Store.PointsTotalAppend` | app/routers/points.py:36 | a user's points SUM over a log split in two is the sum of the parts' SUMs |
| `Store.PointsTotalAppendRow` | app/routers/points.py:33-36 | appending one points row moves only its own user's total, by its delta |
| `Store.Database.constructor` | app/create_tables.py:5 | a fresh database with empty ledger tables satisfies every constraint and invariant in `Valid()` |
| `Wallets.CreateWallet` | app/routers/wallets.py:17-23 | fails with ForeignKeyViolated exactly when the user does not exist, and then changes nothing; otherwise adds exactly one wallet under a fresh id, with the given user and currency and balance 0, and returns its id and row; no log row refers to the new id, so its logged total and its drift are 0; nothing else changes |
| `Wallets.GetWallet` | app/routers/wallets.py:27-32 | returns the stored wallet when the id exists, and NotFound otherwise |
| `Wallets.FundWallet` | app/routers/wallets.py:36-54 | an absent wallet gives NotFound; an amount that would take the balance below 0 is refused at commit; either failure changes nothing; otherwise it raises only that wallet's balance by `amount`, returns the new balance and appends exactly one `(wallet, amount, credit, pending)` row; the wallet's signed logged total moves by `amount` and no other wallet's total moves; every wallet's drift is kept and `Valid()` holds |
| `Transactions.TransferFunds` | app/routers/transactions.py:76-109 | same wallet gives SameWallet, an absent wallet gives NotFound, and a sender holding less than `amount` gives InsufficientFunds, checked in that order; a receiver driven below 0 is refused at commit; each failure changes nothing; success is exactly the case where no check fails, and on success the sender loses `amount`, the receiver gains it, their sum is unchanged, no other wallet moves, and exactly a debit row of `-amount` and then a credit row of `amount` are appended; the two wallets' signed logged totals move by `-amount` and `amount` and no other wallet's total moves; every wallet's drift is kept |
| `Transactions.Totals` | app/routers/transactions.py:117-130 | the current balance is credits plus debits; on a log of credits and debits only, it is the signed logged total; with no rows for the wallets, all three totals are 0 |
| `Transactions.TransactionSummaryByWallet` | app/routers/transactions.py:111-137 | NotFound exactly when the wallet is absent; otherwise the credit and debit SUMs of that wallet, and a current balance that is its signed logged total |
| `Transactions.SummaryTracksBalance` | app/routers/transactions.py:112-137 | in a database the handlers keep, the summary's current balance equals the wallet's balance less its drift; as fund and transfer keep every drift and move each logged total by what the balance moves, the summary's current balance moves with the balance |
| `Transactions.TransactionSummaryByUserAsWritten` | app/routers/transactions.py:139-165 | as written: NotFound for an unknown user, an all-zero summary for a user without wallets, and for every other known user no summary: the handler returns `None`, which is sent as the JSON `null` with status 200 |
| `Transactions.TransactionSummaryByUser` | app/routers/transactions.py:153-198 | as intended: NotFound exactly for an unknown user; otherwise the credit and debit SUMs over all the user's wallets, all zero when the user owns none, and a current balance that is their signed logged total |
| `Transactions.UserSummaryAsWrittenLosesTotals` | app/routers/transactions.py:149-166 | a user who owns one wallet holding a credit of 500 gets `null` from the handler as written, and the summary (500, 0, 500) from the corrected one |
| `Transactions.UserSummaryAsWrittenDiffers` | app/routers/transactions.py:149-166 | for every known user who owns a wallet, the handler as written returns no summary while the corrected one returns one |
| `Transactions.OwnedWalletIds` | app/routers/transactions.py:175-176 | the ids of the user's wallets: exactly the stored wallets whose owner is the user |
| `Transactions.WalletRows` | app/routers/transactions.py:182 | the rows of the given wallets: exactly the log rows whose wallet is in the set, never more rows than the log, and empty exactly when no row matches |
| `Transactions.WalletRowsAppend` | app/routers/transactions.py:182-183 | filtering distributes over appending, so later rows never move or change rows already listed |
| `Transactions.Page` | app/routers/transactions.py:183 | OFFSET/LIMIT returns `min(limit, max(0, n - skip))` rows, and its i-th row is row `skip + i` |
| `Transactions.AdjacentPages` | app/routers/transactions.py:188-191 | the page at `skip` followed by the page at `skip + limit` is the page spanning both, so no row is skipped and none is listed twice |
| `Transactions.RowOnItsPage` | app/routers/transactions.py:188-191 | with pages of size `limit`, row i is at position `i % limit` of the page starting at `(i / limit) * limit` |
| `Transactions.PageStableUnderAppend` | app/routers/transactions.py:188-191 | appending to the log leaves every page the old log already filled unchanged |
| `Transactions.DefaultPageIsFirstRows` | app/routers/transactions.py:169 | with the default `skip = 0` and `limit = 100`, a listing is the first 100 rows, or all of them when there are fewer |
| `Transactions.GetWalletTransactions` | app/routers/transactions.py:19-24 | NotFound exactly when no row belongs to the wallet, whether or not the wallet exists; otherwise a non-empty list of exactly that wallet's rows |
| `Transactions.GetTransactionsByWallet` | app/routers/transactions.py:29-36 | NotFound exactly when the wallet is absent; otherwise exactly the wallet's rows, possibly none |
| `Transactions.WalletListingsDisagreeOnEmptyWallet` | app/routers/transactions.py:19-36 | for an existing wallet with no rows, one listing says NotFound and the other returns an empty list |
| `Transactions.GetAllTransactionsByUser` | app/routers/transactions.py:38-53 | NotFound exactly for an unknown user; an empty list for a user without wallets; otherwise exactly the rows of the user's wallets |
| `Transactions.GetTransactionsByUser` | app/routers/transactions.py:168-185 | NotFound exactly for an unknown user; otherwise the slice at `skip` of the rows of the user's wallets, of length `min(limit, max(0, n - skip))` |
| `Transactions.GetTransactions` | app/routers/transactions.py:188-191 | a page of the whole log: `min(limit, max(0, n - skip))` rows starting at row `skip` |
| `Transactions.GetTransaction` | app/routers/transactions.py:57-62 | a log row carrying the requested id, or NotFound exactly when no row carries it |
| `Transactions.GetTransactionStableUnderAppend` | app/routers/transactions.py:57-62 | once an id is found, later appends never change what it looks up to |
| `Points.EarnPoints` | app/routers/points.py:18-38 | NotFound exactly for an unknown user, and then nothing changes; otherwise exactly one row `(user, activity, no details, 10)` is appended, the reported total is the old total + 10 and is the new SUM, and every other user's total is unchanged |
| `Points.RedeemPoints` | app/routers/points.py:42-63 | NotFound for an unknown user; InsufficientPoints exactly when the current total is below `points`; either failure changes nothing; success is exactly the case where neither holds, and then one row `(user, "redeem", no details, -points)` is appended and the reported remainder is the old total − `points`, the new SUM, and ≥ 0; no other user's total moves |
| `Points.GetPointsBalance` | app/routers/points.py:67-74 | NotFound exactly for an unknown user; otherwise the SUM of the user's point deltas, which is 0 when there are none |
| `Points.PointsBalanceNonNegative` | app/routers/points.py:48-51 | in a database the handlers keep, every known user's points balance is ≥ 0 |
| `Scenarios.FundTwice` | app/routers/wallets.py:36-54 | a new wallet funded with 100 and then 50 holds 150, has gained two rows, and its summary is (150, 0, 150) |
| `Scenarios.TransferBetweenTwoWallets` | app/routers/transactions.py:76-109 | with A = 100 and B = 0, a transfer of 50 leaves 50 in each, the last two rows are a debit on A and a credit on B, and a further transfer of 51 fails with InsufficientFunds |
| `Scenarios.EarnEarnRedeem` | app/routers/points.py:18-63 | a user without points cannot redeem 10; after two earns, a redemption of 12 leaves 8 |

## Findings

| source | as written | input that shows it | evidently intended | confidence | as-written member | corrected member |
|---|---|---|---|---|---|---|
| app/routers/transactions.py:153-198 | `transaction_summary_by_user` computes the totals and then ends without a return. Its return statement (lines 193-198) sits after `return transactions` in the next handler and is never reached | user 7 owns wallet 1, which has one credit row of 500; the handler returns `None`, sent as the JSON `null` with status 200, instead of a summary | return user_id, total_credits, total_debits and current_balance over the user's wallets | high (not executed) | `Transactions.UserSummaryAsWrittenLosesTotals` | `Transactions.TransactionSummaryByUser` |

## Left out

- HTTP and app wiring are not modelled: routing, `Depends(get_db)`, status codes and CORS. Errors are the values of `Results.Error`.
- Sessions, `commit`/`refresh`, table creation and the connection check are not modelled. Each handler is one atomic state change.
- Concurrency and locking are not modelled. The code has no locking, so everything runs one step at a time.
- Money is integer minor units. The `Float` columns' rounding is not modelled.
- app/routers/users.py, app/schemas.py and app/seed_data.py are not part of this model. Registration and login rely on bcrypt hashing, schemas only define request and response shapes, and the seed script is a fixture. Users appear only as a set of ids given to the `Database` constructor.
- The Vendor, Tour and TourTransaction tables are not part of this model, because no handler in the core reads or writes them.
- Timestamps are not modelled. No query has ORDER BY, so the database's row order is unspecified. Listings use the order the rows were logged.
- The handlers that return fixed messages are not modelled (app/routers/transactions.py:14-16, app/routers/points.py:13-15, app/routers/wallets.py:12-14).
- The NOT NULL constraint on `transaction_category` (app/models.py:63) is not enforced. The handlers never set the column. Enforcing it would make every fund and transfer fail at commit, so the model records the category as absent.
- Negative `skip` or `limit` are not modelled (both are `nat`). What a negative OFFSET or LIMIT does depends on the SQL dialect.
- The currency default "GHS" (app/models.py:42) is not modelled, because `create_wallet` always passes a currency.
- Wallet and transaction ids come from counters that move only when a step succeeds. A database sequence may skip values after a rolled-back commit. Lookups go by the id field, so this changes no result.
- Points rows have no id, because no handler looks one up.
