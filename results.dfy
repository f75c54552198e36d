/** Outcomes of the ledger's handlers: a value, or the error the handler raises. */
module Results {

  datatype Option<+T> = None | Some(value: T)

  /** The errors the routers raise, without their HTTP status codes.
      BalanceCheckViolated is the database refusing a commit that would
      break the `balance >= 0` check constraint on wallets;
      ForeignKeyViolated is the database refusing a wallet whose user does
      not exist. */
  datatype Error =
    | NotFound
    | SameWallet
    | InsufficientFunds
    | InsufficientPoints
    | BalanceCheckViolated
    | ForeignKeyViolated

  datatype Result<+T> = Ok(value: T) | Err(error: Error)
}
