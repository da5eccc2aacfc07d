/** The errors the repository and the use-case layer return. Each constructor
    stands for one `fmt.Errorf` (or returned driver error) site of the source;
    the text of the Go message is not modelled, only which site produced it. */
module Errors {

  /** Why a single-row `SELECT ... Scan` failed: no such row, or any other driver failure. */
  datatype Cause = NoRows | DriverFault

  datatype Error =
    // BuyItem and SendCoin
    | BeginFailed
    // BuyItem
    | PriceFetchFailed(cause: Cause)
    | BalanceFetchFailed(cause: Cause)
    | NotEnoughBalanceToBuy
    | BalanceUpdateFailed
    | PurchaseInsertFailed
    // SendCoin
    | SenderBalanceFetchFailed(cause: Cause)
    | NotEnoughBalanceForTransfer
    | SenderUpdateFailed
    | ReceiverBalanceFetchFailed(cause: Cause)
    | ReceiverUpdateFailed
    | TransferInsertFailed
    // Auth (the raw driver error is returned unwrapped)
    | PasswordFetchFailed
    | UserInsertFailed
    // GetUserInventory, GetUserTransactions and GetInfo
    | InventoryQueryFailed
    | TransactionsQueryFailed
    | UserNotFound
    | BalanceQueryFailed
    | UserInventoryFailed(inner: Error)
    | UserTransactionsFailed(inner: Error)
    // produced only by the use-case layer, never by the repository
    | PasswordsDoNotMatch
}
