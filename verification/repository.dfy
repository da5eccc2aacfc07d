/** The shop repository (repository/entity_repository.go) as pure state
    transitions over `Database.Store`. A transactional method works on a
    working copy of the store; its deferred handler then keeps the working copy
    (commit) when no error was recorded, and otherwise returns the original
    store (rollback). Commit itself cannot fail in this model: in the source a
    failed `Commit` is lost anyway, because `err` is not a named result. */
module Repository {
  import opened Wrappers
  import opened Entities
  import opened Errors
  import opened Database
  import opened Projections

  /** The store a call leaves behind, and what it returns. */
  datatype Effect<T> = Effect(store: Store, out: T)

  /** The repository's `(bool, error)` answer to `Auth`. */
  datatype AuthReply = AuthReply(matched: bool, err: Option<Error>)

  /** The deferred commit-or-rollback of a transaction that started on `original`
      and ended with `body`. */
  function Settle(original: Store, body: Effect<Option<Error>>): (r: Effect<Option<Error>>)
    ensures r.out == body.out
    ensures r.out.Some? ==> r.store == original
    ensures r.out.None? ==> r.store == body.store
  {
    if body.out.Some? then Effect(original, body.out) else body
  }

  /** The statements of `BuyItem` run inside the transaction, on working copy `s`. */
  function BuyItemBody(s: Store, faults: Faults, username: string, item: string): Effect<Option<Error>>
  {
    if SelectPrice in faults then Effect(s, Some(PriceFetchFailed(DriverFault)))
    else if item !in s.prices then Effect(s, Some(PriceFetchFailed(NoRows)))
    else
      var price := s.prices[item];
      if SelectBuyerBalance in faults then Effect(s, Some(BalanceFetchFailed(DriverFault)))
      else if username !in s.users then Effect(s, Some(BalanceFetchFailed(NoRows)))
      else
        var balance := s.users[username].balance;
        // The source returns here without setting `err`, so the deferred handler
        // commits an empty transaction: no write has happened, nothing is kept.
        if balance < price then Effect(s, Some(NotEnoughBalanceToBuy))
        else if DebitBuyer in faults then Effect(s, Some(BalanceUpdateFailed))
        else
          var debited := SetBalance(s, username, balance - price);
          if InsertPurchase in faults then Effect(debited, Some(PurchaseInsertFailed))
          else Effect(debited.(purchases := debited.purchases + [Purchase(username, item)]), None)
  }

  /** `BuyItem`: debit the product's price from the buyer and record the purchase,
      all or nothing. */
  function BuyItem(s: Store, faults: Faults, username: string, item: string): (r: Effect<Option<Error>>)
    ensures r.out.None? <==>
      && Begin !in faults && SelectPrice !in faults && SelectBuyerBalance !in faults
      && DebitBuyer !in faults && InsertPurchase !in faults
      && item in s.prices && username in s.users
      && s.users[username].balance >= s.prices[item]
    ensures r.out.Some? ==> r.store == s
    ensures r.out.None? ==>
      && r.store.users.Keys == s.users.Keys
      && r.store.users[username] == User(s.users[username].balance - s.prices[item], s.users[username].password)
      && (forall v :: v in s.users && v != username ==> r.store.users[v] == s.users[v])
      && r.store.purchases == s.purchases + [Purchase(username, item)]
      && r.store.transfers == s.transfers
      && r.store.prices == s.prices
      && r.store.newUserBalance == s.newUserBalance
  {
    if Begin in faults then Effect(s, Some(BeginFailed))
    else Settle(s, BuyItemBody(s, faults, username, item))
  }

  /** The statements of `SendCoin` run inside the transaction, on working copy `s`.
      The recipient's balance is read after the sender's debit was written, so a
      transfer to oneself reads back its own debit. */
  function SendCoinBody(s: Store, faults: Faults, sender: string, recipient: string, amount: int): Effect<Option<Error>>
  {
    if SelectSenderBalance in faults then Effect(s, Some(SenderBalanceFetchFailed(DriverFault)))
    else if sender !in s.users then Effect(s, Some(SenderBalanceFetchFailed(NoRows)))
    else
      var senderBalance := s.users[sender].balance;
      if senderBalance < amount then Effect(s, Some(NotEnoughBalanceForTransfer))
      else if DebitSender in faults then Effect(s, Some(SenderUpdateFailed))
      else
        var debited := SetBalance(s, sender, senderBalance - amount);
        if SelectRecipientBalance in faults then Effect(debited, Some(ReceiverBalanceFetchFailed(DriverFault)))
        else if recipient !in debited.users then Effect(debited, Some(ReceiverBalanceFetchFailed(NoRows)))
        else
          var receiverBalance := debited.users[recipient].balance;
          if CreditRecipient in faults then Effect(debited, Some(ReceiverUpdateFailed))
          else
            var credited := SetBalance(debited, recipient, receiverBalance + amount);
            if InsertTransfer in faults then Effect(credited, Some(TransferInsertFailed))
            else Effect(credited.(transfers := credited.transfers + [Transfer(sender, recipient, amount)]), None)
  }

  /** `SendCoin`: debit the sender, credit the recipient and record the transfer,
      all or nothing. The repository does not look at the sign of `amount`. */
  function SendCoin(s: Store, faults: Faults, sender: string, recipient: string, amount: int): (r: Effect<Option<Error>>)
    ensures r.out.None? <==>
      && Begin !in faults && SelectSenderBalance !in faults && DebitSender !in faults
      && SelectRecipientBalance !in faults && CreditRecipient !in faults && InsertTransfer !in faults
      && sender in s.users && recipient in s.users
      && s.users[sender].balance >= amount
    ensures r.out.Some? ==> r.store == s
    ensures r.out.None? ==>
      && r.store.users.Keys == s.users.Keys
      && (forall v :: v in s.users && v != sender && v != recipient ==> r.store.users[v] == s.users[v])
      && r.store.users[sender].password == s.users[sender].password
      && r.store.users[recipient].password == s.users[recipient].password
      && r.store.transfers == s.transfers + [Transfer(sender, recipient, amount)]
      && r.store.purchases == s.purchases
      && r.store.prices == s.prices
      && r.store.newUserBalance == s.newUserBalance
    ensures r.out.None? && sender != recipient ==>
      && r.store.users[sender].balance == s.users[sender].balance - amount
      && r.store.users[recipient].balance == s.users[recipient].balance + amount
    ensures r.out.None? && sender == recipient ==>
      r.store.users[sender] == s.users[sender]
  {
    if Begin in faults then Effect(s, Some(BeginFailed))
    else Settle(s, SendCoinBody(s, faults, sender, recipient, amount))
  }

  /** `Auth`: log in an existing user by exact password comparison, or register
      an unknown one with the supplied password. Not transactional: a single
      `INSERT` is the only write. */
  function Auth(s: Store, faults: Faults, username: string, password: string): (r: Effect<AuthReply>)
    ensures r.out.err.Some? ==> !r.out.matched && r.store == s
    ensures SelectPassword !in faults && username in s.users ==>
      r.store == s && r.out == AuthReply(s.users[username].password == password, None)
    ensures SelectPassword !in faults && username !in s.users && InsertUser !in faults ==>
      && r.out == AuthReply(true, None)
      && r.store.users == s.users[username := User(s.newUserBalance, password)]
      && r.store.prices == s.prices && r.store.purchases == s.purchases && r.store.transfers == s.transfers
      && r.store.newUserBalance == s.newUserBalance
    ensures r.out.matched ==> username in r.store.users && r.store.users[username].password == password
    ensures r.out.err.Some? <==> SelectPassword in faults || (username !in s.users && InsertUser in faults)
  {
    if SelectPassword in faults then Effect(s, AuthReply(false, Some(PasswordFetchFailed)))
    else if username in s.users then Effect(s, AuthReply(s.users[username].password == password, None))
    else if InsertUser in faults then Effect(s, AuthReply(false, Some(UserInsertFailed)))
    else Effect(s.(users := s.users[username := User(s.newUserBalance, password)]), AuthReply(true, None))
  }

  /** `GetUserInventory`: the user's purchases joined with `products` and grouped
      by product name. An unknown user simply has no purchases. */
  function GetUserInventory(s: Store, faults: Faults, username: string): (r: Result<seq<ItemResponse>, Error>)
    ensures r.Failure? <==> SelectInventory in faults
    ensures r.Failure? ==> r.error == InventoryQueryFailed
    ensures r.Success? ==>
      && DistinctTypes(r.value)
      && (forall i :: 0 <= i < |r.value| ==> r.value[i].itemType in s.prices)
      && (forall i :: 0 <= i < |r.value| ==> r.value[i].quantity == Bought(s.purchases, username, r.value[i].itemType))
      && (forall i :: 0 <= i < |r.value| ==> r.value[i].quantity > 0)
      && (forall x :: x in s.prices && Bought(s.purchases, username, x) > 0 ==> x in Types(r.value))
  {
    if SelectInventory in faults then Failure(InventoryQueryFailed)
    else
      var items := PurchasedItems(s.purchases, username, s.prices);
      var inv := Tally(items);
      assert forall x :: x in items <==> multiset(items)[x] > 0;
      Success(inv)
  }

  /** `GetUserTransactions`: the transfers the user sent and received. */
  function GetUserTransactions(s: Store, faults: Faults, username: string): (r: Result<(seq<SentResponse>, seq<ReceivedResponse>), Error>)
    ensures r.Failure? <==> SelectSent in faults || SelectReceived in faults
    ensures r.Failure? ==> r.error == TransactionsQueryFailed
    ensures r.Success? ==>
      && (forall e :: e in r.value.0 <==>
            exists t :: t in s.transfers && t.sender == username && e == SentResponse(t.receiver, t.amount))
      && (forall e :: e in r.value.1 <==>
            exists t :: t in s.transfers && t.receiver == username && e == ReceivedResponse(t.sender, t.amount))
      && (forall e :: multiset(r.value.0)[e] == SentCount(s.transfers, username, e))
      && (forall e :: multiset(r.value.1)[e] == ReceivedCount(s.transfers, username, e))
  {
    if SelectSent in faults || SelectReceived in faults then Failure(TransactionsQueryFailed)
    else Success((SentBy(s.transfers, username), ReceivedBy(s.transfers, username)))
  }

  /** `GetInfo`: balance, inventory and coin history of one user; read-only. */
  function GetInfo(s: Store, faults: Faults, username: string): (r: Result<InfoResponse, Error>)
    ensures r.Success? <==>
      SelectCoins !in faults && SelectInventory !in faults && SelectSent !in faults && SelectReceived !in faults
      && username in s.users
    ensures SelectCoins !in faults && username !in s.users ==> r == Failure(UserNotFound)
    ensures r.Success? ==>
      && username in s.users
      && r.value.coins == s.users[username].balance
      && DistinctTypes(r.value.inventory)
      && (forall i :: 0 <= i < |r.value.inventory| ==> r.value.inventory[i].itemType in s.prices)
      && (forall i :: 0 <= i < |r.value.inventory| ==>
            r.value.inventory[i].quantity == Bought(s.purchases, username, r.value.inventory[i].itemType))
      && (forall i :: 0 <= i < |r.value.inventory| ==> r.value.inventory[i].quantity > 0)
      && (forall x :: x in s.prices && Bought(s.purchases, username, x) > 0 ==> x in Types(r.value.inventory))
      && r.value.coinHistory.sent == SentBy(s.transfers, username)
      && r.value.coinHistory.received == ReceivedBy(s.transfers, username)
  {
    if SelectCoins in faults then Failure(BalanceQueryFailed)
    else if username !in s.users then Failure(UserNotFound)
    else
      var inventory := GetUserInventory(s, faults, username);
      if inventory.Failure? then Failure(UserInventoryFailed(inventory.error))
      else
        var history := GetUserTransactions(s, faults, username);
        if history.Failure? then Failure(UserTransactionsFailed(history.error))
        else
          var (sent, received) := history.value;
          Success(InfoResponse(s.users[username].balance, inventory.value, CoinHistoryResponse(received, sent)))
  }
}
