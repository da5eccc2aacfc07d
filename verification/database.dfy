/** The abstract in-memory database the repository works on: the `users`,
    `products`, `purchases` and `transfers` tables, plus the set of statements
    that fail in a given call (the database driver's failures, as an input). */
module Database {

  /** A `users` row: the coin balance and the stored (plaintext) password. */
  datatype User = User(balance: int, password: string)

  /** A `purchases` row. */
  datatype Purchase = Purchase(username: string, item: string)

  /** A `transfers` row. */
  datatype Transfer = Transfer(sender: string, receiver: string, amount: int)

  /** The whole database. `prices` is the static `products` table; `purchases`
      and `transfers` only ever grow at the end; `newUserBalance` is the default
      of the `balance` column, which a freshly registered user starts with. */
  datatype Store = Store(
    users: map<string, User>,
    prices: map<string, int>,
    purchases: seq<Purchase>,
    transfers: seq<Transfer>,
    newUserBalance: int)

  /** Every SQL statement the repository issues that the driver may reject.
      A call is given the set of statements that fail in it. */
  datatype Statement =
    | Begin
    | SelectPrice | SelectBuyerBalance | DebitBuyer | InsertPurchase
    | SelectSenderBalance | DebitSender | SelectRecipientBalance | CreditRecipient | InsertTransfer
    | SelectPassword | InsertUser
    | SelectCoins | SelectInventory | SelectSent | SelectReceived

  type Faults = set<Statement>

  /** The `UPDATE users SET balance = b WHERE username = u` of a transaction. */
  function SetBalance(s: Store, u: string, b: int): (s': Store)
    requires u in s.users
    ensures s'.users.Keys == s.users.Keys
    ensures s'.users[u] == User(b, s.users[u].password)
    ensures forall v :: v in s.users && v != u ==> s'.users[v] == s.users[v]
    ensures s'.prices == s.prices && s'.purchases == s.purchases && s'.transfers == s.transfers
    ensures s'.newUserBalance == s.newUserBalance
  {
    s.(users := s.users[u := s.users[u].(balance := b)])
  }

  /** No user is in debt. */
  predicate AllNonNegative(s: Store)
  {
    forall u :: u in s.users ==> s.users[u].balance >= 0
  }

  /** Referential integrity of the history tables: every purchase names an
      existing user and product, every transfer two existing users. */
  predicate WellFormed(s: Store)
  {
    && (forall i :: 0 <= i < |s.purchases| ==> s.purchases[i].username in s.users && s.purchases[i].item in s.prices)
    && (forall i :: 0 <= i < |s.transfers| ==> s.transfers[i].sender in s.users && s.transfers[i].receiver in s.users)
  }
}
