# Coin shop core, modelled in Dafny

This project models the domain logic of `ttavito2025winter`, a Go HTTP service for a small "coin shop". Users log in, or register on their first login. They spend coins on products, send coins to each other, and read their balance, inventory and coin history. Each request passes a chain of HTTP middleware first.

The model has four layers, one module each, following the source's packages:

- `Database` (`database.dfy`): the store. It holds `users` (balance and plaintext password), the static `products` price table, and the append-only `purchases` and `transfers` tables. It also holds `newUserBalance`, the column default a registered user starts with. That default is set in the database schema, which is not part of this model, so it is a field of the store.
- `Repository` (`repository.dfy`) and `Projections` (`projections.dfy`): `BuyItem`, `SendCoin`, `Auth`, `GetInfo`, `GetUserInventory` and `GetUserTransactions` as pure functions over the store.
  - A transactional operation runs on a working copy. `Settle` then keeps the copy (commit) or returns the original store (rollback), like the source's deferred handler.
  - Driver failures are an input: `faults` names the SQL statements that fail in a call. A failing statement drives the error branch the source takes when that statement returns an error, so every rollback path is modelled. Failures while reading result rows are not covered; see "## Left out".
- `Ledger` (`ledger.dfy`): properties across operations.
  - Coin conservation, over a total defined on the whole user map.
  - Purchases burn exactly the price.
  - An accounting invariant: each balance equals the registration grant, minus purchases and coins sent, plus coins received. Every operation preserves it, whatever fails.
  - Non-negativity, the send-back round trip, rollback of a half-done transfer, and what each success adds to the inventory and history views.
- `Usecase` (`usecase.dfy`): the pass-through adapter. It also collapses every unsuccessful `Auth` answer into the single error `PasswordsDoNotMatch`.
- `Middleware` (`middleware.dfy`) and `Routes` (`routes.dfy`):
  - Each middleware is a pure check that either rejects with a status or forwards a request, possibly with a new context value.
  - `ChainMiddleware` is the source's backwards loop, proved equal to the nesting in which the first middleware is outermost.
  - Each of the four routes is proved to behave as an explicit decision pipeline.
  - `SetupRoutes` builds all four routes and states their behaviour.

Facts of the code worth knowing before reading the model:
- Passwords are stored in the `users` table as given and compared with exact string equality (repository/entity_repository.go:142-147, :153-156). There is no hashing and no constant-time comparison.
- Registration inserts only the username and password (repository/entity_repository.go:153-156), so a new user's starting balance is whatever the schema's column default is.
- `amount > 0` is checked only by the `/api/sendCoin` middleware, not by the repository. `Ledger.NegativeAmountOverdrawsRecipient` shows the repository alone accepting a negative amount. `Routes.GatedTransferKeepsNonNegative` shows the route never lets one through.
- `SendCoin` reads and writes the two balance rows in sender-then-recipient order, with no row locks taken.

## Model

| member | source | states |
|---|---|---|
| `Repository.Settle` | repository/entity_repository.go:35-45 | The deferred handler: with an error recorded the original store is returned (rollback), otherwise the transaction's working store (commit); the error passes through |
| `Repository.BuyItem` | repository/entity_repository.go:28-90 | Succeeds iff no statement fails, the product and the user exist and balance >= price; on success only the buyer's balance changes, by exactly -price, and exactly one (user, item) purchase is appended; on any error the store is unchanged |
| `Repository.SendCoin` | repository/entity_repository.go:166-240 | Succeeds iff no statement fails, sender and recipient exist and sender balance >= amount; on success sender -amount and recipient +amount (unchanged when they are the same user), nobody else changes, one (sender, recipient, amount) transfer appended; any error leaves the store unchanged, including the already-written debit |
| `Repository.Auth` | repository/entity_repository.go:125-164 | Existing user: matched iff the supplied password equals the stored one exactly, store unchanged; unknown user: inserted with the supplied password and the default balance, answer (true, nil); an error occurs iff the password lookup fails with a driver error, or the user is unknown and the insert fails, and then the answer is false and nothing changes |
| `Repository.GetUserInventory` | repository/entity_repository.go:242-267 | One line per purchased product that exists in products, no product twice, each quantity equal to that user's purchase count of it and positive; fails only when the query fails |
| `Repository.GetUserTransactions` | repository/entity_repository.go:269-314 | An entry is in `sent` iff some transfer row has the user as sender with that receiver and amount, and likewise `received` for rows with the user as receiver; each entry occurs exactly as often as there are such rows (no aggregation); fails only when a query fails |
| `Repository.GetInfo` | repository/entity_repository.go:92-123 | Unknown user gives UserNotFound; success iff the user exists and no query fails; coins is the stored balance; the inventory has distinct lines, each naming an existing product with a positive quantity equal to the purchase count, and covers every purchased product; sent/received are the per-row histories |
| `Projections.PurchasedItems` | repository/entity_repository.go:243-249 | The user's purchased product names joined with products: each name occurs exactly as often as the user bought it, and names missing from products do not occur |
| `Projections.Tally` | repository/entity_repository.go:243-249 | GROUP BY with COUNT: distinct lines, the set of names equals the set of input names, each quantity is the number of occurrences and is positive |
| `Projections.SentBy` | repository/entity_repository.go:270-290 | Every entry comes from a transfer row sent by the user and every such row yields an entry; each entry occurs exactly as often as there are matching rows, counted independently, so one entry per row, not aggregated; never longer than the table |
| `Projections.ReceivedBy` | repository/entity_repository.go:292-311 | Every entry comes from a transfer row received by the user and every such row yields an entry; each entry occurs exactly as often as there are matching rows, counted independently, so one entry per row, not aggregated; never longer than the table |
| `Ledger.SendCoinConservesCoins` | repository/entity_repository.go:195-228 | The sum of all balances is the same after any SendCoin call, successful or failed, to oneself or not |
| `Ledger.BuyItemBurnsPrice` | repository/entity_repository.go:67-78 | A successful purchase lowers the sum of all balances by exactly the price; a failed one leaves it unchanged |
| `Ledger.AuthGrantsOpeningBalance` | repository/entity_repository.go:153-163 | The sum of all balances rises by exactly the column default when Auth succeeds for an unknown user (registration), and is unchanged by a login or a failed call |
| `Ledger.AuthKeepsNonNegative` | repository/entity_repository.go:153-163 | If no balance was negative and the column default is not negative, none is after Auth |
| `Ledger.AuthKeepsConsistent` | repository/entity_repository.go:153-163 | Registration keeps every balance accounted for by the history tables: the new user has no history and starts at the default balance |
| `Ledger.BuyItemKeepsConsistent` | repository/entity_repository.go:71-87 | Every committed purchase row comes with a debit of exactly the product's price, so balance + spent + sent - received stays the registration grant for every user and history rows keep naming existing users and products |
| `Ledger.SendCoinKeepsConsistent` | repository/entity_repository.go:200-237 | Every committed transfer row comes with the matching debit and credit, so the accounting identity and referential integrity survive any SendCoin call |
| `Ledger.BuyItemKeepsNonNegative` | repository/entity_repository.go:67-76 | If no balance was negative, none is after BuyItem |
| `Ledger.SendCoinKeepsNonNegative` | repository/entity_repository.go:195-225 | If no balance was negative and amount >= 0, none is after SendCoin |
| `Ledger.NegativeAmountOverdrawsRecipient` | repository/entity_repository.go:195-225 | Counterexample: the repository accepts amount -5 between two users at 0 and leaves the recipient at -5 |
| `Ledger.SelfTransferKeepsBalances` | repository/entity_repository.go:200-237 | A successful transfer to oneself leaves every balance as it was (the second read sees the first write) and still appends the transfer row |
| `Ledger.UnknownRecipientRollsBack` | repository/entity_repository.go:172-219 | With a missing recipient the transaction has already debited the sender when the lookup fails, and the call returns the original store with the receiver-lookup error |
| `Ledger.SendBackRestoresBalances` | repository/entity_repository.go:166-240 | Sending n from a to b and then n from b to a both succeed and restore every balance, with two transfer rows appended |
| `Ledger.BuyItemAddsToInventory` | repository/entity_repository.go:80-87 | After a successful purchase the buyer's count of that product is one higher and every other count is unchanged |
| `Ledger.SendCoinAddsToHistory` | repository/entity_repository.go:230-236 | After a successful transfer the sender's sent list and the recipient's received list each end with the one new entry; every other list is unchanged |
| `Ledger.InfoListsPurchases` | repository/entity_repository.go:110-114 | For an existing user, GetInfo with no failing query succeeds and has a line (product, purchase count) for every existing product the user bought |
| `Ledger.PurchaseShowsInInfo` | repository/entity_repository.go:242-249 | After a successful BuyItem, the buyer's GetInfo lists that product with its count one higher than before (quantity 1 for a first purchase) |
| `Usecase.AuthVerdict` | usecase/usecase.go:25-29 | Success iff the repository answered (true, nil); every other answer becomes PasswordsDoNotMatch |
| `Usecase.Auth` | usecase/usecase.go:24-30 | Keeps the repository's store effect; succeeds iff the repository answered (true, nil); otherwise the single PasswordsDoNotMatch error, the repository's own error discarded |
| `Usecase.GetInfo` | usecase/usecase.go:14-16 | Returns exactly the repository's result or error |
| `Usecase.BuyItem` | usecase/usecase.go:17-19 | Returns exactly the repository's error and store effect |
| `Usecase.SendCoin` | usecase/usecase.go:21-23 | Returns exactly the repository's error and store effect |
| `Usecase.AuthFailuresAreIndistinguishable` | usecase/usecase.go:26-27 | A wrong password, an unknown-user error and a driver error all yield the same error value |
| `Usecase.FirstAuthRegisters` | usecase/usecase.go:24-30 | A first Auth for an unseen username succeeds and registers it; afterwards the same password succeeds and a different one fails, neither changing the store |
| `Middleware.MethodCheck` | internal/middleware.go:33-53 | Forwards the request unchanged iff its method is the allowed one (GET or POST); otherwise 405 "Method not allowed" |
| `Middleware.BearerToken` | internal/middleware.go:57-63 | A token exists iff the header starts with "Bearer " (so never for an empty header), and prefix + token is the header |
| `Middleware.BearerTokenRoundTrip` | internal/middleware.go:58-63 | Parsing "Bearer " + t gives back t |
| `Middleware.AuthCheck` | internal/middleware.go:55-74 | 401 "Unauthorized" without a bearer token; forwards iff the validator reports no error and a non-empty username, adding exactly that username to the context; every rejection is 401 |
| `Middleware.SendCoinCheck` | internal/middleware.go:76-94 | Forwards iff the body decodes with a non-empty toUser and amount > 0, adding the decoded request unchanged to the context; otherwise 400 |
| `Middleware.BuyItemCheck` | internal/middleware.go:96-108 | Forwards iff the item path value is non-empty, adding it to the context; otherwise 400 "Invalid input data" |
| `Middleware.AuthRequestCheck` | internal/middleware.go:110-128 | Forwards iff the body decodes with non-empty username and password, adding the decoded request unchanged to the context; otherwise 400 |
| `Middleware.ChainMiddleware` | internal/middleware.go:24-31 | The backwards loop yields the nesting with the first middleware outermost; with no middleware it is the handler itself |
| `Routes.BuyItemPipeline` | delivery/http/http.go:20-25 | Non-GET gets 405 before any token check; then a missing or bad token gets the AuthCheck 401; then an empty item gets 400; the handler is reached iff all pass, with username and item in the context |
| `Routes.AuthPipeline` | delivery/http/http.go:27-31 | Non-POST gets 405; otherwise the credential check alone decides; no token is involved |
| `Routes.SendCoinPipeline` | delivery/http/http.go:33-38 | Non-POST gets 405; an invalid body gets 400 whatever the header; with a valid body, the token check's own rejection decides (401 "Unauthorized" without a bearer token, 401 "Invalid token" for a token the validator rejects); a forwarded request is the original one with only the decoded body and the token's username added to its context, so the handler only ever sees a non-empty recipient and a positive amount |
| `Routes.InfoPipeline` | delivery/http/http.go:40-44 | Non-GET gets 405; otherwise the token check alone decides; no body is looked at |
| `Routes.BuyItemChainIsPipeline` | delivery/http/http.go:20-25 | The middleware chain GetMethod, Auth, ValidateBuyItem around a handler answers every request as BuyItemPipeline says |
| `Routes.AuthChainIsPipeline` | delivery/http/http.go:27-31 | The chain PostMethod, ValdateAuthRequest answers every request as AuthPipeline says |
| `Routes.SendCoinChainIsPipeline` | delivery/http/http.go:33-38 | The chain PostMethod, ValidateSendCoin, Auth answers every request as SendCoinPipeline says |
| `Routes.InfoChainIsPipeline` | delivery/http/http.go:40-44 | The chain GetMethod, Auth answers every request as InfoPipeline says |
| `Routes.SetupRoutes` | delivery/http/http.go:18-50 | The four registered handlers answer every request as their decision pipelines say |
| `Routes.GatedTransferKeepsNonNegative` | delivery/http/http.go:33-38 | Any transfer the sendCoin route forwards keeps every balance non-negative, because the route only forwards positive amounts |

## Left out

- SQL text, the query builder, row scanning and transaction begin/commit mechanics. A transaction is "keep the working store or return the original one"; each statement's driver failure is the `faults` input.
- Commit failures. In both `BuyItem` and `SendCoin` the error of `Commit` is assigned to a local that is not the returned result, so a failed commit still reports success. An in-memory store cannot fail to commit, so this is not modelled.
- The insufficient-balance branch of `BuyItem` returns without setting `err`, so its deferred handler commits an empty transaction instead of rolling back. Nothing has been written at that point, so the store is unchanged either way, which is what the model returns.
- Concurrency: lost updates between concurrent `BuyItem`/`SendCoin` calls, isolation levels and lock ordering.
- Integer width: balances and amounts are unbounded integers. `BuyItem`'s debit is computed by the database (`balance - ?`, repository/entity_repository.go:72), where an out-of-range result is a rejected statement, one of the driver failures `faults` covers. `SendCoin` instead computes `senderBalance-amount` and `receiverBalance+amount` in Go's 64-bit `int` (repository/entity_repository.go:201, :222), which wraps silently. A direct repository call with `amount` = -2^63 and a sender at 0 passes the balance check and writes -2^63 in the source, while the model writes 2^63. Over HTTP the `/api/sendCoin` route forwards only `amount > 0`, so the sender's debit cannot wrap there; the recipient's credit can wrap only for a balance within `amount` of 2^63 - 1, which the model does not bound.
- Token signing and validation (HS256, the 24-hour expiry, the secret from the environment) and token issuance on login. The validator is a function parameter. The `JWTTool` type that `AuthMiddleware` calls is not part of this model.
- JSON decoding of request bodies: a request carries each decoded record, or `None` when the body does not decode. Response encoding is also left out.
- The endpoint handlers `BuyItemHandler`, `AuthHandler`, `SendCoinHandler` and `GetInfoHandler`. They are this service's handlers in package `delivery/http`, called at delivery/http/http.go:21, 28, 34 and 41, but their definitions are not part of this model. delivery/http/handlers.go holds another service's `UsersHandler` instead. That they read the context values, call the use case and encode the reply is inferred from delivery/http/http_test.go:42-153. They are parameters of `SetupRoutes`. URL routing by the standard multiplexer is left out too; each route's pipeline is modelled separately.
- Configuration, connection-pool setup, the stale `cmd/main.go`, the constructors `NewEntityRepo`/`NewUsecase`, and all logging.
- The result order of the grouped inventory query and of the history queries is unspecified. Inventory lines follow first-purchase order. Histories follow transfer-row order.
- `Repository.GetUserTransactions`: its contract states membership and multiplicity (one entry per row) but not the order, which the source's queries leave unspecified (no ORDER BY). Row order is only stated for the entry a new transfer adds, by `Ledger.SendCoinAddsToHistory`.
- `Repository.GetUserInventory`: the source's three row-reading loops (repository/entity_repository.go:258-264, :284-290, :305-311) stop when `rows.Next()` is false and never consult `rows.Err()`. A failure while reading rows therefore returns a truncated, possibly empty, list with a nil error, and `GetInfo` succeeds with it. The model does not produce this outcome: a fault of `SelectInventory`, `SelectSent` or `SelectReceived` fails the whole query, and `GetUserInventory`, `GetUserTransactions` and `GetInfo` promise complete lists whenever they succeed. Scan failures of a single row, which the source does report as errors, are not modelled either.
- The individual middleware constructors (`GetMethodMiddleware` and the rest) carry no contracts of their own. Each one applies its check function (`MethodCheck` and the rest), and their behaviour is stated through those checks and the route pipelines.
