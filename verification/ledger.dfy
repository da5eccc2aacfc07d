/** Properties of the repository's transactions taken together: coins are
    neither created nor lost by transfers, purchases burn exactly the price,
    every balance is accounted for by the history tables, and failures leave
    no trace. */
module Ledger {
  import opened Wrappers
  import opened Entities
  import opened Errors
  import opened Database
  import opened Projections
  import opened Repository

  /** Some user of a non-empty table. */
  ghost function AnyUser(users: map<string, User>): (u: string)
    requires |users| > 0
    ensures u in users
  {
    assert users.Keys != {};
    var u :| u in users; u
  }

  /** The sum of all balances. */
  ghost function TotalCoins(users: map<string, User>): int
    decreases |users|
  {
    if |users| == 0 then 0
    else
      var u := AnyUser(users);
      assert (users - {u}).Keys == users.Keys - {u};
      users[u].balance + TotalCoins(users - {u})
  }

  /** Any one user can be taken out of the sum first. */
  lemma {:induction false} TotalCoinsRemove(m: map<string, User>, k: string)
    requires k in m
    ensures TotalCoins(m) == m[k].balance + TotalCoins(m - {k})
    decreases |m|
  {
    var u := AnyUser(m);
    assert TotalCoins(m) == m[u].balance + TotalCoins(m - {u});
    if u != k {
      assert (m - {u}).Keys == m.Keys - {u};
      assert (m - {k}).Keys == m.Keys - {k};
      TotalCoinsRemove(m - {u}, k);
      TotalCoinsRemove(m - {k}, u);
      assert m - {u} - {k} == m - {k} - {u};
    }
  }

  /** Changing one user's balance changes the sum by the difference. */
  lemma TotalCoinsUpdate(m: map<string, User>, k: string, b: int)
    requires k in m
    ensures TotalCoins(m[k := m[k].(balance := b)]) == TotalCoins(m) - m[k].balance + b
  {
    var m' := m[k := m[k].(balance := b)];
    TotalCoinsRemove(m, k);
    TotalCoinsRemove(m', k);
    assert m' - {k} == m - {k};
  }

  /** Registering a user adds their opening balance to the sum. */
  lemma TotalCoinsInsert(m: map<string, User>, k: string, user: User)
    requires k !in m
    ensures TotalCoins(m[k := user]) == TotalCoins(m) + user.balance
  {
    TotalCoinsRemove(m[k := user], k);
    assert m[k := user] - {k} == m;
  }

  /** Moving `n` coins from `a` to `b`, touching nobody else, keeps the sum. */
  lemma MoveConservesCoins(m: map<string, User>, m': map<string, User>, a: string, b: string, n: int)
    requires a in m && b in m && a != b
    requires m'.Keys == m.Keys
    requires forall v :: v in m && v != a && v != b ==> m'[v] == m[v]
    requires m'[a].balance == m[a].balance - n && m'[b].balance == m[b].balance + n
    ensures TotalCoins(m') == TotalCoins(m)
  {
    var rest := m - {a} - {b};
    var rest' := m' - {a} - {b};
    assert rest'.Keys == rest.Keys;
    assert forall v :: v in rest ==> rest'[v] == rest[v];
    assert rest' == rest;
    TotalCoinsRemove(m, a);
    assert b in m - {a} && (m - {a})[b] == m[b];
    TotalCoinsRemove(m - {a}, b);
    TotalCoinsRemove(m', a);
    assert b in m' - {a} && (m' - {a})[b] == m'[b];
    TotalCoinsRemove(m' - {a}, b);
    assert TotalCoins(m) == m[a].balance + m[b].balance + TotalCoins(rest);
    assert TotalCoins(m') == m'[a].balance + m'[b].balance + TotalCoins(rest');
  }

  /** A transfer, successful or not, to oneself or not, keeps the total number of coins. */
  lemma SendCoinConservesCoins(s: Store, faults: Faults, sender: string, recipient: string, amount: int)
    ensures TotalCoins(SendCoin(s, faults, sender, recipient, amount).store.users) == TotalCoins(s.users)
  {
    var r := SendCoin(s, faults, sender, recipient, amount);
    if r.out.None? {
      if sender == recipient {
        SelfTransferKeepsBalances(s, faults, sender, amount);
      } else {
        MoveConservesCoins(s.users, r.store.users, sender, recipient, amount);
      }
    }
  }

  /** A successful purchase removes exactly the price from circulation; a failed one nothing. */
  lemma BuyItemBurnsPrice(s: Store, faults: Faults, username: string, item: string)
    ensures var r := BuyItem(s, faults, username, item);
      TotalCoins(r.store.users) == TotalCoins(s.users) - (if r.out.None? then s.prices[item] else 0)
  {
    var r := BuyItem(s, faults, username, item);
    if r.out.None? {
      assert r.store.users == SetBalance(s, username, s.users[username].balance - s.prices[item]).users;
      TotalCoinsUpdate(s.users, username, s.users[username].balance - s.prices[item]);
    }
  }

  /** What `u` paid for their purchases (a row naming a missing product costs nothing). */
  function Spent(ps: seq<Purchase>, prices: map<string, int>, u: string): int
  {
    if |ps| == 0 then 0
    else
      var p := ps[|ps| - 1];
      Spent(ps[..|ps| - 1], prices, u) + (if p.username == u && p.item in prices then prices[p.item] else 0)
  }

  /** What `u` sent, summed over the transfer rows. */
  function SentTotal(ts: seq<Transfer>, u: string): int
  {
    if |ts| == 0 then 0
    else SentTotal(ts[..|ts| - 1], u) + (if ts[|ts| - 1].sender == u then ts[|ts| - 1].amount else 0)
  }

  /** What `u` received, summed over the transfer rows. */
  function ReceivedTotal(ts: seq<Transfer>, u: string): int
  {
    if |ts| == 0 then 0
    else ReceivedTotal(ts[..|ts| - 1], u) + (if ts[|ts| - 1].receiver == u then ts[|ts| - 1].amount else 0)
  }

  /** The balance `u` must have started with, reconstructed from the history tables. */
  function Opening(s: Store, u: string): int
    requires u in s.users
  {
    s.users[u].balance + Spent(s.purchases, s.prices, u) + SentTotal(s.transfers, u) - ReceivedTotal(s.transfers, u)
  }

  /** Every balance is the registration grant minus purchases and transfers out,
      plus transfers in; and the history tables only name existing rows. */
  predicate Consistent(s: Store)
  {
    WellFormed(s) && forall u :: u in s.users ==> Opening(s, u) == s.newUserBalance
  }

  /** A database with products but no users yet is consistent. */
  lemma EmptyIsConsistent(prices: map<string, int>, newUserBalance: int)
    ensures Consistent(Store(map[], prices, [], [], newUserBalance))
  {
  }

  /** Nothing in the history mentions a user the history's integrity rules out. */
  lemma {:induction false} UnmentionedHasNoHistory(ps: seq<Purchase>, ts: seq<Transfer>, prices: map<string, int>, u: string)
    requires forall i :: 0 <= i < |ps| ==> ps[i].username != u
    requires forall i :: 0 <= i < |ts| ==> ts[i].sender != u && ts[i].receiver != u
    ensures Spent(ps, prices, u) == 0 && SentTotal(ts, u) == 0 && ReceivedTotal(ts, u) == 0
    decreases |ps| + |ts|
  {
    if |ps| > 0 {
      UnmentionedHasNoHistory(ps[..|ps| - 1], ts, prices, u);
    } else if |ts| > 0 {
      UnmentionedHasNoHistory(ps, ts[..|ts| - 1], prices, u);
    }
  }

  /** `Auth` keeps every balance accounted for: a new user starts at the grant with no history. */
  lemma AuthKeepsConsistent(s: Store, faults: Faults, username: string, password: string)
    requires Consistent(s)
    ensures Consistent(Auth(s, faults, username, password).store)
  {
    var r := Auth(s, faults, username, password);
    if r.store != s {
      assert username !in s.users;
      UnmentionedHasNoHistory(s.purchases, s.transfers, s.prices, username);
      forall u | u in r.store.users ensures Opening(r.store, u) == r.store.newUserBalance {
        if u != username {
          assert Opening(r.store, u) == Opening(s, u);
        }
      }
    }
  }

  /** Registration grants the new user's opening balance and nothing else moves
      coins: the sum rises by the column default exactly when `Auth` succeeded
      for a user it did not know. */
  lemma AuthGrantsOpeningBalance(s: Store, faults: Faults, username: string, password: string)
    ensures var r := Auth(s, faults, username, password);
      r.out.err.None? && username !in s.users ==> TotalCoins(r.store.users) == TotalCoins(s.users) + s.newUserBalance
    ensures var r := Auth(s, faults, username, password);
      r.out.err.Some? || username in s.users ==> TotalCoins(r.store.users) == TotalCoins(s.users)
  {
    var r := Auth(s, faults, username, password);
    if r.out.err.None? && username !in s.users {
      assert username !in s.users && r.store.users == s.users[username := User(s.newUserBalance, password)];
      TotalCoinsInsert(s.users, username, User(s.newUserBalance, password));
    }
  }

  /** `Auth` never drives a balance below zero when the column default is not negative. */
  lemma AuthKeepsNonNegative(s: Store, faults: Faults, username: string, password: string)
    requires AllNonNegative(s)
    requires s.newUserBalance >= 0
    ensures AllNonNegative(Auth(s, faults, username, password).store)
  {
  }

  /** `BuyItem` keeps every balance accounted for: the debit matches the new purchase row. */
  lemma BuyItemKeepsConsistent(s: Store, faults: Faults, username: string, item: string)
    requires Consistent(s)
    ensures Consistent(BuyItem(s, faults, username, item).store)
  {
  }

  /** `SendCoin` keeps every balance accounted for: debit and credit match the new transfer row. */
  lemma SendCoinKeepsConsistent(s: Store, faults: Faults, sender: string, recipient: string, amount: int)
    requires Consistent(s)
    ensures Consistent(SendCoin(s, faults, sender, recipient, amount).store)
  {
  }

  /** Purchases never drive a balance below zero. */
  lemma BuyItemKeepsNonNegative(s: Store, faults: Faults, username: string, item: string)
    requires AllNonNegative(s)
    ensures AllNonNegative(BuyItem(s, faults, username, item).store)
  {
  }

  /** Transfers of a non-negative amount never drive a balance below zero. */
  lemma SendCoinKeepsNonNegative(s: Store, faults: Faults, sender: string, recipient: string, amount: int)
    requires AllNonNegative(s)
    requires amount >= 0
    ensures AllNonNegative(SendCoin(s, faults, sender, recipient, amount).store)
  {
  }

  /** The repository itself accepts a negative amount: with both users at zero,
      sending -5 succeeds and leaves the recipient at -5. Only the request gate
      (`amount > 0`) keeps such a transfer out. */
  lemma NegativeAmountOverdrawsRecipient()
    ensures var s := Store(map["a" := User(0, "p"), "b" := User(0, "q")], map[], [], [], 0);
      var r := SendCoin(s, {}, "a", "b", -5);
      && AllNonNegative(s)
      && r.out.None?
      && r.store.users["a"].balance == 5
      && r.store.users["b"].balance == -5
      && !AllNonNegative(r.store)
  {
  }

  /** A transfer to oneself leaves every balance as it was but is still recorded. */
  lemma SelfTransferKeepsBalances(s: Store, faults: Faults, u: string, amount: int)
    requires SendCoin(s, faults, u, u, amount).out.None?
    ensures SendCoin(s, faults, u, u, amount).store.users == s.users
    ensures SendCoin(s, faults, u, u, amount).store.transfers == s.transfers + [Transfer(u, u, amount)]
  {
  }

  /** A transfer to a missing recipient fails after the sender's debit has been
      written to the transaction, and the rollback discards that debit. */
  lemma UnknownRecipientRollsBack(s: Store, sender: string, recipient: string, amount: int)
    requires sender in s.users && recipient !in s.users
    requires s.users[sender].balance >= amount && amount != 0
    ensures SendCoinBody(s, {}, sender, recipient, amount).store.users[sender].balance == s.users[sender].balance - amount
    ensures SendCoin(s, {}, sender, recipient, amount) == Effect(s, Some(ReceiverBalanceFetchFailed(NoRows)))
  {
  }

  /** Sending coins and sending them straight back restores every balance. */
  lemma SendBackRestoresBalances(s: Store, a: string, b: string, n: int)
    requires AllNonNegative(s)
    requires a in s.users && b in s.users && a != b
    requires 0 <= n <= s.users[a].balance
    ensures var there := SendCoin(s, {}, a, b, n);
      var back := SendCoin(there.store, {}, b, a, n);
      && there.out.None? && back.out.None?
      && back.store.users == s.users
      && back.store.transfers == s.transfers + [Transfer(a, b, n), Transfer(b, a, n)]
  {
  }

  /** After a purchase, the buyer's count of that product grows by one and no other count changes. */
  lemma BuyItemAddsToInventory(s: Store, faults: Faults, username: string, item: string)
    requires BuyItem(s, faults, username, item).out.None?
    ensures forall u, x :: (Bought(BuyItem(s, faults, username, item).store.purchases, u, x) ==
      Bought(s.purchases, u, x) + (if u == username && x == item then 1 else 0))
  {
  }

  /** After a transfer, the sender's `sent` list and the recipient's `received`
      list each gain the one new entry at the end; nobody else's lists change. */
  lemma SendCoinAddsToHistory(s: Store, faults: Faults, sender: string, recipient: string, amount: int)
    requires SendCoin(s, faults, sender, recipient, amount).out.None?
    ensures forall u :: (SentBy(SendCoin(s, faults, sender, recipient, amount).store.transfers, u) ==
      SentBy(s.transfers, u) + (if u == sender then [SentResponse(recipient, amount)] else []))
    ensures forall u :: (ReceivedBy(SendCoin(s, faults, sender, recipient, amount).store.transfers, u) ==
      ReceivedBy(s.transfers, u) + (if u == recipient then [ReceivedResponse(sender, amount)] else []))
  {
  }

  /** A user's `GetInfo` has a line for every product they bought, with their count. */
  lemma InfoListsPurchases(t: Store, username: string, item: string)
    requires username in t.users && item in t.prices
    requires Bought(t.purchases, username, item) > 0
    ensures GetInfo(t, {}, username).Success?
    ensures exists i :: (0 <= i < |GetInfo(t, {}, username).value.inventory| &&
      GetInfo(t, {}, username).value.inventory[i] == ItemResponse(item, Bought(t.purchases, username, item)))
  {
    var inv := GetInfo(t, {}, username).value.inventory;
    assert item in Types(inv);
    var i :| 0 <= i < |inv| && inv[i].itemType == item;
    assert inv[i].quantity == Bought(t.purchases, username, item);
  }

  /** After a purchase, the buyer's `GetInfo` lists the product with its count
      one higher than before (quantity 1 for a first purchase). */
  lemma PurchaseShowsInInfo(s: Store, faults: Faults, username: string, item: string)
    requires BuyItem(s, faults, username, item).out.None?
    ensures var info := GetInfo(BuyItem(s, faults, username, item).store, {}, username);
      && info.Success?
      && exists i :: (0 <= i < |info.value.inventory| &&
           info.value.inventory[i] == ItemResponse(item, Bought(s.purchases, username, item) + 1))
  {
    var after := BuyItem(s, faults, username, item).store;
    BuyItemAddsToInventory(s, faults, username, item);
    assert Bought(after.purchases, username, item) == Bought(s.purchases, username, item) + 1;
    InfoListsPurchases(after, username, item);
  }
}
