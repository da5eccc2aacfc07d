/** The read-only views the repository derives from the history tables:
    inventory (purchase counts grouped by product) and sent/received lists. */
module Projections {
  import opened Entities
  import opened Database

  /** Reference count: how many `purchases` rows record `u` buying `item`. */
  function Bought(ps: seq<Purchase>, u: string, item: string): nat
  {
    if |ps| == 0 then 0
    else Bought(ps[..|ps| - 1], u, item) + (if ps[|ps| - 1] == Purchase(u, item) then 1 else 0)
  }

  /** The product names of `u`'s purchases, in purchase order, keeping only
      those that join with a row of the `products` table. */
  function PurchasedItems(ps: seq<Purchase>, u: string, prices: map<string, int>): (items: seq<string>)
    ensures forall x :: multiset(items)[x] == if x in prices then Bought(ps, u, x) else 0
  {
    if |ps| == 0 then []
    else
      var last := ps[|ps| - 1];
      var prev := PurchasedItems(ps[..|ps| - 1], u, prices);
      if last.username == u && last.item in prices then prev + [last.item] else prev
  }

  /** The product names listed in an inventory. */
  function Types(inv: seq<ItemResponse>): set<string>
  {
    set i | 0 <= i < |inv| :: inv[i].itemType
  }

  /** No product appears on two inventory lines. */
  predicate DistinctTypes(inv: seq<ItemResponse>)
  {
    forall i, j :: 0 <= i < j < |inv| ==> inv[i].itemType != inv[j].itemType
  }

  /** The names of a non-empty inventory: its head's and its tail's. */
  lemma TypesCons(e: ItemResponse, rest: seq<ItemResponse>)
    ensures Types([e] + rest) == {e.itemType} + Types(rest)
  {
    var inv := [e] + rest;
    assert inv[0].itemType == e.itemType;
    forall y | y in Types(inv) ensures y in {e.itemType} + Types(rest) {
      var i :| 0 <= i < |inv| && inv[i].itemType == y;
      if i > 0 { assert rest[i - 1].itemType == y; }
    }
    forall y | y in Types(rest) ensures y in Types(inv) {
      var i :| 0 <= i < |rest| && rest[i].itemType == y;
      assert inv[i + 1].itemType == y;
    }
  }

  /** Counts one more `x`: bumps the line of `x` or appends a new line for it. */
  function Bump(inv: seq<ItemResponse>, x: string): (r: seq<ItemResponse>)
    requires DistinctTypes(inv)
    ensures DistinctTypes(r)
    ensures Types(r) == Types(inv) + {x}
    ensures x in Types(inv) ==> |r| == |inv|
    ensures x !in Types(inv) ==> |r| == |inv| + 1 && r[|inv|] == ItemResponse(x, 1)
    ensures forall i :: 0 <= i < |inv| ==>
      r[i].itemType == inv[i].itemType &&
      r[i].quantity == inv[i].quantity + (if inv[i].itemType == x then 1 else 0)
  {
    if |inv| == 0 then
      TypesCons(ItemResponse(x, 1), []);
      [ItemResponse(x, 1)]
    else if inv[0].itemType == x then
      var r := [inv[0].(quantity := inv[0].quantity + 1)] + inv[1..];
      assert inv == [inv[0]] + inv[1..];
      TypesCons(inv[0], inv[1..]);
      TypesCons(r[0], inv[1..]);
      r
    else
      assert inv == [inv[0]] + inv[1..];
      TypesCons(inv[0], inv[1..]);
      var rest := Bump(inv[1..], x);
      TypesCons(inv[0], rest);
      BumpCons(inv, x, rest);
      [inv[0]] + rest
  }

  /** The recursive case of `Bump`: keeping an unmatched head line in front of
      the bumped tail. */
  lemma BumpCons(inv: seq<ItemResponse>, x: string, rest: seq<ItemResponse>)
    requires |inv| > 0 && DistinctTypes(inv) && inv[0].itemType != x
    requires DistinctTypes(rest)
    requires Types(rest) == Types(inv[1..]) + {x}
    requires |rest| >= |inv| - 1
    requires forall i :: 0 <= i < |inv| - 1 ==>
      rest[i].itemType == inv[1..][i].itemType &&
      rest[i].quantity == inv[1..][i].quantity + (if inv[1..][i].itemType == x then 1 else 0)
    ensures DistinctTypes([inv[0]] + rest)
    ensures forall i :: 0 <= i < |inv| ==>
      ([inv[0]] + rest)[i].itemType == inv[i].itemType &&
      ([inv[0]] + rest)[i].quantity == inv[i].quantity + (if inv[i].itemType == x then 1 else 0)
  {
    var r := [inv[0]] + rest;
    forall j | 0 <= j < |inv| - 1 ensures inv[1..][j].itemType != inv[0].itemType {
      assert inv[1..][j] == inv[j + 1];
    }
    assert inv[0].itemType !in Types(inv[1..]);
    forall i, j | 0 <= i < j < |r| ensures r[i].itemType != r[j].itemType {
      if i == 0 {
        assert r[j].itemType == rest[j - 1].itemType;
        assert rest[j - 1].itemType in Types(rest);
      } else {
        assert r[i] == rest[i - 1] && r[j] == rest[j - 1];
      }
    }
    forall i | 0 <= i < |inv| ensures r[i].itemType == inv[i].itemType &&
      r[i].quantity == inv[i].quantity + (if inv[i].itemType == x then 1 else 0)
    {
      if i > 0 {
        assert r[i] == rest[i - 1] && inv[i] == inv[1..][i - 1];
      }
    }
  }

  /** The `GROUP BY product_name` with `COUNT(*)`: one line per distinct name in
      `items`, carrying the number of its occurrences. Lines appear in the order
      of each name's first occurrence (the SQL order is unspecified). */
  function Tally(items: seq<string>): (inv: seq<ItemResponse>)
    ensures DistinctTypes(inv)
    ensures Types(inv) == set x | x in items
    ensures forall i :: 0 <= i < |inv| ==> inv[i].quantity == multiset(items)[inv[i].itemType]
    ensures forall i :: 0 <= i < |inv| ==> inv[i].quantity > 0
  {
    if |items| == 0 then []
    else
      var prefix := items[..|items| - 1];
      var x := items[|items| - 1];
      assert items == prefix + [x];
      var prev := Tally(prefix);
      BumpTallies(prefix, x, prev);
      Bump(prev, x)
  }

  /** The line-by-line view of `prev` as the tally of `prefix` survives counting one more `x`. */
  lemma BumpTallies(prefix: seq<string>, x: string, prev: seq<ItemResponse>)
    requires DistinctTypes(prev)
    requires Types(prev) == set y | y in prefix
    requires forall i :: 0 <= i < |prev| ==> prev[i].quantity == multiset(prefix)[prev[i].itemType]
    requires forall i :: 0 <= i < |prev| ==> prev[i].quantity > 0
    ensures Types(Bump(prev, x)) == set y | y in prefix + [x]
    ensures forall i :: 0 <= i < |Bump(prev, x)| ==>
      Bump(prev, x)[i].quantity == multiset(prefix + [x])[Bump(prev, x)[i].itemType]
    ensures forall i :: 0 <= i < |Bump(prev, x)| ==> Bump(prev, x)[i].quantity > 0
  {
    var r := Bump(prev, x);
    var items := prefix + [x];
    assert multiset(items) == multiset(prefix) + multiset{x};
    assert (set y | y in items) == (set y | y in prefix) + {x};
    forall i | 0 <= i < |r|
      ensures r[i].quantity == multiset(items)[r[i].itemType] && r[i].quantity > 0
    {
      if i < |prev| {
        assert r[i].itemType == prev[i].itemType;
      } else {
        assert x !in Types(prev);
        assert x !in prefix;
        assert multiset(prefix)[x] == 0;
      }
    }
  }

  /** Reference count: how many `transfers` rows have sender `u` and would be
      listed as `e` in `u`'s sent history. */
  function SentCount(ts: seq<Transfer>, u: string, e: SentResponse): nat
  {
    if |ts| == 0 then 0
    else SentCount(ts[..|ts| - 1], u, e) + (if ts[|ts| - 1] == Transfer(u, e.toUser, e.amount) then 1 else 0)
  }

  /** Reference count: how many `transfers` rows have receiver `u` and would be
      listed as `e` in `u`'s received history. */
  function ReceivedCount(ts: seq<Transfer>, u: string, e: ReceivedResponse): nat
  {
    if |ts| == 0 then 0
    else ReceivedCount(ts[..|ts| - 1], u, e) + (if ts[|ts| - 1] == Transfer(e.fromUser, u, e.amount) then 1 else 0)
  }

  /** The `sent` list: one entry per transfer row whose sender is `u`, in row order. */
  function SentBy(ts: seq<Transfer>, u: string): (r: seq<SentResponse>)
    ensures |r| <= |ts|
    ensures forall e :: e in r <==> exists t :: t in ts && t.sender == u && e == SentResponse(t.receiver, t.amount)
    ensures forall e :: multiset(r)[e] == SentCount(ts, u, e)
  {
    if |ts| == 0 then []
    else
      var t := ts[|ts| - 1];
      assert ts == ts[..|ts| - 1] + [t];
      SentBy(ts[..|ts| - 1], u) + (if t.sender == u then [SentResponse(t.receiver, t.amount)] else [])
  }

  /** The `received` list: one entry per transfer row whose receiver is `u`, in row order. */
  function ReceivedBy(ts: seq<Transfer>, u: string): (r: seq<ReceivedResponse>)
    ensures |r| <= |ts|
    ensures forall e :: e in r <==> exists t :: t in ts && t.receiver == u && e == ReceivedResponse(t.sender, t.amount)
    ensures forall e :: multiset(r)[e] == ReceivedCount(ts, u, e)
  {
    if |ts| == 0 then []
    else
      var t := ts[|ts| - 1];
      assert ts == ts[..|ts| - 1] + [t];
      ReceivedBy(ts[..|ts| - 1], u) + (if t.receiver == u then [ReceivedResponse(t.sender, t.amount)] else [])
  }
}
