/** What the market page shows, and what the files promise about it. */
module MarketQuote {
  import opened OrderBook
  import opened OrderWorld
  import opened MarketFile
  import opened MarketIndex
  import opened MarketDb

  /** The index promise in one sentence: a bid is live in the book under owner u exactly when u's
      own list holds exactly one record of it. */
  lemma LiveIffListedOnce(db: MarketStore, u: int, r: UserBid)
    requires db.Valid() && 0 <= u < |db.bids|
    ensures InBook(db.Levels(), u, r) <==> multiset(db.bids[u])[r] == 1
  {
    hide ShapeOf;
    assert r in db.bids[u] <==> InBook(db.Levels(), u, r);
    OnceOrNever(db.bids[u], r);
  }

  lemma {:induction false} OnceOrNever(l: seq<UserBid>, r: UserBid)
    requires DistinctBids(l)
    ensures multiset(l)[r] == if r in l then 1 else 0
  {
    if l != [] {
      assert l == [l[0]] + l[1..];
      assert forall i :: 0 <= i < |l[1..]| ==> l[1..][i] == l[i+1] && l[i+1].bidid != l[0].bidid;
      assert l[0] !in l[1..];
      OnceOrNever(l[1..], r);
    }
  }

  // ---------------------------------------------------------------- quotes

  /** The total the file stores for a level. */
  ghost function Stored(levels: seq<seq<Order>>, resource: int, action: int, price: int): int
    requires |levels| == LEVELS && ValidKey(resource, action, price)
  {
    Int32(Qty(levels[LevelOf(resource, action, price)]))
  }

  /** (quantity, price) is the best level with a nonzero stored total, or (-1, -1) if there is none. */
  ghost predicate Quotes(levels: seq<seq<Order>>, resource: int, action: int, quantity: int, price: int)
    requires |levels| == LEVELS && 0 <= resource < 3 && 0 <= action < 2
  {
    if price == -1 then
      quantity == -1 && forall p :: 0 <= p < PRICE_RANGE ==> Stored(levels, resource, action, p) == 0
    else
      && 0 <= price < PRICE_RANGE
      && quantity == Stored(levels, resource, action, price) != 0
      && forall p :: 0 <= p < PRICE_RANGE && (if action == BUY then p > price else p < price) ==>
           Stored(levels, resource, action, p) == 0
  }

  /** market[4r..4r+4]: best buy quantity and price, best sell quantity and price of resource r. */
  method GetMarket(db: MarketStore) returns (market: seq<int>)
    requires db.Valid()
    ensures |market| == 12
    ensures forall r :: 0 <= r < 3 ==>
              Quotes(db.Levels(), r, BUY, market[4*r], market[4*r+1]) &&
              Quotes(db.Levels(), r, SELL, market[4*r+2], market[4*r+3])
    ensures NeverCrossed(db.Levels()) ==> forall r :: 0 <= r < 3 ==> Apart(market[4*r+1], market[4*r+3])
  {
    hide ShapeOf, IndexAgrees, Quotes;
    market := seq(12, _ => -1);
    var r := 0;
    while r < 3
      invariant 0 <= r <= 3 && |market| == 12
      invariant forall i :: 4*r <= i < 12 ==> market[i] == -1
      invariant forall j :: 0 <= j < r ==>
                  Quotes(db.Levels(), j, BUY, market[4*j], market[4*j+1]) &&
                  Quotes(db.Levels(), j, SELL, market[4*j+2], market[4*j+3])
    {
      var bq, bp := BestBuy(db, r);
      var sq, sp := BestSell(db, r);
      market := market[4*r := bq][4*r+1 := bp][4*r+2 := sq][4*r+3 := sp];
      r := r + 1;
    }
    if NeverCrossed(db.Levels()) {
      forall r | 0 <= r < 3 ensures Apart(market[4*r+1], market[4*r+3]) {
        QuotesApart(db.Levels(), r, market[4*r], market[4*r+1], market[4*r+2], market[4*r+3]);
      }
    }
  }

  /** Where both prices are quoted, the market page shows no price to buy at that reaches a price to sell at. */
  ghost predicate Apart(buy: int, sell: int) {
    buy != -1 && sell != -1 ==> buy < sell
  }

  /** Quoted or overlooked, the totals cannot make an uncrossed market look crossed. */
  lemma QuotesApart(levels: seq<seq<Order>>, resource: int, bq: int, bp: int, sq: int, sp: int)
    requires |levels| == LEVELS && NeverCrossed(levels) && 0 <= resource < 3
    requires Quotes(levels, resource, BUY, bq, bp) && Quotes(levels, resource, SELL, sq, sp)
    ensures Apart(bp, sp)
  {
    assert Int32(Qty([])) == 0;
  }

  lemma HeadTotals(db: MarketStore)
    requires db.Valid()
    ensures |db.heads| == LEVELS
    ensures forall k :: 0 <= k < LEVELS ==> db.heads[k].total == Int32(Qty(db.Levels()[k]))
  {
    forall k | 0 <= k < LEVELS ensures db.heads[k].total == Int32(Qty(db.Levels()[k])) {
      assert HeadFits(db.heads[k], db.slots, db.queues[k]);
    }
  }

  method BestBuy(db: MarketStore, resource: int) returns (quantity: int, price: int)
    requires db.Valid() && 0 <= resource < 3
    ensures Quotes(db.Levels(), resource, BUY, quantity, price)
  {
    hide ShapeOf, IndexAgrees, Qty, Int32;
    HeadTotals(db);
    var a := PRICE_RANGE - 1;
    while a >= 0
      invariant -1 <= a < PRICE_RANGE
      invariant forall p :: a < p < PRICE_RANGE ==> Stored(db.Levels(), resource, BUY, p) == 0
    {
      var total := db.heads[LevelOf(resource, BUY, a)].total;
      assert total == Stored(db.Levels(), resource, BUY, a);
      if total != 0 { return total, a; }
      a := a - 1;
    }
    return -1, -1;
  }

  method BestSell(db: MarketStore, resource: int) returns (quantity: int, price: int)
    requires db.Valid() && 0 <= resource < 3
    ensures Quotes(db.Levels(), resource, SELL, quantity, price)
  {
    hide ShapeOf, IndexAgrees, Qty, Int32;
    HeadTotals(db);
    var a := 0;
    while a < PRICE_RANGE
      invariant 0 <= a <= PRICE_RANGE
      invariant forall p :: 0 <= p < a ==> Stored(db.Levels(), resource, SELL, p) == 0
    {
      var total := db.heads[LevelOf(resource, SELL, a)].total;
      assert total == Stored(db.Levels(), resource, SELL, a);
      if total != 0 { return total, a; }
      a := a + 1;
    }
    return -1, -1;
  }

  /** `price` is the best price anybody offers on this side, -1 if nobody offers. */
  ghost predicate IsBest(levels: seq<seq<Order>>, resource: int, action: int, price: int)
    requires |levels| == LEVELS && 0 <= resource < 3 && 0 <= action < 2
  {
    if price == -1 then
      forall p :: 0 <= p < PRICE_RANGE ==> levels[LevelOf(resource, action, p)] == []
    else
      && 0 <= price < PRICE_RANGE
      && levels[LevelOf(resource, action, price)] != []
      && forall p :: 0 <= p < PRICE_RANGE && (if action == BUY then p > price else p < price) ==>
           levels[LevelOf(resource, action, p)] == []
  }

  /** A level whose quantities add up to a multiple of 2^32 is stored as empty. */
  ghost predicate Wraps(q: seq<Order>) {
    q != [] && Qty(q) % 0x1_0000_0000 == 0
  }

  lemma StoredZero(q: seq<Order>)
    ensures Int32(Qty(q)) == 0 <==> q == [] || Wraps(q)
  {
  }

  lemma StoredExact(q: seq<Order>)
    ensures Int32(Qty(q)) == Qty(q) <==> -0x8000_0000 <= Qty(q) < 0x8000_0000
  {
  }

  /** The quoted price is the true best price exactly when the best level there is does not hold a
      multiple of 2^32 units; the quantity is then the true total as well exactly when that fits into a
      signed 32-bit integer. */
  lemma QuoteIsTrueIff(levels: seq<seq<Order>>, resource: int, action: int, quantity: int, price: int, best: int)
    requires |levels| == LEVELS && 0 <= resource < 3 && 0 <= action < 2
    requires Quotes(levels, resource, action, quantity, price) && IsBest(levels, resource, action, best)
    ensures price == best <==> best == -1 || !Wraps(levels[LevelOf(resource, action, best)])
    ensures (price == best && quantity == if best == -1 then -1 else Qty(levels[LevelOf(resource, action, best)])) <==>
            best == -1 || var q := levels[LevelOf(resource, action, best)];
                          !Wraps(q) && -0x8000_0000 <= Qty(q) < 0x8000_0000
  {
    hide Qty, Int32, Wraps;
    forall p | 0 <= p < PRICE_RANGE
      ensures Stored(levels, resource, action, p) == 0 <==>
                levels[LevelOf(resource, action, p)] == [] || Wraps(levels[LevelOf(resource, action, p)])
    {
      StoredZero(levels[LevelOf(resource, action, p)]);
    }
    if best != -1 { StoredExact(levels[LevelOf(resource, action, best)]); }
    if best != -1 { assert Stored(levels, resource, action, best) == 0 <==> Wraps(levels[LevelOf(resource, action, best)]); }
    if price != -1 { assert Stored(levels, resource, action, price) != 0; }
  }

  // ---------------------------------------------------------------- an input that is quoted wrongly

  const THREE: seq<int> := [2000000000, 2000000000, 294967296]

  /** The first `n` of three sales at price 1, by a user who owns 2^32 units. */
  function Sales(n: nat): (w: World)
    requires n <= 3
    ensures |w.levels| == LEVELS && |w.users| == 1
  {
    if n == 0 then World(NoOrders(), [Owns(0x1_0000_0000)])
    else Step(Sales(n - 1), Place(Sale(n - 1), n - 1))
  }

  function Sale(n: nat): Request
    requires n < 3
  {
    Request(0, SELL, 0, 1, THREE[n])
  }

  lemma {:induction false} NobodyBuys(levels: seq<seq<Order>>, base: int, prices: seq<int>, c: int)
    requires InBand(levels, base, prices) && forall i :: 0 <= i < |prices| ==> levels[base + prices[i]] == []
    ensures Sweep(levels, base, prices, c) == Swept(levels, [], c)
    decreases |prices|
  {
    if prices != [] {
      assert levels[base + prices[0] := []] == levels;
      assert forall i :: 0 <= i < |prices[1..]| ==> prices[1..][i] == prices[i+1];
      NobodyBuys(levels, base, prices[1..], c);
    }
  }

  function Waiting(n: nat): (q: seq<Order>)
    requires n <= 3
  {
    seq(n, i requires 0 <= i < n => Order(i, 0, THREE[i]))
  }

  /** The book with the first `n` sales resting. */
  function Book(n: nat): (levels: seq<seq<Order>>)
    requires n <= 3
    ensures |levels| == LEVELS
  {
    NoOrders()[LevelOf(0, SELL, 1) := Waiting(n)]
  }

  lemma NothingToMatch(n: nat)
    requires n < 3
    ensures BookSweep(Book(n), Sale(n)) == Swept(Book(n), [], THREE[n])
    ensures Unused(Book(n), n)
  {
    NobodyBuys(Book(n), LevelOf(0, BUY, 0), LimitPrices(SELL, 1), THREE[n]);
  }

  lemma OneSale(w: World, n: nat, owned: int)
    requires n < 3 && w == World(Book(n), [Owns(owned)]) && owned >= THREE[n]
    ensures Enabled(w, Place(Sale(n), n))
    ensures Step(w, Place(Sale(n), n)) == World(Book(n + 1), [Owns(owned - THREE[n])])
  {
    hide BookSweep, Unused, NoOrders, Waiting, LimitPrices;
    NothingToMatch(n);
    NextInLine(n);
    var purse, less: Purse := [0, owned, 0, 0], [0, owned - THREE[n], 0, 0];
    assert purse[1 := purse[1] - THREE[n]] == less;
    assert Owns(owned - THREE[n]) == User(0, less);
    assert w.users[0 := User(0, less)] == [User(0, less)];
    assert Settle(Deposit(w.users, Sale(n)), 0, SELL, 0, []) == Deposit(w.users, Sale(n)) == [User(0, less)];
  }

  lemma NextInLine(n: nat)
    requires n < 3
    ensures var k := LevelOf(0, SELL, 1); Book(n)[k := Book(n)[k] + [Order(n, 0, THREE[n])]] == Book(n + 1)
  {
    assert Waiting(n) + [Order(n, 0, THREE[n])] == Waiting(n + 1);
  }

  lemma EmptyBook()
    ensures Book(0) == NoOrders()
  {
    assert Waiting(0) == [];
    assert NoOrders()[LevelOf(0, SELL, 1) := []] == NoOrders();
  }

  /** Each sale is accepted and rests behind the ones before it. */
  lemma {:induction false} SalesRest(n: nat)
    requires n <= 3
    ensures Sales(n) == World(Book(n), [Owns(0x1_0000_0000 - Sold(n))])
    ensures n < 3 ==> Enabled(Sales(n), Place(Sale(n), n))
  {
    hide Step, Enabled, Book, NoOrders, Owns;
    if n == 0 { EmptyBook(); } else { SalesRest(n - 1); }
    assert THREE[0] + THREE[1] + THREE[2] == 0x1_0000_0000;
    if n > 0 { OneSale(Sales(n - 1), n - 1, 0x1_0000_0000 - Sold(n - 1)); }
    if n < 3 { OneSale(Sales(n), n, 0x1_0000_0000 - Sold(n)); }
  }

  function Sold(n: nat): (s: int)
    requires n <= 3
    ensures n < 3 ==> s + THREE[n] <= 0x1_0000_0000
  {
    if n == 0 then 0 else if n == 1 then THREE[0] else if n == 2 then THREE[0] + THREE[1] else THREE[0] + THREE[1] + THREE[2]
  }

  /** After the three sales 2^32 units are on offer at price 1, and the market page says there is none. */
  lemma ThreeSalesAreQuotedAsNone()
    ensures IsBest(Sales(3).levels, 0, SELL, 1) && Qty(Sales(3).levels[LevelOf(0, SELL, 1)]) == 0x1_0000_0000
    ensures Quotes(Sales(3).levels, 0, SELL, -1, -1)
  {
    hide Sales;
    SalesRest(3);
    var q := Waiting(3);
    assert q[1..][1..][1..] == [];
    assert Qty(q) == THREE[0] + (THREE[1] + (THREE[2] + 0)) by {
      assert q[1..][0] == q[1] && q[1..][1..][0] == q[2];
    }
  }
}
