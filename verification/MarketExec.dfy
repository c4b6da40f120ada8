/** Placing and withdrawing bids on the market files. Each is shown to do to the files what its counterpart in
    OrderWorld does to the market they stand for. */
module MarketExec {
  import opened OrderBook
  import opened OrderWorld
  import opened MarketFile
  import opened MarketIndex
  import opened MarketDb
  import opened OrderRuns
  import opened OrderTrade

  /** A live bid changes its size in the book and in its owner's list. */
  method ResizeBid(db: MarketStore, userid: int, resource: int, action: int, price: int, bidid: int,
                   quantity: int, loss: int, ghost i: int)
    requires db.Valid() && ValidKey(resource, action, price)
    requires var q := db.Levels()[LevelOf(resource, action, price)];
             0 <= i < |q| && q[i] == Order(bidid, userid, quantity + loss)
    modifies db
    ensures db.Valid() && db.mains == old(db.mains) && db.num == old(db.num)
    ensures |db.bids| == |old(db.bids)|
    ensures 0 <= userid < |old(db.bids)| && db.bids == old(db.bids)[userid := SetQuantity(old(db.bids)[userid], bidid, quantity)]
    ensures var k := LevelOf(resource, action, price);
            db.Levels() == old(db.Levels())[k := old(db.Levels())[k][i := old(db.Levels())[k][i].(qty := quantity)]]
  {
    BookDistinct(db.heads, db.slots, db.lfree, db.queues, db.frees, db.place);
    IndexAfterResize(db.Levels(), db.bids, UserBid(action, resource, price, quantity + loss, bidid), i, quantity);
    var _ := db.UserMarketQuantity(userid, bidid, quantity);
    db.MarketSetQuantity(resource, action, price, bidid, quantity, loss, i);
  }

  /** A live bid disappears from the book and from its owner's list. */
  method DropBid(db: MarketStore, userid: int, resource: int, action: int, price: int, bidid: int, ghost i: int)
    requires db.Valid() && ValidKey(resource, action, price)
    requires var q := db.Levels()[LevelOf(resource, action, price)];
             0 <= i < |q| && q[i].id == bidid && q[i].owner == userid
    modifies db
    ensures db.Valid() && db.mains == old(db.mains) && db.num == old(db.num)
    ensures |db.bids| == |old(db.bids)|
    ensures 0 <= userid < |old(db.bids)| && db.bids == old(db.bids)[userid := SwapRemove(old(db.bids)[userid], bidid)]
    ensures var k := LevelOf(resource, action, price);
            db.Levels() == old(db.Levels())[k := old(db.Levels())[k][..i] + old(db.Levels())[k][i+1..]]
  {
    BookDistinct(db.heads, db.slots, db.lfree, db.queues, db.frees, db.place);
    IndexAfterRemove(db.Levels(), db.bids, LevelOf(resource, action, price), i);
    var _ := db.UserMarketRemove(userid, bidid);
    db.MarketRemove(resource, action, price, bidid, i);
  }

  /** Serving the oldest order `b` of a level: shrink it if it is larger than `c`, else remove it. */
  method FillOrder(db: MarketStore, action: int, resource: int, a: int, b: int, c0: int)
    returns (c: int, d: int, amount: int, userid: int)
    requires db.Valid() && ValidKey(resource, action, a)
    requires var q := db.Levels()[LevelOf(resource, action, a)]; q != [] && q[0].id == b
    modifies db
    ensures db.Valid() && db.mains == old(db.mains) && db.num == old(db.num)
    ensures var k := LevelOf(resource, action, a);
            var q := old(db.Levels())[k];
            && db.Levels() == old(db.Levels())[k := HeadServed(q, c0)]
            && amount == (if c0 < q[0].qty then c0 else q[0].qty) && c == c0 - amount
            && userid == q[0].owner
            && d == if |q| == 1 then -1 else q[1].id
  {
    hide ShapeOf, IndexAgrees, HeadServed, SetQuantity, SwapRemove;
    c := c0;
    ghost var k := LevelOf(resource, action, a);
    ghost var q := db.Levels()[k];
    HeadCases(q, c);
    var quantity;
    d, quantity, userid := db.MarketListNext(b, k, 0);
    if c < quantity {
      ResizeBid(db, userid, resource, action, a, b, quantity - c, c, 0);
      amount := c;
      c := 0;
    } else {
      DropBid(db, userid, resource, action, a, b, 0);
      amount := quantity;
      c := c - quantity;
    }
  }

  /** How far the matching of one level has come: `whole` is what is already reported, followed by what matching
      the rest of the level will report, unless it is done; the purses reflect the former. */
  ghost predicate FillProgress(whole: Matched, users0: seq<User>, id: int, action: int, resource: int, a: int,
                               q: seq<Order>, c: int, done: bool, news: seq<Fill>, users: seq<User>)
    requires 0 <= resource < 3
  {
    var m := if done then Matched(q, [], 0) else FillQueue(q, a, c);
    && whole == m.(fills := news + m.fills)
    && users == Settle(users0, id, action, resource, news)
  }

  ghost function HeadFill(q: seq<Order>, a: int, c: int): Fill
    requires q != []
  {
    Fill(a, q[0].id, q[0].owner, if c < q[0].qty then c else q[0].qty)
  }

  ghost function HeadServed(q: seq<Order>, c: int): seq<Order>
    requires q != []
  {
    if c < q[0].qty then [q[0].(qty := q[0].qty - c)] + q[1..] else q[1..]
  }

  lemma HeadCases(q: seq<Order>, c: int)
    requires q != []
    ensures c < q[0].qty ==> q[0 := q[0].(qty := q[0].qty - c)] == HeadServed(q, c)
    ensures c >= q[0].qty ==> q[..0] + q[1..] == HeadServed(q, c)
  {
  }

  lemma FillProgressStep(whole: Matched, users0: seq<User>, id: int, action: int, resource: int, a: int,
                         q: seq<Order>, c: int, news: seq<Fill>, users: seq<User>)
    requires 0 <= resource < 3 && q != []
    requires FillProgress(whole, users0, id, action, resource, a, q, c, false, news, users)
    ensures var f := HeadFill(q, a, c);
            FillProgress(whole, users0, id, action, resource, a, HeadServed(q, c), c - f.amount, c == f.amount, news + [f],
                         SettleOne(users, id, action, resource, f))
  {
    hide Settle, SettleOne;
    var f := HeadFill(q, a, c);
    SettleAppend(users0, id, action, resource, news, f);
    if c > q[0].qty {
      var m := FillQueue(q[1..], a, c - q[0].qty);
      assert news + ([f] + m.fills) == (news + [f]) + m.fills;
    } else {
      assert (news + [f]) + [] == news + [f];
      assert [f] + [] == [f];
    }
  }

  /** Serve the oldest order of a level and settle with its owner. */
  method ServeHead(db: MarketStore, id: int, action: int, resource: int, a: int, b: int, c0: int, maind0: User)
    returns (c: int, d: int, maind: User, f: Fill)
    requires db.Valid() && 0 <= id < |db.mains| && ValidKey(resource, 1 - action, a)
    requires var q := db.Levels()[LevelOf(resource, 1 - action, a)]; q != [] && q[0].id == b
    modifies db
    ensures db.Valid() && |db.mains| == |old(db.mains)| && db.num == old(db.num)
    ensures var k := LevelOf(resource, 1 - action, a);
            var q := old(db.Levels())[k];
            && db.Levels() == old(db.Levels())[k := HeadServed(q, c0)]
            && f == HeadFill(q, a, c0) && c == c0 - f.amount
            && (d == if |q| == 1 then -1 else q[1].id)
            && db.mains[id := maind] == SettleOne(old(db.mains)[id := maind0], id, action, resource, f)
  {
    hide ShapeOf, IndexAgrees;
    var amount, userid;
    c, d, amount, userid := FillOrder(db, 1 - action, resource, a, b, c0);
    f := Fill(a, b, userid, amount);
    maind := Pay(db, id, action, resource, f, maind0);
  }

  lemma FillProgressStarts(users0: seq<User>, id: int, action: int, resource: int, a: int, q: seq<Order>, c: int)
    requires 0 <= resource < 3
    ensures FillProgress(FillQueue(q, a, c), users0, id, action, resource, a, q, c, false, [], users0)
  {
    assert [] + FillQueue(q, a, c).fills == FillQueue(q, a, c).fills;
  }

  lemma FillProgressEnds(whole: Matched, users0: seq<User>, id: int, action: int, resource: int, a: int,
                         q: seq<Order>, c: int, done: bool, news: seq<Fill>, users: seq<User>)
    requires 0 <= resource < 3 && (if done then c == 0 && news != [] else q == [] && (news == [] || c != 0))
    requires FillProgress(whole, users0, id, action, resource, a, q, c, done, news, users)
    ensures whole == Matched(q, news, c) && users == Settle(users0, id, action, resource, news)
    ensures done == Served(whole.fills, whole.left)
  {
    assert news + [] == news;
  }

  /** One price level: serve its orders, oldest first, until `c` is used up. */
  method FillLevel(db: MarketStore, id: int, action: int, resource: int, a: int, c0: int, maind0: User)
    returns (c: int, maind: User, news: seq<Fill>, done: bool)
    requires db.Valid() && 0 <= id < |db.mains|
    requires ValidKey(resource, 1 - action, a)
    modifies db
    ensures db.Valid() && |db.mains| == |old(db.mains)| && db.num == old(db.num)
    ensures var k := LevelOf(resource, 1 - action, a);
            var m := FillQueue(old(db.Levels())[k], a, c0);
            && db.Levels() == old(db.Levels())[k := m.rest]
            && news == m.fills && c == m.left && done == Served(m.fills, m.left)
            && db.mains[id := maind] == Settle(old(db.mains)[id := maind0], id, action, resource, m.fills)
  {
    hide ShapeOf, IndexAgrees, FillProgress, FillQueue, Settle, SettleOne;
    c, maind, news, done := c0, maind0, [], false;
    var k := LevelOf(resource, 1 - action, a);
    ghost var L0, users0 := db.Levels(), db.mains[id := maind0];
    ghost var q, m := L0[k], FillQueue(L0[k], a, c0);
    FillProgressStarts(users0, id, action, resource, a, q, c);
    assert db.Levels() == L0[k := q];
    LevelFacts(db, k);
    var b := db.MarketListStart(resource, 1 - action, a);
    while 0 <= b < SLOT_LIMIT
      invariant db.Valid() && |db.mains| == |old(db.mains)| && db.num == old(db.num)
      invariant !done && (news == [] || c != 0) && db.Levels() == L0[k := q]
      invariant b == if q == [] then -1 else q[0].id
      invariant q == [] || 0 <= q[0].id < SLOT_LIMIT
      invariant FillProgress(m, users0, id, action, resource, a, q, c, false, news, db.mains[id := maind])
      decreases |q|
    {
      FillProgressStep(m, users0, id, action, resource, a, q, c, news, db.mains[id := maind]);
      ghost var q', c1 := HeadServed(q, c), c;
      var d, f;
      c, d, maind, f := ServeHead(db, id, action, resource, a, b, c, maind);
      news := news + [f];
      if c == 0 {
        FillProgressEnds(m, users0, id, action, resource, a, q', c, true, news, db.mains[id := maind]);
        done := true;
        return;
      }
      ServedWhole(q, c1);
      q := q';
      assert db.Levels()[k] == q;
      LevelFacts(db, k);
      b := d;
    }
    FillProgressEnds(m, users0, id, action, resource, a, q, c, false, news, db.mains[id := maind]);
  }

  /** If something is left, the oldest order has gone. */
  lemma ServedWhole(q: seq<Order>, c: int)
    requires q != [] && c != HeadFill(q, 0, c).amount
    ensures HeadServed(q, c) == q[1..]
  {
  }

  lemma SettleAppend(users: seq<User>, taker: int, action: int, resource: int, fills: seq<Fill>, f: Fill)
    requires 0 <= resource < 3
    ensures Settle(users, taker, action, resource, fills + [f])
              == SettleOne(Settle(users, taker, action, resource, fills), taker, action, resource, f)
  {
    assert (fills + [f])[..|fills|] == fills;
  }

  /** The taker's purse is a local copy until the end; anybody else is paid in his file. */
  method Pay(db: MarketStore, id: int, action: int, resource: int, f: Fill, maind0: User) returns (maind: User)
    requires 0 <= id < |db.mains| && 0 <= resource < 3
    modifies db`mains
    ensures |db.mains| == |old(db.mains)|
    ensures db.mains[id := maind] == SettleOne(old(db.mains)[id := maind0], id, action, resource, f)
  {
    maind := maind0;
    var energy := f.price * f.amount;
    var mine := if action == BUY then resource + 1 else ENERGY;
    var theirs := if action == BUY then ENERGY else resource + 1;
    var gain := if action == BUY then f.amount else energy;
    var pay := if action == BUY then energy else f.amount;
    maind := maind.(ressource := maind.ressource[mine := maind.ressource[mine] + gain]);
    if f.owner != id {
      if 0 <= f.owner < |db.mains| {
        var main2d := db.mains[f.owner];
        db.mains := db.mains[f.owner := main2d.(ressource := main2d.ressource[theirs := main2d.ressource[theirs] + pay])];
      }
    } else {
      maind := maind.(ressource := maind.ressource[theirs := maind.ressource[theirs] + pay]);
    }
  }

  lemma {:induction false} SettleConcat(users: seq<User>, taker: int, action: int, resource: int, a: seq<Fill>, b: seq<Fill>)
    requires 0 <= resource < 3
    ensures Settle(users, taker, action, resource, a + b)
              == Settle(Settle(users, taker, action, resource, a), taker, action, resource, b)
  {
    if b == [] {
      assert a + b == a;
    } else {
      var n := |b| - 1;
      assert (a + b)[..|a|+n] == a + b[..n];
      SettleConcat(users, taker, action, resource, a, b[..n]);
    }
  }

  /** How far the matching of a whole order has come. */
  ghost predicate SweepProgress(whole: Swept, users0: seq<User>, rq: Request, levels: seq<seq<Order>>, prices: seq<int>,
                                c: int, done: bool, news: seq<Fill>, users: seq<User>)
    requires |levels| == LEVELS && ValidKey(rq.resource, rq.action, rq.price)
    requires forall i :: 0 <= i < |prices| ==> 0 <= prices[i] < PRICE_RANGE
  {
    var s := if done then Swept(levels, [], c) else Sweep(levels, LevelOf(rq.resource, 1 - rq.action, 0), prices, c);
    && whole == s.(fills := news + s.fills)
    && users == Settle(users0, rq.user, rq.action, rq.resource, news)
  }

  lemma SweepProgressStep(whole: Swept, users0: seq<User>, rq: Request, levels: seq<seq<Order>>, prices: seq<int>,
                          c: int, news: seq<Fill>, users: seq<User>, m: Matched)
    requires |levels| == LEVELS && ValidKey(rq.resource, rq.action, rq.price)
    requires forall i :: 0 <= i < |prices| ==> 0 <= prices[i] < PRICE_RANGE
    requires SweepProgress(whole, users0, rq, levels, prices, c, false, news, users) && prices != []
    requires m == FillQueue(levels[LevelOf(rq.resource, 1 - rq.action, prices[0])], prices[0], c)
    ensures SweepProgress(whole, users0, rq, levels[LevelOf(rq.resource, 1 - rq.action, prices[0]) := m.rest], prices[1..],
                          m.left, Served(m.fills, m.left), news + m.fills, Settle(users, rq.user, rq.action, rq.resource, m.fills))
  {
    hide Settle, Sweep, FillQueue;
    var base := LevelOf(rq.resource, 1 - rq.action, 0);
    var levels1 := levels[base + prices[0] := m.rest];
    var s := if Served(m.fills, m.left) then Swept(levels1, [], m.left) else Sweep(levels1, base, prices[1..], m.left);
    SweepHead(levels, base, prices, c, m);
    assert news + (m.fills + s.fills) == (news + m.fills) + s.fills;
    SettleConcat(users0, rq.user, rq.action, rq.resource, news, m.fills);
  }

  /** The prices still ahead of a buy order that has reached price `a`, and of a sell order. */
  ghost function BuyAhead(a: int, limit: int): (p: seq<int>)
    requires 0 <= a <= limit + 1 <= PRICE_RANGE
    ensures |p| == limit + 1 - a && forall i :: 0 <= i < |p| ==> p[i] == a + i
  {
    seq(limit + 1 - a, i => a + i)
  }

  ghost function SellAhead(a: int, limit: int): (p: seq<int>)
    requires 0 <= limit <= a + 1 <= PRICE_RANGE
    ensures |p| == a + 1 - limit && forall i :: 0 <= i < |p| ==> p[i] == a - i
  {
    seq(a + 1 - limit, i => a - i)
  }

  lemma BuyAheadStep(a: int, limit: int)
    requires 0 <= a <= limit < PRICE_RANGE
    ensures BuyAhead(a, limit)[1..] == BuyAhead(a + 1, limit)
  {
  }

  lemma SellAheadStep(a: int, limit: int)
    requires 0 <= limit <= a < PRICE_RANGE
    ensures SellAhead(a, limit)[1..] == SellAhead(a - 1, limit)
  {
  }

  lemma SweepProgressStarts(levels: seq<seq<Order>>, users0: seq<User>, rq: Request)
    requires |levels| == LEVELS && ValidKey(rq.resource, rq.action, rq.price)
    ensures SweepProgress(BookSweep(levels, rq), users0, rq, levels,
                          if rq.action == BUY then BuyAhead(0, rq.price) else SellAhead(PRICE_RANGE - 1, rq.price),
                          rq.quantity, false, [], users0)
  {
    var p := if rq.action == BUY then BuyAhead(0, rq.price) else SellAhead(PRICE_RANGE - 1, rq.price);
    assert LimitPrices(rq.action, rq.price) == p;
    var whole := BookSweep(levels, rq);
    assert [] + whole.fills == whole.fills;
  }

  lemma SweepProgressEnds(whole: Swept, users0: seq<User>, rq: Request, levels: seq<seq<Order>>, prices: seq<int>,
                          c: int, done: bool, news: seq<Fill>, users: seq<User>)
    requires |levels| == LEVELS && ValidKey(rq.resource, rq.action, rq.price)
    requires forall i :: 0 <= i < |prices| ==> 0 <= prices[i] < PRICE_RANGE
    requires SweepProgress(whole, users0, rq, levels, prices, c, done, news, users) && (prices == [] || done)
    ensures whole == Swept(levels, news, c) && users == Settle(users0, rq.user, rq.action, rq.resource, whole.fills)
  {
    assert news + [] == news;
  }

  method SweepLevel(db: MarketStore, rq: Request, a: int, c0: int, maind0: User, news0: seq<Fill>,
                    ghost whole: Swept, ghost users0: seq<User>, ghost prices: seq<int>)
    returns (c: int, maind: User, news: seq<Fill>, done: bool)
    requires db.Valid() && 0 <= rq.user < |db.mains|
    requires ValidKey(rq.resource, rq.action, rq.price) && ValidKey(rq.resource, 1 - rq.action, a)
    requires prices != [] && prices[0] == a && forall i :: 0 <= i < |prices| ==> 0 <= prices[i] < PRICE_RANGE
    requires SweepProgress(whole, users0, rq, db.Levels(), prices, c0, false, news0, db.mains[rq.user := maind0])
    modifies db
    ensures db.Valid() && |db.mains| == |old(db.mains)| && db.num == old(db.num)
    ensures SweepProgress(whole, users0, rq, db.Levels(), prices[1..], c, done, news, db.mains[rq.user := maind])
  {
    hide ShapeOf, IndexAgrees, SweepProgress, FillQueue, Settle;
    SweepProgressStep(whole, users0, rq, db.Levels(), prices, c0, news0, db.mains[rq.user := maind0],
                      FillQueue(db.Levels()[LevelOf(rq.resource, 1 - rq.action, a)], a, c0));
    c, maind, news, done := FillLevel(db, rq.user, rq.action, rq.resource, a, c0, maind0);
    news := news0 + news;
  }

  /** A buy order meets the sell lists from price 0 up to its limit. */
  method SweepBuy(db: MarketStore, rq: Request, maind0: User) returns (c: int, maind: User, news: seq<Fill>)
    requires db.Valid() && 0 <= rq.user < |db.mains|
    requires ValidKey(rq.resource, rq.action, rq.price) && rq.action == BUY
    modifies db
    ensures db.Valid() && |db.mains| == |old(db.mains)| && db.num == old(db.num)
    ensures var s := BookSweep(old(db.Levels()), rq);
            && db.Levels() == s.levels && news == s.fills && c == s.left
            && db.mains[rq.user := maind] == Settle(old(db.mains)[rq.user := maind0], rq.user, rq.action, rq.resource, s.fills)
  {
    hide ShapeOf, IndexAgrees, SweepProgress, BookSweep, Settle, BuyAhead, SellAhead;
    c, maind, news := rq.quantity, maind0, [];
    ghost var users0, whole := db.mains[rq.user := maind0], BookSweep(db.Levels(), rq);
    SweepProgressStarts(db.Levels(), users0, rq);
    assert db.mains[rq.user := maind] == users0;
    var a, done := 0, false;
    while a <= rq.price
      invariant db.Valid() && |db.mains| == |old(db.mains)| && db.num == old(db.num)
      invariant 0 <= a <= rq.price + 1 && !done
      invariant SweepProgress(whole, users0, rq, db.Levels(), BuyAhead(a, rq.price), c, false, news, db.mains[rq.user := maind])
    {
      c, maind, news, done := SweepLevel(db, rq, a, c, maind, news, whole, users0, BuyAhead(a, rq.price));
      BuyAheadStep(a, rq.price);
      a := a + 1;
      if done { break; }
    }
    SweepProgressEnds(whole, users0, rq, db.Levels(), BuyAhead(a, rq.price), c, done, news, db.mains[rq.user := maind]);
  }

  /** A sell order meets the buy lists from the top price down to its limit. */
  method SweepSell(db: MarketStore, rq: Request, maind0: User) returns (c: int, maind: User, news: seq<Fill>)
    requires db.Valid() && 0 <= rq.user < |db.mains|
    requires ValidKey(rq.resource, rq.action, rq.price) && rq.action == SELL
    modifies db
    ensures db.Valid() && |db.mains| == |old(db.mains)| && db.num == old(db.num)
    ensures var s := BookSweep(old(db.Levels()), rq);
            && db.Levels() == s.levels && news == s.fills && c == s.left
            && db.mains[rq.user := maind] == Settle(old(db.mains)[rq.user := maind0], rq.user, rq.action, rq.resource, s.fills)
  {
    hide ShapeOf, IndexAgrees, SweepProgress, BookSweep, Settle, BuyAhead, SellAhead;
    c, maind, news := rq.quantity, maind0, [];
    ghost var users0, whole := db.mains[rq.user := maind0], BookSweep(db.Levels(), rq);
    SweepProgressStarts(db.Levels(), users0, rq);
    assert db.mains[rq.user := maind] == users0;
    var a, done := PRICE_RANGE - 1, false;
    while a >= rq.price
      invariant db.Valid() && |db.mains| == |old(db.mains)| && db.num == old(db.num)
      invariant rq.price - 1 <= a < PRICE_RANGE && !done
      invariant SweepProgress(whole, users0, rq, db.Levels(), SellAhead(a, rq.price), c, false, news, db.mains[rq.user := maind])
    {
      c, maind, news, done := SweepLevel(db, rq, a, c, maind, news, whole, users0, SellAhead(a, rq.price));
      SellAheadStep(a, rq.price);
      a := a - 1;
      if done { break; }
    }
    SweepProgressEnds(whole, users0, rq, db.Levels(), SellAhead(a, rq.price), c, done, news, db.mains[rq.user := maind]);
  }

  lemma LevelFacts(db: MarketStore, k: int)
    requires db.Valid() && 0 <= k < LEVELS
    ensures forall i :: 0 <= i < |db.Levels()[k]| ==>
              0 <= db.Levels()[k][i].id < SLOT_LIMIT
    ensures forall i, j :: 0 <= i < j < |db.Levels()[k]| ==> db.Levels()[k][i].id != db.Levels()[k][j].id
  {
    assert HeadFits(db.heads[k], db.slots, db.queues[k]);
    BookDistinct(db.heads, db.slots, db.lfree, db.queues, db.frees, db.place);
  }

  lemma SlotsNotNegative(db: MarketStore)
    requires db.Valid()
    ensures Unused(db.Levels(), -1)
  {
    forall k | 0 <= k < LEVELS
      ensures forall i :: 0 <= i < |db.Levels()[k]| ==> db.Levels()[k][i].id != -1
    {
      LevelFacts(db, k);
    }
  }

  /** The unmatched rest of an order goes to the end of its price list and of its owner's list. */
  method RestBid(db: MarketStore, rq: Request, c: int) returns (slot: int)
    requires db.Valid() && ValidKey(rq.resource, rq.action, rq.price) && 0 <= rq.user < |db.mains|
    requires db.num < SLOT_LIMIT
    modifies db
    ensures db.Valid() && db.mains == old(db.mains)
    ensures Unused(old(db.Levels()), slot)
    ensures var k := LevelOf(rq.resource, rq.action, rq.price);
            db.Levels() == old(db.Levels())[k := old(db.Levels())[k] + [Order(slot, rq.user, c)]]
  {
    hide ShapeOf, IndexAgrees;
    slot := db.MarketAdd(rq.resource, rq.action, rq.price, c, rq.user);
    IndexAfterAdd(old(db.Levels()), db.bids, rq.user, UserBid(rq.action, rq.resource, rq.price, c, slot));
    db.UserMarketAdd(rq.user, slot, rq.action, rq.resource, rq.price, c);
  }

  const YES := 1
  const FAILED := -3

  /** What a negative quantity adds to an order, and the price of it, must fit 32 bits. */
  ghost predicate InRange32(levels: seq<seq<Order>>, rq: Request) {
    rq.quantity < 0 ==>
      && rq.price * rq.quantity >= -0x8000_0000
      && forall k, i :: 0 <= k < |levels| && 0 <= i < |levels[k]| ==> levels[k][i].qty - rq.quantity < 0x8000_0000
  }

  /** cmdExecAddBid, for any quantity. */
  method AddBid(db: MarketStore, started: bool, rq: Request) returns (code: int, slot: int, news: seq<Fill>)
    requires db.Valid() && InRange32(db.Levels(), rq) && db.num < SLOT_LIMIT
    modifies db
    ensures db.Valid()
    ensures code == YES || code == FAILED
    ensures code == YES <==>
              && started && 0 <= rq.resource <= 2 && 0 <= rq.action <= 1 && 1 <= rq.price <= 250
              && rq.quantity <= 2000000000 / rq.price
              && 0 <= rq.user < |old(db.mains)| && old(db.mains)[rq.user].empire != -1
              && if rq.action == BUY then old(db.mains)[rq.user].ressource[ENERGY] >= rq.price * rq.quantity
                 else old(db.mains)[rq.user].ressource[rq.resource + 1] >= rq.quantity
    ensures code == YES ==> Purses(old(db.mains), db.mains, rq, news) && Matching(old(db.Levels()), db.Levels(), rq, slot, news)
    ensures code == FAILED ==> db.Abs() == old(db.Abs()) && db.bids == old(db.bids) && news == []
    ensures code == YES ==>
              && news == BookSweep(old(db.Levels()), rq).fills
              && Unused(BookSweep(old(db.Levels()), rq).levels, slot)
              && (rq.quantity >= 0 ==> Enabled(old(db.Abs()), Place(rq, slot)))
              && db.Abs() == Step(old(db.Abs()), Place(rq, slot))
    ensures old(db.Sound()) && code == FAILED ==> db.Sound()
    ensures old(db.Sound()) && code == YES ==> (db.Sound() <==> rq.quantity >= 0 || Matchable(old(db.Levels()), rq))
  {
    hide ShapeOf, IndexAgrees, Settle, BookSweep, Deposit, NeverCrossed, WellFormed, Matchable, Purses, Matching;
    code, slot, news := FAILED, -1, [];
    SoundIs(db);
    if !(0 <= rq.resource < 3) || !(0 <= rq.action < 2) || !started { return; }
    if rq.price == 0 || !(0 <= rq.price < PRICE_RANGE) || rq.quantity > 2000000000 / rq.price { return; }
    if !(0 <= rq.user < |db.mains|) { return; }
    var maind := db.mains[rq.user];
    if maind.empire == -1 { return; }
    var cost := rq.price * rq.quantity;
    if rq.action == BUY {
      if maind.ressource[ENERGY] < cost { return; }
      maind := maind.(ressource := maind.ressource[ENERGY := maind.ressource[ENERGY] - cost]);
    } else {
      if maind.ressource[rq.resource + 1] < rq.quantity { return; }
      maind := maind.(ressource := maind.ressource[rq.resource + 1 := maind.ressource[rq.resource + 1] - rq.quantity]);
    }
    DepositIs(db.mains, rq, maind);
    var c;
    if rq.action == BUY { c, maind, news := SweepBuy(db, rq, maind); }
    else { c, maind, news := SweepSell(db, rq, maind); }
    db.mains := db.mains[rq.user := maind];
    SlotsNotNegative(db);
    if c != 0 { slot := RestBid(db, rq, c); }
    code := YES;
    PlaceMatches(old(db.Abs()), rq, slot);
    PlacePays(old(db.mains), rq, news);
    SoundIs(db);
    if old(db.Sound()) { PlaceKeepsInvariantIff(old(db.Abs()), rq, slot); }
  }

  lemma DepositIs(users: seq<User>, rq: Request, maind: User)
    requires 0 <= rq.resource < 3 && 0 <= rq.user < |users|
    requires var k := if rq.action == BUY then ENERGY else rq.resource + 1;
             var d := if rq.action == BUY then rq.price * rq.quantity else rq.quantity;
             maind == users[rq.user].(ressource := users[rq.user].ressource[k := users[rq.user].ressource[k] - d])
    ensures users[rq.user := maind] == Deposit(users, rq)
  {
  }

  /** The store is sound exactly when the market it stands for is. */
  lemma SoundIs(db: MarketStore)
    requires db.Valid()
    ensures db.Sound() <==> Invariant(db.Abs())
  {
    StoreDistinct(db);
  }

  ghost function WithdrawalOf(id: int, r: UserBid): (op: Op)
    requires ValidKey(r.resource, r.action, r.price)
    ensures op.Withdraw? && 0 <= op.k < LEVELS
  {
    Withdraw(LevelOf(r.resource, r.action, r.price), Order(r.bidid, id, r.quantity))
  }

  /** A purse before and after the energy behind one's purchases or the goods behind one's sales have come back. */
  ghost predicate Repaid(b: User, a: User, bids: seq<UserBid>) {
    && a.empire == b.empire
    && forall k :: 0 <= k < 4 ==>
         a.ressource[k] == b.ressource[k]
           + if bids == [] || k != (if bids[0].action == BUY then ENERGY else bids[0].resource + 1) then 0
             else if bids[0].action == BUY then bids[0].quantity * bids[0].price
             else bids[0].quantity
  }

  method RemoveBid(db: MarketStore, id: int, bidid: int) returns (code: int)
    requires db.Valid()
    modifies db
    ensures db.Valid()
    ensures code == FAILED ==> db.Abs() == old(db.Abs()) && db.bids == old(db.bids)
    ensures code == YES <==> 0 <= id < |old(db.bids)| && exists r :: r in old(db.bids)[id] && r.bidid == bidid
    ensures code == YES ==>
              exists r :: r in old(db.bids)[id] && r.bidid == bidid && InBook(old(db.Levels()), id, r)
                && Enabled(old(db.Abs()), WithdrawalOf(id, r)) && db.Abs() == Step(old(db.Abs()), WithdrawalOf(id, r))
                && |db.mains| == |old(db.mains)|
                && forall u :: 0 <= u < |db.mains| ==> Repaid(old(db.mains)[u], db.mains[u], if u == id then [r] else [])
    ensures old(db.Sound()) ==> db.Sound()
  {
    hide ShapeOf, NeverCrossed, WellFormed, Without;
    SoundIs(db);
    if !(0 <= id < |db.bids|) { return FAILED; }
    var ibuffer := db.bids[id];
    var a := 0;
    while a < |ibuffer|
      invariant 0 <= a <= |ibuffer| && db.Valid() && db.Abs() == old(db.Abs()) && db.bids == old(db.bids)
      invariant forall j :: 0 <= j < a ==> ibuffer[j].bidid != bidid
    {
      var r := ibuffer[a];
      if r.bidid == bidid {
        assert r in old(db.bids)[id] && InBook(db.Levels(), id, r);
        Refund(db, id, r);
        SoundIs(db);
        if old(db.Sound()) { StepKeepsInvariant(old(db.Abs()), WithdrawalOf(id, r)); }
        return YES;
      }
      a := a + 1;
    }
    code := FAILED;
  }

  /** The purse to which the energy or the goods behind a bid have gone back. */
  function Refunded(purse: User, r: UserBid): User
    requires 0 <= r.resource < 3
  {
    if r.action == BUY then
      purse.(ressource := purse.ressource[ENERGY := purse.ressource[ENERGY] + r.quantity * r.price])
    else
      purse.(ressource := purse.ressource[r.resource + 1 := purse.ressource[r.resource + 1] + r.quantity])
  }

  lemma RefundIs(w: World, id: int, r: UserBid, i: nat)
    requires |w.levels| == LEVELS && 0 <= id < |w.users| && ValidKey(r.resource, r.action, r.price)
    requires var q := w.levels[LevelOf(r.resource, r.action, r.price)];
             && i < |q| && q[i] == Order(r.bidid, id, r.quantity)
             && forall x, y :: 0 <= x < y < |q| ==> q[x].id != q[y].id
    ensures var k := LevelOf(r.resource, r.action, r.price);
            OrderWorld.RemoveBid(w, k, Order(r.bidid, id, r.quantity))
              == World(w.levels[k := w.levels[k][..i] + w.levels[k][i+1..]], w.users[id := Refunded(w.users[id], r)])
  {
    hide Without;
    LevelRoundTrip(r.resource, r.action, r.price);
    WithoutAt(w.levels[LevelOf(r.resource, r.action, r.price)], i);
  }

  /** The energy or the goods behind a bid go back to its owner and the bid disappears. */
  method Refund(db: MarketStore, id: int, r: UserBid)
    requires db.Valid() && 0 <= id < |db.mains| && InBook(db.Levels(), id, r)
    modifies db
    ensures db.Valid()
    ensures db.Abs() == OrderWorld.RemoveBid(old(db.Abs()), LevelOf(r.resource, r.action, r.price),
                                             Order(r.bidid, id, r.quantity))
    ensures db.mains == old(db.mains)[id := Refunded(old(db.mains)[id], r)]
  {
    hide ShapeOf, IndexAgrees, Without, OrderWorld.RemoveBid, SwapRemove;
    var maind := db.mains[id];
    if r.action == BUY {
      maind := maind.(ressource := maind.ressource[ENERGY := maind.ressource[ENERGY] + r.quantity * r.price]);
    } else {
      maind := maind.(ressource := maind.ressource[r.resource + 1 := maind.ressource[r.resource + 1] + r.quantity]);
    }
    ghost var k := LevelOf(r.resource, r.action, r.price);
    ghost var q := db.Levels()[k];
    ghost var i :| 0 <= i < |q| && q[i] == Order(r.bidid, id, r.quantity);
    LevelFacts(db, k);
    RefundIs(db.Abs(), id, r, i);
    db.mains := db.mains[id := maind];
    DropBid(db, id, r.resource, r.action, r.price, r.bidid, i);
  }

  lemma StoreDistinct(db: MarketStore)
    requires db.Valid()
    ensures DistinctSlots(db.Levels())
  {
    BookDistinct(db.heads, db.slots, db.lfree, db.queues, db.frees, db.place);
  }
}
