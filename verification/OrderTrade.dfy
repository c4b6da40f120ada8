/** What one order does, in numbers: who gets what, who is served, and where the rest of the order goes. */
module OrderTrade {
  import opened OrderBook
  import opened OrderWorld

  // ---------------------------------------------------------------- the purses

  /** The fills of one owner's orders. */
  function Of(fills: seq<Fill>, u: int): seq<Fill> {
    if fills == [] then [] else (if fills[0].owner == u then [fills[0]] else []) + Of(fills[1..], u)
  }

  lemma {:induction false} OfConcat(a: seq<Fill>, b: seq<Fill>, u: int)
    ensures Of(a + b, u) == Of(a, u) + Of(b, u)
  {
    hide Of;
    OfStep(a, u);
    OfStep(a + b, u);
    if a == [] {
      assert a + b == b && [] + Of(b, u) == Of(b, u);
    } else {
      assert (a + b)[0] == a[0] && (a + b)[1..] == a[1..] + b;
      OfConcat(a[1..], b, u);
      Glue(if a[0].owner == u then [a[0]] else [], Of(a[1..], u), Of(b, u));
    }
  }

  lemma OfStep(fills: seq<Fill>, u: int)
    ensures Of(fills, u) ==
            if fills == [] then [] else (if fills[0].owner == u then [fills[0]] else []) + Of(fills[1..], u)
  {
  }

  lemma Glue(a: seq<Fill>, b: seq<Fill>, c: seq<Fill>)
    ensures a + (b + c) == (a + b) + c
  {
  }

  lemma OneFill(f: Fill, u: int)
    ensures FillQty([f]) == f.amount && Cost([f]) == f.price * f.amount
    ensures Of([f], u) == if f.owner == u then [f] else []
    ensures FillQty([]) == 0 && Cost([]) == 0 && Of([], u) == []
  {
    assert [f][1..] == [];
  }

  /** What a purse item of user `u` gains by the fills: the taker buys what the owners of the orders sell, or sells
      what they buy; whoever sells gets price times amount of every fill. */
  function Gets(u: int, k: int, taker: int, action: int, resource: int, fills: seq<Fill>): int {
    if action == BUY then
      (if k == resource + 1 && u == taker then FillQty(fills) else 0) + (if k == ENERGY then Cost(Of(fills, u)) else 0)
    else
      (if k == ENERGY && u == taker then Cost(fills) else 0) + (if k == resource + 1 then FillQty(Of(fills, u)) else 0)
  }

  lemma {:induction false} SettleEach(users: seq<User>, u: int, k: int, taker: int, action: int, resource: int, fills: seq<Fill>)
    requires 0 <= resource < 3 && 0 <= u < |users| && 0 <= k < 4 && 0 <= taker < |users|
    ensures var s := Settle(users, taker, action, resource, fills);
            && s[u].empire == users[u].empire
            && s[u].ressource[k] == users[u].ressource[k] + Gets(u, k, taker, action, resource, fills)
    decreases |fills|
  {
    hide Settle, SettleOne, Gets;
    if fills == [] {
      GetsNothing(u, k, taker, action, resource);
      SettleLast(users, taker, action, resource, fills);
    } else {
      var front, f := fills[..|fills|-1], fills[|fills|-1];
      SettleEach(users, u, k, taker, action, resource, front);
      SettleLast(users, taker, action, resource, fills);
      SettleOneEach(Settle(users, taker, action, resource, front), u, k, taker, action, resource, f);
      assert fills == front + [f];
      GetsMore(u, k, taker, action, resource, front, f);
    }
  }

  lemma SettleLast(users: seq<User>, taker: int, action: int, resource: int, fills: seq<Fill>)
    requires 0 <= resource < 3
    ensures Settle(users, taker, action, resource, fills) ==
            if fills == [] then users
            else SettleOne(Settle(users, taker, action, resource, fills[..|fills|-1]), taker, action, resource, fills[|fills|-1])
  {
  }

  /** One fill: goods to the side that buys, energy to the side that sells, also when both are one user. */
  lemma SettleOneEach(users: seq<User>, u: int, k: int, taker: int, action: int, resource: int, f: Fill)
    requires 0 <= resource < 3 && 0 <= u < |users| && 0 <= k < 4 && 0 <= taker < |users|
    ensures var s := SettleOne(users, taker, action, resource, f);
            && s[u].empire == users[u].empire
            && s[u].ressource[k] == users[u].ressource[k]
               + (if k == resource + 1 && u == (if action == 0 then taker else f.owner) then f.amount else 0)
               + (if k == 0 && u == (if action == 0 then f.owner else taker) then f.price * f.amount else 0)
  {
  }

  lemma GetsNothing(u: int, k: int, taker: int, action: int, resource: int)
    ensures Gets(u, k, taker, action, resource, []) == 0
  {
    OneFill(Fill(0, 0, 0, 0), u);
  }

  lemma GetsMore(u: int, k: int, taker: int, action: int, resource: int, front: seq<Fill>, f: Fill)
    requires 0 <= resource < 3
    ensures Gets(u, k, taker, action, resource, front + [f]) == Gets(u, k, taker, action, resource, front)
              + (if k == resource + 1 && u == (if action == 0 then taker else f.owner) then f.amount else 0)
              + (if k == 0 && u == (if action == 0 then f.owner else taker) then f.price * f.amount else 0)
  {
    hide Of, FillQty, Cost;
    OneFill(f, u);
    OfConcat(front, [f], u);
    FillsConcat(front, [f]);
    FillsConcat(Of(front, u), Of([f], u));
    assert Of(front, u) + [] == Of(front, u);
  }

  /** After an order, by user: a buyer pays its limit price for the whole quantity up front and gets the goods; a seller
      puts up the goods and gets the energy; the owner of an order that is served gets his part at his own price. */
  ghost predicate Purses(before: seq<User>, after: seq<User>, rq: Request, fills: seq<Fill>)
    requires 0 <= rq.resource < 3
  {
    && |after| == |before|
    && forall u :: 0 <= u < |before| ==> Share(before[u], after[u], u, rq, fills)
  }

  ghost predicate Share(b: User, a: User, u: int, rq: Request, fills: seq<Fill>)
    requires 0 <= rq.resource < 3
  {
    && a.empire == b.empire
    && (forall k :: 0 < k < 4 && k != rq.resource + 1 ==> a.ressource[k] == b.ressource[k])
    && (rq.action == BUY ==>
          && a.ressource[ENERGY] == b.ressource[ENERGY] + Cost(Of(fills, u)) - (if u == rq.user then rq.price * rq.quantity else 0)
          && a.ressource[rq.resource + 1] == b.ressource[rq.resource + 1] + (if u == rq.user then FillQty(fills) else 0))
    && (rq.action != BUY ==>
          && a.ressource[ENERGY] == b.ressource[ENERGY] + (if u == rq.user then Cost(fills) else 0)
          && a.ressource[rq.resource + 1] ==
               b.ressource[rq.resource + 1] + FillQty(Of(fills, u)) - (if u == rq.user then rq.quantity else 0))
  }

  lemma PlacePays(users: seq<User>, rq: Request, fills: seq<Fill>)
    requires 0 <= rq.resource < 3 && 0 <= rq.user < |users|
    ensures Purses(users, Settle(Deposit(users, rq), rq.user, rq.action, rq.resource, fills), rq, fills)
  {
    hide Settle, Of, FillQty, Cost;
    var paid := Deposit(users, rq);
    var after := Settle(paid, rq.user, rq.action, rq.resource, fills);
    forall u | 0 <= u < |users| ensures Share(users[u], after[u], u, rq, fills) {
      SettleEach(paid, u, 0, rq.user, rq.action, rq.resource, fills);
      SettleEach(paid, u, 1, rq.user, rq.action, rq.resource, fills);
      SettleEach(paid, u, 2, rq.user, rq.action, rq.resource, fills);
      SettleEach(paid, u, 3, rq.user, rq.action, rq.resource, fills);
    }
  }

  // ---------------------------------------------------------------- the book

  lemma {:induction false} TakeLeft(line: seq<Resting>, c: int)
    ensures Take(line, c).left == c - FillQty(Take(line, c).fills)
    ensures Take(line, c).left != 0 ==> Take(line, c).rest == []
  {
    if line != [] {
      var o, t := line[0].order, Take(line, c);
      if c < o.qty {
        assert t.fills[1..] == [];
      } else if c == o.qty {
        assert t.fills[1..] == [];
      } else {
        TakeLeft(line[1..], c - o.qty);
        assert t.fills[1..] == Take(line[1..], c - o.qty).fills;
      }
    }
  }

  /** The orders that an order may trade with, best price first and oldest first within a price. */
  ghost function Counterpart(levels: seq<seq<Order>>, rq: Request): seq<Resting>
    requires |levels| == LEVELS && ValidKey(rq.resource, rq.action, rq.price)
  {
    Line(levels, LevelOf(rq.resource, 1 - rq.action, 0), LimitPrices(rq.action, rq.price))
  }

  /** A buyer meets the sales up to his price, the lowest first, a seller the purchases from his price on, the highest
      first. */
  lemma CounterpartIs(levels: seq<seq<Order>>, rq: Request)
    requires |levels| == LEVELS && ValidKey(rq.resource, rq.action, rq.price)
    ensures var line := Counterpart(levels, rq);
            && (forall price, o :: Resting(price, o) in line <==>
                  && 0 <= price <= 250 && (if rq.action == 0 then price <= rq.price else price >= rq.price)
                  && o in levels[LevelOf(rq.resource, 1 - rq.action, price)])
            && forall i, j :: 0 <= i < j < |line| ==>
                 if rq.action == 0 then line[i].price <= line[j].price else line[i].price >= line[j].price
  {
    hide Line, LimitPrices;
    var base, prices := LevelOf(rq.resource, 1 - rq.action, 0), LimitPrices(rq.action, rq.price);
    LineHas(levels, base, prices, rq.action == BUY);
  }

  lemma {:induction false} LineHas(levels: seq<seq<Order>>, base: int, prices: seq<int>, rising: bool)
    requires InBand(levels, base, prices)
    requires forall i, j :: 0 <= i < j < |prices| ==> if rising then prices[i] < prices[j] else prices[i] > prices[j]
    ensures var line := Line(levels, base, prices);
            && (forall r :: r in line <==> r.price in prices && r.order in levels[base + r.price])
            && forall i, j :: 0 <= i < j < |line| ==>
                 if rising then line[i].price <= line[j].price else line[i].price >= line[j].price
  {
    if prices != [] {
      LineHas(levels, base, prices[1..], rising);
      var front, back := AtPrice(prices[0], levels[base + prices[0]]), Line(levels, base, prices[1..]);
      assert forall r :: r in front <==> r.price == prices[0] && r.order in levels[base + r.price];
      assert forall x :: x in prices <==> x == prices[0] || x in prices[1..];
      forall j | 0 <= j < |back| ensures back[j].price in prices[1..] { assert back[j] in back; }
    }
  }

  /** The counterpart is served from its front, all but the last one served whole; what is not matched goes to the end
      of the order's own level, and only when nobody is left to match; nothing else changes. */
  ghost predicate Matching(before: seq<seq<Order>>, after: seq<seq<Order>>, rq: Request, slot: int, fills: seq<Fill>)
    requires |before| == LEVELS && ValidKey(rq.resource, rq.action, rq.price)
  {
    var line, left, own := Counterpart(before, rq), rq.quantity - FillQty(fills), LevelOf(rq.resource, rq.action, rq.price);
    && |after| == LEVELS
    && ServesPrefix(line, Taken(Counterpart(after, rq), fills, left))
    && (fills == [] <==> line == []) && (left != 0 ==> Counterpart(after, rq) == [])
    && after[own] == before[own] + (if left != 0 then [Order(slot, rq.user, left)] else [])
    && forall k :: 0 <= k < LEVELS && k != own && !Tradable(rq, k) ==> after[k] == before[k]
  }

  /** Level `k` holds orders that `rq` may trade with. */
  predicate Tradable(rq: Request, k: int) {
    ResourceOf(k) == rq.resource && ActionOf(k) != rq.action && Marketable(rq.action, rq.price, PriceOf(k))
  }

  lemma PlaceMatches(w: World, rq: Request, slot: int)
    requires |w.levels| == LEVELS && ValidKey(rq.resource, rq.action, rq.price)
    ensures Matching(w.levels, AddBid(w, rq, slot).levels, rq, slot, BookSweep(w.levels, rq).fills)
  {
    hide Sweep, Take, Line, FillQty, Remainder, Serves, ServesPrefix, LimitPrices, LevelOf, Tradable, Settle, Deposit;
    var base, prices, own := LevelOf(rq.resource, 1 - rq.action, 0), LimitPrices(rq.action, rq.price), LevelOf(rq.resource, rq.action, rq.price);
    var s, line, after := BookSweep(w.levels, rq), Counterpart(w.levels, rq), AddBid(w, rq, slot).levels;
    OwnLevel(rq);
    SweepIsPriceTime(w.levels, base, prices, rq.quantity);
    TakeServesAPrefix(line, rq.quantity);
    TakeLeft(line, rq.quantity);
    assert after == if s.left != 0 then s.levels[own := s.levels[own] + [Order(slot, rq.user, s.left)]] else s.levels;
    assert s.levels[own] + [] == s.levels[own];
    LineFrame(s.levels, after, base, prices);
  }

  /** An order's own level is none of those it may trade with. */
  lemma OwnLevel(rq: Request)
    requires ValidKey(rq.resource, rq.action, rq.price)
    ensures var base, prices := LevelOf(rq.resource, 1 - rq.action, 0), LimitPrices(rq.action, rq.price);
            && (forall k :: 0 <= k < LEVELS && !Tradable(rq, k) ==> k - base !in prices)
            && (forall i :: 0 <= i < |prices| ==> base + prices[i] != LevelOf(rq.resource, rq.action, rq.price))
            && LevelOf(rq.resource, rq.action, rq.price) - base !in prices
            && DistinctInts(prices) && forall i :: 0 <= i < |prices| ==> 0 <= base + prices[i] < LEVELS
  {
    var base, prices := LevelOf(rq.resource, 1 - rq.action, 0), LimitPrices(rq.action, rq.price);
    var own := LevelOf(rq.resource, rq.action, rq.price);
    forall k | 0 <= k < LEVELS && k - base in prices ensures Tradable(rq, k) && k != own {
      LevelRoundTrip(rq.resource, 1 - rq.action, k - base);
      LevelRoundTrip(rq.resource, rq.action, rq.price);
    }
    forall i | 0 <= i < |prices| ensures base + prices[i] != own {
      assert base + prices[i] - base in prices;
    }
  }

  // ---------------------------------------------------------------- an example

  /** Somebody who sells 10 units at 5 and somebody else who buys them, at 5 or more. */
  lemma TenAtFive(levels: seq<seq<Order>>, users: seq<User>, price: int, slot: int, id: int)
    requires |levels| == LEVELS && 5 <= price < PRICE_RANGE && |users| == 2
    requires Counterpart(levels, Request(0, BUY, 0, price, 10)) == [Resting(5, Order(id, 1, 10))]
    ensures var rq, w := Request(0, BUY, 0, price, 10), AddBid(World(levels, users), Request(0, BUY, 0, price, 10), slot);
            && w.users[0].ressource[ENERGY] == users[0].ressource[ENERGY] - 10 * price
            && w.users[0].ressource[1] == users[0].ressource[1] + 10
            && w.users[1].ressource[ENERGY] == users[1].ressource[ENERGY] + 50
            && w.users[1].ressource[1] == users[1].ressource[1]
  {
    hide AddBid, Settle, Deposit, BookSweep;
    var rq := Request(0, BUY, 0, price, 10);
    var fills := BookSweep(levels, rq).fills;
    PlaceMatches(World(levels, users), rq, slot);
    PlaceWorld(World(levels, users), rq, slot);
    PlacePays(users, rq, fills);
    var f := fills[0];
    assert fills == [f] && Serves(Resting(5, Order(id, 1, 10)), f);
    OneFill(f, 0);
    OneFill(f, 1);
    var after := AddBid(World(levels, users), rq, slot);
    assert Share(users[0], after.users[0], 0, rq, fills) && Share(users[1], after.users[1], 1, rq, fills);
  }

  lemma PlaceWorld(w: World, rq: Request, slot: int)
    requires |w.levels| == LEVELS && ValidKey(rq.resource, rq.action, rq.price)
    ensures AddBid(w, rq, slot).users == Settle(Deposit(w.users, rq), rq.user, rq.action, rq.resource, BookSweep(w.levels, rq).fills)
  {
  }
}
