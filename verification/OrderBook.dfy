/** The market as the players see it: price levels holding queues of resting orders, and the
    holdings of every user. The matcher here works on sequences only; `MarketFile` shows that
    the slot-and-link files implement it. */
module OrderBook {

  const PRICE_RANGE := 251
  const LEVELS := 1506
  const BUY := 0
  const SELL := 1
  const ENERGY := 0

  /** A resting order: the slot it occupies, its owner, and what is left of it. */
  datatype Order = Order(id: int, owner: int, qty: int)

  /** One execution against a resting order, as reported to its owner. */
  datatype Fill = Fill(price: int, id: int, owner: int, amount: int)

  type Purse = s: seq<int> | |s| == 4 witness [0, 0, 0, 0]
  datatype User = User(empire: int, ressource: Purse)

  datatype World = World(levels: seq<seq<Order>>, users: seq<User>)

  predicate ValidKey(resource: int, action: int, price: int) {
    0 <= resource < 3 && 0 <= action < 2 && 0 <= price < PRICE_RANGE
  }

  /** The heads of the price lists are stored resource by resource, side by side, price by price. */
  function LevelOf(resource: int, action: int, price: int): (k: int)
    requires ValidKey(resource, action, price)
    ensures 0 <= k < LEVELS
  {
    resource * 2 * PRICE_RANGE + action * PRICE_RANGE + price
  }

  function PriceOf(level: int): int { level % PRICE_RANGE }
  function ActionOf(level: int): int { (level / PRICE_RANGE) % 2 }
  function ResourceOf(level: int): int { level / (2 * PRICE_RANGE) }

  lemma LevelRoundTrip(resource: int, action: int, price: int)
    requires ValidKey(resource, action, price)
    ensures var k := LevelOf(resource, action, price);
            ResourceOf(k) == resource && ActionOf(k) == action && PriceOf(k) == price
  {
  }

  // ---------------------------------------------------------------- matching

  datatype Matched = Matched(rest: seq<Order>, fills: seq<Fill>, left: int)

  /** Matching an incoming quantity `c`, whatever its sign, against one price level, oldest order first. It ends
      when an order has been served and nothing is left. */
  function FillQueue(q: seq<Order>, price: int, c: int): Matched {
    if q == [] then Matched(q, [], c)
    else
      var o := q[0];
      if c < o.qty then Matched([o.(qty := o.qty - c)] + q[1..], [Fill(price, o.id, o.owner, c)], 0)
      else
        var m := if c == o.qty then Matched(q[1..], [], 0) else FillQueue(q[1..], price, c - o.qty);
        m.(fills := [Fill(price, o.id, o.owner, o.qty)] + m.fills)
  }

  predicate Served(fills: seq<Fill>, left: int) {
    fills != [] && left == 0
  }

  datatype Swept = Swept(levels: seq<seq<Order>>, fills: seq<Fill>, left: int)

  ghost predicate InBand(levels: seq<seq<Order>>, base: int, prices: seq<int>) {
    forall i :: 0 <= i < |prices| ==> 0 <= base + prices[i] < |levels|
  }

  /** Matching against the levels `base + prices[0]`, `base + prices[1]`, ... in turn. */
  function Sweep(levels: seq<seq<Order>>, base: int, prices: seq<int>, c: int): (s: Swept)
    requires InBand(levels, base, prices)
    ensures |s.levels| == |levels|
    decreases |prices|
  {
    if prices == [] then Swept(levels, [], c)
    else
      var m := FillQueue(levels[base + prices[0]], prices[0], c);
      var levels1 := levels[base + prices[0] := m.rest];
      var s := if Served(m.fills, m.left) then Swept(levels1, [], 0) else Sweep(levels1, base, prices[1..], m.left);
      s.(fills := m.fills + s.fills)
  }

  lemma SweepHead(levels: seq<seq<Order>>, base: int, prices: seq<int>, c: int, m: Matched)
    requires InBand(levels, base, prices) && prices != [] && m == FillQueue(levels[base + prices[0]], prices[0], c)
    ensures var levels1 := levels[base + prices[0] := m.rest];
            var s := if Served(m.fills, m.left) then Swept(levels1, [], m.left) else Sweep(levels1, base, prices[1..], m.left);
            Sweep(levels, base, prices, c) == s.(fills := m.fills + s.fills)
  {
    hide FillQueue;
  }

  /** A buy order meets sell orders from price 0 up to its own limit ... */
  function BuyPrices(price: int): (p: seq<int>)
    requires 0 <= price < PRICE_RANGE
  {
    seq(price + 1, i => i)
  }

  /** ... a sell order meets buy orders from the top price down to its own limit. */
  function SellPrices(price: int): (p: seq<int>)
    requires 0 <= price < PRICE_RANGE
  {
    seq(PRICE_RANGE - price, i => PRICE_RANGE - 1 - i)
  }

  /** The prices an order with this limit may trade at. */
  predicate Marketable(action: int, limit: int, p: int) {
    0 <= p < PRICE_RANGE && if action == BUY then p <= limit else p >= limit
  }

  function LimitPrices(action: int, price: int): (p: seq<int>)
    requires 0 <= price < PRICE_RANGE
    ensures forall i :: 0 <= i < |p| ==> 0 <= p[i] < PRICE_RANGE
    ensures forall x :: x in p <==> Marketable(action, price, x)
    ensures forall i, j :: 0 <= i < j < |p| ==> if action == BUY then p[i] < p[j] else p[i] > p[j]
  {
    var p := if action == BUY then BuyPrices(price) else SellPrices(price);
    assert forall x :: Marketable(action, price, x) ==> x in p by {
      forall x | Marketable(action, price, x) ensures x in p {
        assert p[if action == BUY then x else PRICE_RANGE - 1 - x] == x;
      }
    }
    p
  }

  // ------------------------------------------------- the reference: price-time priority

  datatype Resting = Resting(price: int, order: Order)
  datatype Taken = Taken(rest: seq<Resting>, fills: seq<Fill>, left: int)

  function AtPrice(price: int, q: seq<Order>): (r: seq<Resting>)
    ensures |r| == |q| && forall i :: 0 <= i < |q| ==> r[i] == Resting(price, q[i])
  {
    seq(|q|, i requires 0 <= i < |q| => Resting(price, q[i]))
  }

  /** All resting orders of the band as one line: best price first, oldest first within a price. */
  function Line(levels: seq<seq<Order>>, base: int, prices: seq<int>): seq<Resting>
    requires InBand(levels, base, prices)
  {
    if prices == [] then []
    else AtPrice(prices[0], levels[base + prices[0]]) + Line(levels, base, prices[1..])
  }

  function LineQty(line: seq<Resting>): int {
    if line == [] then 0 else line[0].order.qty + LineQty(line[1..])
  }

  function FillQty(fills: seq<Fill>): int {
    if fills == [] then 0 else fills[0].amount + FillQty(fills[1..])
  }

  /** Serving the line from its front until `c` is used up. */
  function Take(line: seq<Resting>, c: int): Taken {
    if line == [] then Taken(line, [], c)
    else
      var p, o := line[0].price, line[0].order;
      if c < o.qty then
        Taken([Resting(p, o.(qty := o.qty - c))] + line[1..], [Fill(p, o.id, o.owner, c)], 0)
      else
        var t := if c == o.qty then Taken(line[1..], [], 0) else Take(line[1..], c - o.qty);
        t.(fills := [Fill(p, o.id, o.owner, o.qty)] + t.fills)
  }

  ghost predicate PositiveLine(line: seq<Resting>) {
    forall i :: 0 <= i < |line| ==> line[i].order.qty > 0
  }

  /** `t` serves `line` from its front: the first orders in full, at most one more in part, and
      everybody behind stays as they were. */
  ghost predicate ServesPrefix(line: seq<Resting>, t: Taken) {
    && |t.fills| <= |line|
    && (forall i :: 0 <= i < |t.fills| ==> Serves(line[i], t.fills[i]))
    && (forall i :: 0 <= i < |t.fills| - 1 ==> t.fills[i].amount == line[i].order.qty)
    && t.rest == Remainder(line, t.fills)
  }

  ghost predicate Serves(r: Resting, f: Fill) {
    f.price == r.price && f.id == r.order.id && f.owner == r.order.owner && f.amount <= r.order.qty
  }

  /** What is left of a line of which the first |fills| orders were served. */
  ghost function Remainder(line: seq<Resting>, fills: seq<Fill>): seq<Resting>
    requires |fills| <= |line|
  {
    var n := |fills|;
    if n == 0 || fills[n-1].amount == line[n-1].order.qty then line[n..]
    else [line[n-1].(order := line[n-1].order.(qty := line[n-1].order.qty - fills[n-1].amount))] + line[n..]
  }

  lemma {:induction false} TakeServesAPrefix(line: seq<Resting>, c: int)
    ensures ServesPrefix(line, Take(line, c))
    ensures Take(line, c).fills == [] <==> line == []
    ensures PositiveLine(line) && c > 0 ==> forall i :: 0 <= i < |Take(line, c).fills| ==> Take(line, c).fills[i].amount > 0
  {
    if line != [] && c >= line[0].order.qty {
      var t := if c == line[0].order.qty then Taken(line[1..], [], 0) else Take(line[1..], c - line[0].order.qty);
      if c > line[0].order.qty { TakeServesAPrefix(line[1..], c - line[0].order.qty); }
      ServesPrefixCons(line, t);
    }
  }

  lemma ServesPrefixCons(line: seq<Resting>, t: Taken)
    requires line != [] && ServesPrefix(line[1..], t)
    ensures var o := line[0].order;
            ServesPrefix(line, t.(fills := [Fill(line[0].price, o.id, o.owner, o.qty)] + t.fills))
  {
    var o, tail := line[0].order, line[1..];
    var f := [Fill(line[0].price, o.id, o.owner, o.qty)] + t.fills;
    forall i | 0 <= i < |f| ensures Serves(line[i], f[i]) {
      if i > 0 { assert f[i] == t.fills[i-1] && line[i] == tail[i-1] && Serves(tail[i-1], t.fills[i-1]); }
    }
    forall i | 0 <= i < |f| - 1 ensures f[i].amount == line[i].order.qty {
      if i > 0 { assert f[i] == t.fills[i-1] && line[i] == tail[i-1]; }
    }
    assert tail[|t.fills|..] == line[|f|..];
    if |t.fills| > 0 { assert f[|f|-1] == t.fills[|t.fills|-1] && line[|f|-1] == tail[|t.fills|-1]; }
  }

  /** Exactly `c`, or everything on offer if that is less, changes hands; with quantity to spare nobody is left. */
  lemma {:induction false} TakeTotals(line: seq<Resting>, c: int)
    requires PositiveLine(line)
    ensures var t := Take(line, c);
            && FillQty(t.fills) == (if line != [] && c < LineQty(line) then c else LineQty(line))
            && t.left == c - FillQty(t.fills)
            && (t.left != 0 ==> t.rest == [])
  {
    LineQtyNonNeg(line);
    if line != [] {
      LineQtyNonNeg(line[1..]);
      var o, t := line[0].order, Take(line, c);
      if c < o.qty {
        assert FillQty(t.fills) == c + FillQty(t.fills[1..]);
      } else if c == o.qty {
        assert t.fills[1..] == [];
      } else {
        TakeTotals(line[1..], c - o.qty);
        assert t.fills[1..] == Take(line[1..], c - o.qty).fills;
      }
    }
  }

  lemma {:induction false} LineQtyNonNeg(line: seq<Resting>)
    requires PositiveLine(line)
    ensures LineQty(line) >= 0 && (line != [] ==> LineQty(line) > 0)
  {
    if line != [] { LineQtyNonNeg(line[1..]); }
  }

  /** Serving two lines standing one behind the other. */
  function TakeBoth(t: Taken, b: seq<Resting>): Taken {
    if Served(t.fills, t.left) then Taken(t.rest + b, t.fills, t.left)
    else var u := Take(b, t.left); Taken(u.rest, t.fills + u.fills, u.left)
  }

  lemma {:induction false} TakeConcat(a: seq<Resting>, b: seq<Resting>, c: int)
    ensures Take(a + b, c) == TakeBoth(Take(a, c), b)
    ensures a != [] ==> Take(a, c).fills != []
  {
    if a == [] {
      assert [] + b == b && [] + Take(b, c).fills == Take(b, c).fills;
    } else {
      var o, tail := a[0].order, a[1..];
      assert (a + b)[1..] == tail + b;
      if c < o.qty {
        var x := Resting(a[0].price, o.(qty := o.qty - c));
        assert ([x] + tail) + b == [x] + (tail + b);
      } else if c > o.qty {
        TakeConcat(tail, b, c - o.qty);
        TakeBothCons(Fill(a[0].price, o.id, o.owner, o.qty), Take(tail, c - o.qty), b);
      }
    }
  }

  lemma TakeBothCons(f: Fill, t: Taken, b: seq<Resting>)
    requires t.fills == [] ==> t.left != 0
    ensures TakeBoth(t.(fills := [f] + t.fills), b)
              == TakeBoth(t, b).(fills := [f] + TakeBoth(t, b).fills)
  {
    if !Served(t.fills, t.left) { assert ([f] + t.fills) + Take(b, t.left).fills == [f] + (t.fills + Take(b, t.left).fills); }
  }

  lemma {:induction false} FillQueueIsTake(q: seq<Order>, price: int, c: int)
    ensures var m := FillQueue(q, price, c);
            Take(AtPrice(price, q), c) == Taken(AtPrice(price, m.rest), m.fills, m.left)
  {
    if q != [] {
      var o := q[0];
      assert AtPrice(price, q)[1..] == AtPrice(price, q[1..]);
      if c < o.qty {
        var m := FillQueue(q, price, c);
        assert AtPrice(price, m.rest) == [Resting(price, o.(qty := o.qty - c))] + AtPrice(price, q[1..]);
      } else if c > o.qty {
        FillQueueIsTake(q[1..], price, c - o.qty);
      }
    }
  }

  ghost predicate Positive(q: seq<Order>) {
    forall i :: 0 <= i < |q| ==> q[i].qty > 0
  }

  ghost predicate PositiveLevels(levels: seq<seq<Order>>) {
    forall k :: 0 <= k < |levels| ==> Positive(levels[k])
  }

  ghost predicate DistinctInts(s: seq<int>) {
    forall i, j :: 0 <= i < j < |s| ==> s[i] != s[j]
  }

  lemma {:induction false} FillQueuePositive(q: seq<Order>, price: int, c: int)
    requires Positive(q)
    ensures Positive(FillQueue(q, price, c).rest)
    ensures q == [] ==> FillQueue(q, price, c).rest == []
    ensures FillQueue(q, price, c).left != 0 ==> FillQueue(q, price, c).rest == []
    ensures c >= 0 ==> FillQueue(q, price, c).left >= 0
    ensures FillQueue(q, price, c).fills == [] <==> q == []
  {
    if q != [] && c > q[0].qty { FillQueuePositive(q[1..], price, c - q[0].qty); }
  }

  lemma {:induction false} LineFrame(levels: seq<seq<Order>>, levels': seq<seq<Order>>, base: int, prices: seq<int>)
    requires InBand(levels, base, prices) && |levels'| == |levels|
    requires forall i :: 0 <= i < |prices| ==> levels[base + prices[i]] == levels'[base + prices[i]]
    ensures Line(levels, base, prices) == Line(levels', base, prices)
  {
    if prices != [] {
      assert forall i :: 0 <= i < |prices[1..]| ==> prices[1..][i] == prices[i+1];
      LineFrame(levels, levels', base, prices[1..]);
    }
  }

  lemma {:induction false} LinePositive(levels: seq<seq<Order>>, base: int, prices: seq<int>)
    requires InBand(levels, base, prices) && PositiveLevels(levels)
    ensures PositiveLine(Line(levels, base, prices))
  {
    if prices != [] { LinePositive(levels, base, prices[1..]); }
  }

  lemma {:induction false} SweepFrame(levels: seq<seq<Order>>, base: int, prices: seq<int>, c: int)
    requires InBand(levels, base, prices)
    ensures var s := Sweep(levels, base, prices, c);
            && (forall k :: 0 <= k < |levels| && k - base !in prices ==> s.levels[k] == levels[k])
            && (PositiveLevels(levels) ==> PositiveLevels(s.levels))
    decreases |prices|
  {
    hide FillQueue, Positive;
    if prices != [] {
      var m := FillQueue(levels[base + prices[0]], prices[0], c);
      if PositiveLevels(levels) { FillQueuePositive(levels[base + prices[0]], prices[0], c); }
      if !Served(m.fills, m.left) { SweepFrame(levels[base + prices[0] := m.rest], base, prices[1..], m.left); }
    }
  }

  lemma {:induction false} SweepIsTake(levels: seq<seq<Order>>, base: int, prices: seq<int>, c: int)
    requires InBand(levels, base, prices) && DistinctInts(prices)
    ensures var s, t := Sweep(levels, base, prices, c), Take(Line(levels, base, prices), c);
            s.fills == t.fills && s.left == t.left && Line(s.levels, base, prices) == t.rest
    decreases |prices|
  {
    hide Take, FillQueue, AtPrice;
    if prices == [] {
      TakeNothing(c);
    } else {
      var p, tail := prices[0], prices[1..];
      var q := levels[base + p];
      var m := FillQueue(q, p, c);
      var levels1 := levels[base + p := m.rest];
      FillQueueIsTake(q, p, c);
      LineFrame(levels, levels1, base, tail);
      TakeConcat(AtPrice(p, q), Line(levels, base, tail), c);
      assert p !in tail;
      if Served(m.fills, m.left) {
        assert m.fills + [] == m.fills;
      } else {
        SweepIsTake(levels1, base, tail, m.left);
        SweepFrame(levels1, base, tail, m.left);
        LeftNothing(q, p, c);
        NothingAtPrice(p);
        assert [] + Take(Line(levels1, base, tail), m.left).rest == Take(Line(levels1, base, tail), m.left).rest;
      }
    }
  }

  lemma TakeNothing(c: int)
    ensures Take([], c) == Taken([], [], c)
  {
  }

  lemma NothingAtPrice(p: int)
    ensures AtPrice(p, []) == []
  {
  }

  /** Unless the matching ends at this level, nobody is left at it. */
  lemma {:induction false} LeftNothing(q: seq<Order>, price: int, c: int)
    requires var m := FillQueue(q, price, c); !Served(m.fills, m.left)
    ensures FillQueue(q, price, c).rest == []
  {
    if q != [] && c > q[0].qty { LeftNothing(q[1..], price, c - q[0].qty); }
  }

  /** The level-by-level matcher serves exactly the price-time line: same executions in the same
      order, same residual line, and no level outside the band is touched. */
  lemma {:induction false} SweepIsPriceTime(levels: seq<seq<Order>>, base: int, prices: seq<int>, c: int)
    requires InBand(levels, base, prices) && DistinctInts(prices)
    ensures var s, t := Sweep(levels, base, prices, c), Take(Line(levels, base, prices), c);
            && s.fills == t.fills && s.left == t.left
            && Line(s.levels, base, prices) == t.rest
            && (forall k :: 0 <= k < |levels| && k - base !in prices ==> s.levels[k] == levels[k])
            && (PositiveLevels(levels) ==> PositiveLevels(s.levels))
  {
    SweepFrame(levels, base, prices, c);
    SweepIsTake(levels, base, prices, c);
  }
}
