/** Every run of market operations keeps the book well formed and uncrossed, creates neither goods
    nor energy, and loses energy by trading only where a buyer paid more than he was asked. */
module OrderRuns {
  import opened OrderBook
  import opened OrderWorld

  // ---------------------------------------------------------------- thinning a level

  /** `q'` keeps some orders of `q`, in order, each with its slot and its owner. */
  ghost predicate Thinned(q': seq<Order>, q: seq<Order>) {
    q' == [] ||
    (q != [] &&
     ((q'[0].id == q[0].id && q'[0].owner == q[0].owner && Thinned(q'[1..], q[1..])) || Thinned(q', q[1..])))
  }

  lemma {:induction false} ThinnedSelf(q: seq<Order>)
    ensures Thinned(q, q)
  {
    if q != [] { ThinnedSelf(q[1..]); }
  }

  lemma {:induction false} ThinnedSource(q': seq<Order>, q: seq<Order>, i: int) returns (j: int)
    requires Thinned(q', q) && 0 <= i < |q'|
    ensures 0 <= j < |q| && q[j].id == q'[i].id && q[j].owner == q'[i].owner
    decreases |q|
  {
    if q'[0].id == q[0].id && q'[0].owner == q[0].owner && Thinned(q'[1..], q[1..]) {
      if i == 0 {
        j := 0;
      } else {
        j := ThinnedSource(q'[1..], q[1..], i - 1);
        j := j + 1;
      }
    } else {
      j := ThinnedSource(q', q[1..], i);
      j := j + 1;
    }
  }

  ghost predicate DistinctIds(q: seq<Order>) {
    forall i, j :: 0 <= i < j < |q| ==> q[i].id != q[j].id
  }

  lemma {:induction false} ThinnedDistinct(q': seq<Order>, q: seq<Order>)
    requires Thinned(q', q) && DistinctIds(q)
    ensures DistinctIds(q')
    decreases |q|
  {
    if q' != [] {
      if q'[0].id == q[0].id && q'[0].owner == q[0].owner && Thinned(q'[1..], q[1..]) {
        ThinnedDistinct(q'[1..], q[1..]);
        forall i | 0 < i < |q'| ensures q'[0].id != q'[i].id {
          var j := ThinnedSource(q'[1..], q[1..], i - 1);
          assert q[1..][j] == q[j+1];
        }
        assert forall i :: 0 < i < |q'| ==> q'[i] == q'[1..][i-1];
      } else {
        ThinnedDistinct(q', q[1..]);
      }
    }
  }

  ghost predicate ThinnedLevels(levels': seq<seq<Order>>, levels: seq<seq<Order>>) {
    |levels'| == |levels| && forall k :: 0 <= k < |levels| ==> Thinned(levels'[k], levels[k])
  }

  lemma {:induction false} ThinnedKeepsInvariant(w: World, w': World)
    requires Invariant(w) && ThinnedLevels(w'.levels, w.levels) && PositiveLevels(w'.levels) && |w'.users| == |w.users|
    ensures Invariant(w')
  {
    forall k, i | 0 <= k < LEVELS && 0 <= i < |w'.levels[k]|
      ensures 0 <= w'.levels[k][i].owner < |w.users|
    {
      var j := ThinnedSource(w'.levels[k], w.levels[k], i);
    }
    forall k: int, i: int, k': int, i': int |
      && 0 <= k < LEVELS && 0 <= i < |w'.levels[k]| && 0 <= k' < LEVELS && 0 <= i' < |w'.levels[k']|
      && w'.levels[k][i].id == w'.levels[k'][i'].id
      ensures k == k' && i == i'
    {
      var j := ThinnedSource(w'.levels[k], w.levels[k], i);
      var j' := ThinnedSource(w'.levels[k'], w.levels[k'], i');
      assert w.levels[k][j].id == w.levels[k'][j'].id;
      ThinnedDistinct(w'.levels[k], w.levels[k]);
    }
    forall k | 0 <= k < LEVELS && w.levels[k] == [] ensures w'.levels[k] == [] { }
  }

  lemma {:induction false} FillQueueThins(q: seq<Order>, price: int, c: int)
    ensures Thinned(FillQueue(q, price, c).rest, q)
  {
    if q == [] {
      ThinnedSelf(q);
    } else if c < q[0].qty {
      ThinnedSelf(q[1..]);
      assert FillQueue(q, price, c).rest[1..] == q[1..];
    } else if c == q[0].qty {
      ThinnedSelf(q[1..]);
    } else {
      FillQueueThins(q[1..], price, c - q[0].qty);
    }
  }

  lemma {:induction false} ThinnedTrans(a: seq<Order>, b: seq<Order>, c: seq<Order>)
    requires Thinned(a, b) && Thinned(b, c)
    ensures Thinned(a, c)
    decreases |b| + |c|
  {
    if a != [] {
      if b[0].id == c[0].id && b[0].owner == c[0].owner && Thinned(b[1..], c[1..]) {
        if a[0].id == b[0].id && a[0].owner == b[0].owner && Thinned(a[1..], b[1..]) {
          ThinnedTrans(a[1..], b[1..], c[1..]);
        } else {
          ThinnedTrans(a, b[1..], c[1..]);
        }
      } else {
        ThinnedTrans(a, b, c[1..]);
      }
    }
  }

  lemma {:induction false} SweepThins(levels: seq<seq<Order>>, base: int, prices: seq<int>, c: int)
    requires InBand(levels, base, prices)
    ensures ThinnedLevels(Sweep(levels, base, prices, c).levels, levels)
    decreases |prices|
  {
    forall k | 0 <= k < |levels| ensures Thinned(levels[k], levels[k]) { ThinnedSelf(levels[k]); }
    if prices != [] {
      var p := prices[0];
      var m := FillQueue(levels[base + p], p, c);
      var levels1 := levels[base + p := m.rest];
      FillQueueThins(levels[base + p], p, c);
      if !Served(m.fills, m.left) {
        SweepThins(levels1, base, prices[1..], m.left);
        var s := Sweep(levels1, base, prices[1..], m.left);
        ThinnedTrans(s.levels[base + p], m.rest, levels[base + p]);
      }
    }
  }

  lemma {:induction false} ShrinkThins(q: seq<Order>, k: int, hit: (int, Order) -> bool, loss: int -> int)
    requires Positive(q)
    ensures Thinned(Shrink(q, k, hit, loss), q) && Positive(Shrink(q, k, hit, loss))
  {
    if q != [] {
      ShrinkThins(q[1..], k, hit, loss);
      var r := Shrink(q[1..], k, hit, loss);
      assert hit(k, q[0]) ==> ([q[0].(qty := q[0].qty - loss(q[0].qty))] + r)[1..] == r;
      assert ([q[0]] + r)[1..] == r;
    }
  }

  lemma {:induction false} WithoutThins(q: seq<Order>, id: int)
    requires Positive(q)
    ensures Thinned(Without(q, id), q) && Positive(Without(q, id))
  {
    if q != [] {
      if q[0].id == id {
        ThinnedSelf(q[1..]);
      } else {
        WithoutThins(q[1..], id);
        assert ([q[0]] + Without(q[1..], id))[1..] == Without(q[1..], id);
      }
    }
  }

  // ---------------------------------------------------------------- the invariant, step by step

  lemma {:induction false} LineEmpty(levels: seq<seq<Order>>, base: int, prices: seq<int>, p: int)
    requires InBand(levels, base, prices) && Line(levels, base, prices) == [] && p in prices
    ensures 0 <= base + p < |levels| && levels[base + p] == []
  {
    if p != prices[0] { LineEmpty(levels, base, prices[1..], p); }
  }

  lemma {:induction false} BookSweepThins(levels: seq<seq<Order>>, rq: Request)
    requires |levels| == LEVELS && PositiveLevels(levels) && ValidKey(rq.resource, rq.action, rq.price)
    ensures var s := BookSweep(levels, rq);
            && ThinnedLevels(s.levels, levels) && PositiveLevels(s.levels)
            && (forall k :: 0 <= k < LEVELS && (ActionOf(k) == rq.action || ResourceOf(k) != rq.resource) ==>
                  s.levels[k] == levels[k])
  {
    hide Sweep, Line, Take, LimitPrices;
    var base, prices := LevelOf(rq.resource, 1 - rq.action, 0), LimitPrices(rq.action, rq.price);
    SweepThins(levels, base, prices, rq.quantity);
    SweepIsPriceTime(levels, base, prices, rq.quantity);
    forall k | 0 <= k < LEVELS && (ActionOf(k) == rq.action || ResourceOf(k) != rq.resource)
      ensures k - base !in prices
    {
      if k - base in prices { LevelRoundTrip(rq.resource, 1 - rq.action, k - base); }
    }
  }

  lemma {:induction false} BookSweepAmounts(w: World, rq: Request)
    requires WellFormed(w) && ValidKey(rq.resource, rq.action, rq.price)
    ensures var s := BookSweep(w.levels, rq);
            && s.left == rq.quantity - FillQty(s.fills)
            && (rq.quantity >= 0 ==> 0 <= s.left <= rq.quantity)
            && (rq.quantity < 0 ==> s.left == if s.fills == [] then rq.quantity else 0)
            && OwnersIn(s.fills, |w.users|)
  {
    var base, prices := LevelOf(rq.resource, 1 - rq.action, 0), LimitPrices(rq.action, rq.price);
    var s, line := BookSweep(w.levels, rq), Line(w.levels, base, prices);
    SweepIsPriceTime(w.levels, base, prices, rq.quantity);
    LinePositive(w.levels, base, prices);
    LineQtyNonNeg(line);
    TakeTotals(line, rq.quantity);
    TakeServesAPrefix(line, rq.quantity);
    forall i | 0 <= i < |s.fills| ensures 0 <= s.fills[i].owner < |w.users| {
      assert Serves(line[i], s.fills[i]);
      LineOwners(w, base, prices, i);
    }
  }

  /** If any of a placed bid comes to rest, no order within its limit is left on the other side. */
  lemma {:induction false} BookSweepClears(levels: seq<seq<Order>>, rq: Request, p: int)
    requires |levels| == LEVELS && PositiveLevels(levels) && ValidKey(rq.resource, rq.action, rq.price)
    requires BookSweep(levels, rq).left != 0
    requires Marketable(rq.action, rq.price, p)
    ensures BookSweep(levels, rq).levels[LevelOf(rq.resource, 1 - rq.action, p)] == []
  {
    hide Sweep, Take, Line, LimitPrices;
    var base, prices := LevelOf(rq.resource, 1 - rq.action, 0), LimitPrices(rq.action, rq.price);
    SweepIsPriceTime(levels, base, prices, rq.quantity);
    LinePositive(levels, base, prices);
    TakeTotals(Line(levels, base, prices), rq.quantity);
    LineEmpty(BookSweep(levels, rq).levels, base, prices, p);
  }

  lemma {:induction false} LineOwners(w: World, base: int, prices: seq<int>, i: int)
    requires WellFormed(w) && InBand(w.levels, base, prices) && 0 <= i < |Line(w.levels, base, prices)|
    ensures 0 <= Line(w.levels, base, prices)[i].order.owner < |w.users|
  {
    var n := |w.levels[base + prices[0]]|;
    if i >= n { LineOwners(w, base, prices[1..], i - n); }
  }

  /** There is an order this one could trade with. */
  ghost predicate Matchable(levels: seq<seq<Order>>, rq: Request)
    requires |levels| == LEVELS && ValidKey(rq.resource, rq.action, rq.price)
  {
    exists p :: Marketable(rq.action, rq.price, p) && levels[LevelOf(rq.resource, 1 - rq.action, p)] != []
  }

  lemma LineEmptyIff(levels: seq<seq<Order>>, base: int, prices: seq<int>)
    requires InBand(levels, base, prices)
    ensures Line(levels, base, prices) == [] <==> forall p :: p in prices ==> 0 <= base + p < |levels| && levels[base + p] == []
  {
    hide Line;
    if Line(levels, base, prices) == [] {
      forall p | p in prices ensures 0 <= base + p < |levels| && levels[base + p] == [] { LineEmpty(levels, base, prices, p); }
    } else {
      var i := LineHead(levels, base, prices);
      assert prices[i] in prices;
    }
  }

  lemma FilledIff(levels: seq<seq<Order>>, rq: Request)
    requires |levels| == LEVELS && ValidKey(rq.resource, rq.action, rq.price)
    ensures BookSweep(levels, rq).fills != [] <==> Matchable(levels, rq)
  {
    hide Sweep, Take, Line, LimitPrices;
    var base, prices := LevelOf(rq.resource, 1 - rq.action, 0), LimitPrices(rq.action, rq.price);
    SweepIsPriceTime(levels, base, prices, rq.quantity);
    TakeServesAPrefix(Line(levels, base, prices), rq.quantity);
    LineEmptyIff(levels, base, prices);
    assert forall p :: p in prices <==> Marketable(rq.action, rq.price, p);
    assert forall p :: Marketable(rq.action, rq.price, p) ==> base + p == LevelOf(rq.resource, 1 - rq.action, p);
  }

  /** An order of any quantity keeps the book sound exactly when its quantity is not negative or there is an order
      it could trade with. */
  lemma {:induction false} PlaceKeepsInvariantIff(w: World, rq: Request, slot: int)
    requires Invariant(w) && Accepts(w, true, rq) && Unused(BookSweep(w.levels, rq).levels, slot)
    ensures Invariant(AddBid(w, rq, slot)) <==> rq.quantity >= 0 || Matchable(w.levels, rq)
  {
    hide Sweep, Thinned, Settle, Deposit, LimitPrices, NeverCrossed, DistinctSlots, Matchable;
    BookSweepThins(w.levels, rq);
    BookSweepAmounts(w, rq);
    FilledIff(w.levels, rq);
    var s, w' := BookSweep(w.levels, rq), AddBid(w, rq, slot);
    var mid := World(s.levels, w'.users);
    ThinnedKeepsInvariant(w, mid);
    if s.left > 0 {
      forall p | Marketable(rq.action, rq.price, p)
        ensures s.levels[LevelOf(rq.resource, 1 - rq.action, p)] == []
      {
        BookSweepClears(w.levels, rq, p);
      }
      AppendKeepsInvariant(mid, rq.resource, rq.action, rq.price, Order(slot, rq.user, s.left));
    } else if s.left < 0 {
      var k := LevelOf(rq.resource, rq.action, rq.price);
      var q := w'.levels[k];
      assert q[|q|-1].qty < 0;
      assert !Positive(q);
    }
  }

  lemma PlaceKeepsInvariant(w: World, rq: Request, slot: int)
    requires Invariant(w) && Enabled(w, Place(rq, slot))
    ensures Invariant(AddBid(w, rq, slot))
  {
    PlaceKeepsInvariantIff(w, rq, slot);
  }

  lemma {:induction false} AppendKeepsInvariant(w: World, resource: int, action: int, price: int, o: Order)
    requires Invariant(w) && ValidKey(resource, action, price) && o.qty > 0 && 0 <= o.owner < |w.users|
    requires Unused(w.levels, o.id)
    requires forall p :: Marketable(action, price, p) ==>
               w.levels[LevelOf(resource, 1 - action, p)] == []
    ensures var k := LevelOf(resource, action, price);
            Invariant(w.(levels := w.levels[k := w.levels[k] + [o]]))
  {
    var k0 := LevelOf(resource, action, price);
    AppendKeepsDistinct(w.levels, k0, o);
    AppendKeepsUncrossed(w.levels, resource, action, price, o);
  }

  lemma {:induction false} AppendKeepsUncrossed(levels: seq<seq<Order>>, resource: int, action: int, price: int, o: Order)
    requires |levels| == LEVELS && NeverCrossed(levels) && ValidKey(resource, action, price)
    requires forall p :: Marketable(action, price, p) ==>
               levels[LevelOf(resource, 1 - action, p)] == []
    ensures var k := LevelOf(resource, action, price);
            NeverCrossed(levels[k := levels[k] + [o]])
  {
    var k0 := LevelOf(resource, action, price);
    var l' := levels[k0 := levels[k0] + [o]];
    forall r, buy, sell |
      && ValidKey(r, BUY, buy) && ValidKey(r, SELL, sell)
      && l'[LevelOf(r, BUY, buy)] != [] && l'[LevelOf(r, SELL, sell)] != []
      ensures buy < sell
    {
      LevelRoundTrip(r, BUY, buy);
      LevelRoundTrip(r, SELL, sell);
      LevelRoundTrip(resource, action, price);
      if LevelOf(r, BUY, buy) == k0 {
        assert levels[LevelOf(r, SELL, sell)] != [];
        assert !Marketable(action, price, sell);
      } else if LevelOf(r, SELL, sell) == k0 {
        assert levels[LevelOf(r, BUY, buy)] != [];
        assert !Marketable(action, price, buy);
      } else {
        assert levels[LevelOf(r, BUY, buy)] != [] && levels[LevelOf(r, SELL, sell)] != [];
      }
    }
  }

  lemma {:induction false} AppendKeepsDistinct(levels: seq<seq<Order>>, k0: int, o: Order)
    requires 0 <= k0 < |levels| && DistinctSlots(levels)
    requires Unused(levels, o.id)
    ensures DistinctSlots(levels[k0 := levels[k0] + [o]])
  {
    var l': seq<seq<Order>> := levels[k0 := levels[k0] + [o]];
    forall k: int, i: int, k': int, i': int |
      && 0 <= k < |l'| && 0 <= i < |l'[k]| && 0 <= k' < |l'| && 0 <= i' < |l'[k']| && l'[k][i].id == l'[k'][i'].id
      ensures k == k' && i == i'
    {
      if i < |levels[k]| && i' < |levels[k']| {
        assert levels[k][i].id == levels[k'][i'].id;
      }
    }
  }

  lemma {:induction false} StepKeepsInvariant(w: World, op: Op)
    requires Invariant(w) && Enabled(w, op)
    ensures Invariant(Step(w, op))
  {
    match op
    case Place(rq, slot) => PlaceKeepsInvariant(w, rq, slot);
    case Withdraw(k, o) =>
      forall j | 0 <= j < LEVELS ensures Thinned(Step(w, op).levels[j], w.levels[j]) && Positive(Step(w, op).levels[j]) {
        ThinnedSelf(w.levels[j]);
        WithoutThins(w.levels[j], o.id);
      }
      ThinnedKeepsInvariant(w, Step(w, op));
    case Lose(hit, loss) =>
      forall j | 0 <= j < LEVELS ensures Thinned(Step(w, op).levels[j], w.levels[j]) && Positive(Step(w, op).levels[j]) {
        ShrinkThins(w.levels[j], j, hit, loss);
      }
      ThinnedKeepsInvariant(w, Step(w, op));
  }

  // ---------------------------------------------------------------- conservation, step by step

  datatype Worth = Nothing | Units | Money

  ghost function UnitWorth(m: Worth, price: int): int {
    match m case Nothing => 0 case Units => 1 case Money => price
  }

  ghost function FillWorth(m: Worth, fills: seq<Fill>): int {
    match m case Nothing => 0 case Units => FillQty(fills) case Money => Cost(fills)
  }

  lemma {:induction false} FillQueueQty(q: seq<Order>, price: int, c: int)
    ensures var m := FillQueue(q, price, c);
            && Qty(q) == Qty(m.rest) + FillQty(m.fills)
            && forall i :: 0 <= i < |m.fills| ==> m.fills[i].price == price
  {
    if q != [] {
      var m := FillQueue(q, price, c);
      if c < q[0].qty {
        assert m.rest[1..] == q[1..] && m.fills[1..] == [];
      } else if c == q[0].qty {
        assert m.fills[1..] == [];
      } else {
        FillQueueQty(q[1..], price, c - q[0].qty);
        assert m.fills[1..] == FillQueue(q[1..], price, c - q[0].qty).fills;
      }
    }
  }

  lemma {:induction false} CostAtOnePrice(fills: seq<Fill>, price: int)
    requires forall i :: 0 <= i < |fills| ==> fills[i].price == price
    ensures Cost(fills) == price * FillQty(fills)
  {
    if fills != [] {
      CostAtOnePrice(fills[1..], price);
      assert price * (fills[0].amount + FillQty(fills[1..])) == price * fills[0].amount + price * FillQty(fills[1..]);
    }
  }

  lemma {:induction false} FillQueueWorth(q: seq<Order>, price: int, c: int, m: Worth)
    ensures var f := FillQueue(q, price, c);
            UnitWorth(m, price) * (Qty(f.rest) - Qty(q)) == -FillWorth(m, f.fills)
  {
    hide FillQueue;
    FillQueueQty(q, price, c);
    var f := FillQueue(q, price, c);
    CostAtOnePrice(f.fills, price);
    var d := Qty(f.rest) - Qty(q);
    assert d == -FillQty(f.fills);
    assert price * d == -(price * FillQty(f.fills));
  }

  lemma {:induction false} FillWorthConcat(m: Worth, a: seq<Fill>, b: seq<Fill>)
    ensures FillWorth(m, a + b) == FillWorth(m, a) + FillWorth(m, b)
  {
    FillsConcat(a, b);
  }

  /** The book gives up exactly what is executed. */
  lemma {:induction false} SweepEscrow(levels: seq<seq<Order>>, base: int, prices: seq<int>, c: int, m: Worth, w: int -> int)
    requires InBand(levels, base, prices)
    requires forall i :: 0 <= i < |prices| ==> w(base + prices[i]) == UnitWorth(m, prices[i])
    ensures var s := Sweep(levels, base, prices, c);
            Escrow(s.levels, w) == Escrow(levels, w) - FillWorth(m, s.fills)
    decreases |prices|
  {
    hide Escrow, FillQueue, Qty, Sweep, FillWorth, UnitWorth;
    if prices == [] {
      assert Sweep(levels, base, prices, c) == Swept(levels, [], c) by { SweepNothing(levels, base, c); }
      NoWorth(m);
    } else {
      var p := prices[0];
      var f := FillQueue(levels[base + p], p, c);
      var levels1 := levels[base + p := f.rest];
      SweepHead(levels, base, prices, c, f);
      EscrowUpdate(levels, w, base + p, f.rest);
      FillQueueWorth(levels[base + p], p, c, m);
      assert w(base + p) == UnitWorth(m, p);
      assert forall i :: 0 <= i < |prices[1..]| ==> prices[1..][i] == prices[i+1];
      if Served(f.fills, f.left) {
        NoWorth(m);
        FillWorthConcat(m, f.fills, []);
      } else {
        SweepEscrow(levels1, base, prices[1..], f.left, m, w);
        FillWorthConcat(m, f.fills, Sweep(levels1, base, prices[1..], f.left).fills);
      }
    }
  }

  lemma NoWorth(m: Worth)
    ensures FillWorth(m, []) == 0
  {
  }

  lemma SweepNothing(levels: seq<seq<Order>>, base: int, c: int)
    ensures Sweep(levels, base, [], c) == Swept(levels, [], c)
  {
  }

  /** What a buyer gives away: he is charged his own limit, the seller is paid the resting price. */
  function Surplus(limit: int, fills: seq<Fill>): int {
    if fills == [] then 0 else (limit - fills[0].price) * fills[0].amount + Surplus(limit, fills[1..])
  }

  lemma {:induction false} SurplusIs(limit: int, fills: seq<Fill>)
    ensures Surplus(limit, fills) == limit * FillQty(fills) - Cost(fills)
  {
    if fills != [] {
      SurplusIs(limit, fills[1..]);
      var a, b := fills[0].amount, FillQty(fills[1..]);
      assert limit * (a + b) == limit * a + limit * b;
      assert (limit - fills[0].price) * a == limit * a - fills[0].price * a;
    }
  }

  ghost function Burnt(w: World, op: Op): int
    requires |w.levels| == LEVELS
    requires op.Place? ==> ValidKey(op.rq.resource, op.rq.action, op.rq.price)
  {
    if op.Place? && op.rq.action == BUY then Surplus(op.rq.price, BookSweep(w.levels, op.rq).fills) else 0
  }

  lemma {:induction false} DepositTotals(w: World, rq: Request, k: int)
    requires 0 <= rq.resource < 3 && 0 <= rq.user < |w.users| && 0 <= k < 4
    ensures Held(Deposit(w.users, rq), k) == Held(w.users, k)
              - (if rq.action == BUY then (if k == ENERGY then rq.price * rq.quantity else 0)
                 else if k == rq.resource + 1 then rq.quantity else 0)
  {
    if rq.action == BUY { HeldCredit(w.users, rq.user, ENERGY, -(rq.price * rq.quantity), k); }
    else { HeldCredit(w.users, rq.user, rq.resource + 1, -rq.quantity, k); }
  }

  lemma {:induction false} AppendEscrow(levels: seq<seq<Order>>, k: int, o: Order, v: int -> int)
    requires 0 <= k < |levels|
    ensures Escrow(levels[k := levels[k] + [o]], v) == Escrow(levels, v) + v(k) * o.qty
  {
    EscrowUpdate(levels, v, k, levels[k] + [o]);
    QtyConcat(levels[k], [o]);
    assert Qty([o]) == o.qty + Qty([]);
  }

  lemma {:induction false} BookSweepEscrow(levels: seq<seq<Order>>, rq: Request, v: int -> int, m: Worth)
    requires |levels| == LEVELS && ValidKey(rq.resource, rq.action, rq.price)
    requires forall p :: 0 <= p < PRICE_RANGE ==> v(LevelOf(rq.resource, 1 - rq.action, p)) == UnitWorth(m, p)
    ensures Escrow(BookSweep(levels, rq).levels, v) == Escrow(levels, v) - FillWorth(m, BookSweep(levels, rq).fills)
  {
    var base, prices := LevelOf(rq.resource, 1 - rq.action, 0), LimitPrices(rq.action, rq.price);
    forall i | 0 <= i < |prices| ensures v(base + prices[i]) == UnitWorth(m, prices[i]) {
      assert base + prices[i] == LevelOf(rq.resource, 1 - rq.action, prices[i]);
    }
    SweepEscrow(levels, base, prices, rq.quantity, m, v);
  }

  /** The change a placed bid makes in the escrow, under weights that value the side it trades
      with as `m` and the level it may come to rest at as `own`. */
  lemma {:induction false} PlaceEscrow(w: World, rq: Request, slot: int, v: int -> int, m: Worth, own: int)
    requires |w.levels| == LEVELS && ValidKey(rq.resource, rq.action, rq.price)
    requires forall p :: 0 <= p < PRICE_RANGE ==> v(LevelOf(rq.resource, 1 - rq.action, p)) == UnitWorth(m, p)
    requires v(LevelOf(rq.resource, rq.action, rq.price)) == own
    ensures var s := BookSweep(w.levels, rq);
            Escrow(AddBid(w, rq, slot).levels, v) == Escrow(w.levels, v) - FillWorth(m, s.fills) + own * s.left
  {
    var s := BookSweep(w.levels, rq);
    BookSweepEscrow(w.levels, rq, v, m);
    AppendEscrow(s.levels, LevelOf(rq.resource, rq.action, rq.price), Order(slot, rq.user, s.left), v);
  }

  ghost predicate Places(w: World, rq: Request) {
    ValidKey(rq.resource, rq.action, rq.price) && 0 <= rq.user < |w.users|
  }

  lemma {:induction false} PlacePurses(w: World, rq: Request, slot: int, what: int)
    requires WellFormed(w) && Places(w, rq) && 0 <= what < 4
    ensures var s := BookSweep(w.levels, rq);
            Held(AddBid(w, rq, slot).users, what) == Held(w.users, what)
              - (if rq.action == BUY then (if what == ENERGY then rq.price * rq.quantity else 0)
                 else if what == rq.resource + 1 then rq.quantity else 0)
              + (if what == ENERGY then Cost(s.fills) else if what == rq.resource + 1 then FillQty(s.fills) else 0)
  {
    BookSweepAmounts(w, rq);
    SettleTotals(Deposit(w.users, rq), rq.user, rq.action, rq.resource, BookSweep(w.levels, rq).fills, what);
    DepositTotals(w, rq, what);
  }

  lemma {:induction false} PlaceGoodsEscrow(w: World, rq: Request, slot: int, r: int)
    requires |w.levels| == LEVELS && ValidKey(rq.resource, rq.action, rq.price)
    ensures var s := BookSweep(w.levels, rq);
            Escrow(AddBid(w, rq, slot).levels, GoodsWeight(r)) == Escrow(w.levels, GoodsWeight(r))
              + (if r != rq.resource then 0 else if rq.action == BUY then -FillQty(s.fills) else s.left)
  {
    var m := if rq.action == BUY && r == rq.resource then Units else Nothing;
    forall p | 0 <= p < PRICE_RANGE
      ensures GoodsWeight(r)(LevelOf(rq.resource, 1 - rq.action, p)) == UnitWorth(m, p)
    {
      LevelRoundTrip(rq.resource, 1 - rq.action, p);
    }
    LevelRoundTrip(rq.resource, rq.action, rq.price);
    PlaceEscrow(w, rq, slot, GoodsWeight(r), m, if rq.action == SELL && r == rq.resource then 1 else 0);
  }

  lemma {:induction false} PlaceEnergyEscrow(w: World, rq: Request, slot: int)
    requires |w.levels| == LEVELS && ValidKey(rq.resource, rq.action, rq.price)
    ensures var s := BookSweep(w.levels, rq);
            Escrow(AddBid(w, rq, slot).levels, EnergyWeight()) == Escrow(w.levels, EnergyWeight())
              + (if rq.action == BUY then rq.price * s.left else -Cost(s.fills))
  {
    var m := if rq.action == BUY then Nothing else Money;
    forall p | 0 <= p < PRICE_RANGE
      ensures EnergyWeight()(LevelOf(rq.resource, 1 - rq.action, p)) == UnitWorth(m, p)
    {
      LevelRoundTrip(rq.resource, 1 - rq.action, p);
    }
    LevelRoundTrip(rq.resource, rq.action, rq.price);
    PlaceEscrow(w, rq, slot, EnergyWeight(), m, if rq.action == BUY then rq.price else 0);
  }

  lemma {:induction false} PlaceConservesGoods(w: World, rq: Request, slot: int, r: int)
    requires WellFormed(w) && Places(w, rq) && 0 <= r < 3
    ensures Goods(AddBid(w, rq, slot), r) == Goods(w, r)
  {
    BookSweepAmounts(w, rq);
    PlacePurses(w, rq, slot, r + 1);
    PlaceGoodsEscrow(w, rq, slot, r);
  }

  lemma {:induction false} PlaceBurnsEnergy(w: World, rq: Request, slot: int)
    requires WellFormed(w) && Places(w, rq)
    ensures Energy(AddBid(w, rq, slot)) == Energy(w) - Burnt(w, Place(rq, slot))
  {
    BookSweepAmounts(w, rq);
    PlacePurses(w, rq, slot, ENERGY);
    PlaceEnergyEscrow(w, rq, slot);
    BuyerPays(rq.price, rq.quantity, BookSweep(w.levels, rq));
  }

  lemma {:induction false} BuyerPays(price: int, quantity: int, s: Swept)
    requires s.left == quantity - FillQty(s.fills)
    ensures price * quantity == price * s.left + Cost(s.fills) + Surplus(price, s.fills)
  {
    SurplusIs(price, s.fills);
    assert price * s.left == price * quantity - price * FillQty(s.fills);
  }

  /** Placing a bid conserves every resource, whoever it trades with; it conserves energy except
      that a buyer's price improvements are not paid back to him. */
  lemma {:induction false} PlaceConserves(w: World, rq: Request, slot: int)
    requires WellFormed(w) && Accepts(w, true, rq)
    ensures forall r :: 0 <= r < 3 ==> Goods(AddBid(w, rq, slot), r) == Goods(w, r)
    ensures Energy(AddBid(w, rq, slot)) == Energy(w) - Burnt(w, Place(rq, slot))
  {
    forall r | 0 <= r < 3 ensures Goods(AddBid(w, rq, slot), r) == Goods(w, r) {
      PlaceConservesGoods(w, rq, slot, r);
    }
    PlaceBurnsEnergy(w, rq, slot);
  }

  lemma {:induction false} SurplusNonNeg(limit: int, fills: seq<Fill>)
    requires forall i :: 0 <= i < |fills| ==> fills[i].price <= limit && fills[i].amount >= 0
    ensures Surplus(limit, fills) >= 0
  {
    if fills != [] {
      SurplusNonNeg(limit, fills[1..]);
      assert (limit - fills[0].price) * fills[0].amount >= 0;
    }
  }

  lemma {:induction false} LinePrices(levels: seq<seq<Order>>, base: int, prices: seq<int>, i: int)
    requires InBand(levels, base, prices) && 0 <= i < |Line(levels, base, prices)|
    ensures Line(levels, base, prices)[i].price in prices
  {
    var n := |levels[base + prices[0]]|;
    if i >= n { LinePrices(levels, base, prices[1..], i - n); }
  }

  /** What a buyer of no negative quantity is not refunded is not negative. */
  lemma PurchaseBurns(w: World, rq: Request)
    requires WellFormed(w) && ValidKey(rq.resource, rq.action, rq.price) && rq.quantity >= 0
    ensures rq.action == BUY ==> Surplus(rq.price, BookSweep(w.levels, rq).fills) >= 0
  {
    if rq.action == BUY {
      var base, prices := LevelOf(rq.resource, SELL, 0), LimitPrices(BUY, rq.price);
      var line := Line(w.levels, base, prices);
      SweepIsPriceTime(w.levels, base, prices, rq.quantity);
      LinePositive(w.levels, base, prices);
      TakeServesAPrefix(line, rq.quantity);
      var fills := BookSweep(w.levels, rq).fills;
      forall i | 0 <= i < |fills| ensures fills[i].price <= rq.price && fills[i].amount >= 0 {
        assert Serves(line[i], fills[i]);
        LinePrices(w.levels, base, prices, i);
      }
      SurplusNonNeg(rq.price, fills);
    }
  }

  /** The first of a line has the best price there is. */
  lemma {:induction false} LineHead(levels: seq<seq<Order>>, base: int, prices: seq<int>) returns (i: nat)
    requires InBand(levels, base, prices) && Line(levels, base, prices) != []
    ensures i < |prices| && levels[base + prices[i]] != [] && Line(levels, base, prices)[0].price == prices[i]
    ensures Line(levels, base, prices)[0].order == levels[base + prices[i]][0]
    ensures forall j :: 0 <= j < i ==> levels[base + prices[j]] == []
  {
    if levels[base + prices[0]] != [] {
      i := 0;
    } else {
      assert Line(levels, base, prices) == [] + Line(levels, base, prices[1..]);
      i := LineHead(levels, base, prices[1..]);
      i := i + 1;
    }
  }

  lemma NegativeTake(line: seq<Resting>, c: int)
    requires line != [] && c < 0 < line[0].order.qty
    ensures Take(line, c).fills == [Fill(line[0].price, line[0].order.id, line[0].order.owner, c)]
  {
  }

  /** Of the prices an order may trade at, `p` is the best one at which anybody rests. */
  ghost predicate IsBestPrice(levels: seq<seq<Order>>, rq: Request, p: int)
    requires |levels| == LEVELS && ValidKey(rq.resource, rq.action, rq.price)
  {
    && Marketable(rq.action, rq.price, p) && levels[LevelOf(rq.resource, 1 - rq.action, p)] != []
    && forall r :: Marketable(rq.action, rq.price, r) && (if rq.action == BUY then r < p else r > p) ==>
         levels[LevelOf(rq.resource, 1 - rq.action, r)] == []
  }

  lemma HeadIsBest(levels: seq<seq<Order>>, rq: Request) returns (p: int)
    requires |levels| == LEVELS && ValidKey(rq.resource, rq.action, rq.price)
    requires var line := Line(levels, LevelOf(rq.resource, 1 - rq.action, 0), LimitPrices(rq.action, rq.price)); line != []
    ensures IsBestPrice(levels, rq, p)
    ensures var line := Line(levels, LevelOf(rq.resource, 1 - rq.action, 0), LimitPrices(rq.action, rq.price));
            line[0] == Resting(p, levels[LevelOf(rq.resource, 1 - rq.action, p)][0])
  {
    hide LimitPrices, Line;
    var base, prices := LevelOf(rq.resource, 1 - rq.action, 0), LimitPrices(rq.action, rq.price);
    var i := LineHead(levels, base, prices);
    p := prices[i];
    assert Marketable(rq.action, rq.price, p) && base + p == LevelOf(rq.resource, 1 - rq.action, p);
    forall r | Marketable(rq.action, rq.price, r) && (if rq.action == BUY then r < p else r > p)
      ensures levels[LevelOf(rq.resource, 1 - rq.action, r)] == []
    {
      assert r in prices;
      var j :| 0 <= j < |prices| && prices[j] == r;
      assert j < i;
      assert base + r == LevelOf(rq.resource, 1 - rq.action, r);
    }
  }

  /** An order of negative quantity is put upon the oldest order at the best price, and nothing else happens. */
  lemma NegativeFill(w: World, rq: Request) returns (p: int)
    requires WellFormed(w) && ValidKey(rq.resource, rq.action, rq.price) && rq.quantity < 0 && Matchable(w.levels, rq)
    ensures IsBestPrice(w.levels, rq, p)
    ensures var o := w.levels[LevelOf(rq.resource, 1 - rq.action, p)][0];
            BookSweep(w.levels, rq).fills == [Fill(p, o.id, o.owner, rq.quantity)]
  {
    hide Sweep, LimitPrices, Line, Take, Matchable, DistinctSlots;
    var base, prices := LevelOf(rq.resource, 1 - rq.action, 0), LimitPrices(rq.action, rq.price);
    SweepIsPriceTime(w.levels, base, prices, rq.quantity);
    FilledIff(w.levels, rq);
    TakeServesAPrefix(Line(w.levels, base, prices), rq.quantity);
    p := HeadIsBest(w.levels, rq);
    NegativeTake(Line(w.levels, base, prices), rq.quantity);
  }

  ghost predicate SoldBelow(levels: seq<seq<Order>>, resource: int, price: int)
    requires |levels| == LEVELS && 0 <= resource < 3 && price < PRICE_RANGE
  {
    exists p :: 0 <= p < price && levels[LevelOf(resource, SELL, p)] != []
  }

  lemma NegativeSurplus(w: World, rq: Request)
    requires WellFormed(w) && ValidKey(rq.resource, rq.action, rq.price) && rq.quantity < 0 && rq.action == BUY
    ensures Surplus(rq.price, BookSweep(w.levels, rq).fills) < 0 <==> SoldBelow(w.levels, rq.resource, rq.price)
  {
    hide BookSweep, DistinctSlots, PositiveLevels;
    FilledIff(w.levels, rq);
    assert SoldBelow(w.levels, rq.resource, rq.price) ==> Matchable(w.levels, rq) by {
      forall p | 0 <= p < rq.price && w.levels[LevelOf(rq.resource, SELL, p)] != [] ensures Matchable(w.levels, rq) {
        assert Marketable(rq.action, rq.price, p);
      }
    }
    if Matchable(w.levels, rq) {
      var p := NegativeFill(w, rq);
      var f := BookSweep(w.levels, rq).fills[0];
      OneSurplus(rq.price, f);
      SignOf(rq.price - p, rq.quantity);
      assert BookSweep(w.levels, rq).fills == [f] && f.price == p;
      forall r | 0 <= r < rq.price && w.levels[LevelOf(rq.resource, SELL, r)] != [] ensures p < rq.price {
        assert Marketable(rq.action, rq.price, r);
      }
    }
  }

  lemma OneSurplus(limit: int, f: Fill)
    ensures Surplus(limit, [f]) == (limit - f.price) * f.amount
  {
    assert [f][1..] == [];
  }

  /** An order creates energy exactly when it is a purchase of a negative quantity and somebody sells below its
      price. */
  lemma CreatesEnergyIff(w: World, rq: Request, slot: int)
    requires WellFormed(w) && Accepts(w, true, rq)
    ensures Energy(AddBid(w, rq, slot)) > Energy(w) <==>
            rq.quantity < 0 && rq.action == BUY && SoldBelow(w.levels, rq.resource, rq.price)
  {
    hide Energy, BookSweep, AddBid, SoldBelow, WellFormed;
    PlaceConserves(w, rq, slot);
    if rq.quantity >= 0 { PurchaseBurns(w, rq); }
    else if rq.action == BUY { NegativeSurplus(w, rq); }
  }

  /** Somebody sells at 1; a purchase of -5 at 3 creates energy. */
  lemma NegativePurchase(slot: int)
    ensures var k := LevelOf(0, SELL, 1);
            var w := World(NoOrders()[k := [Order(0, 1, 10)]], [Owns(0), Owns(0)]);
            var rq := Request(0, BUY, 0, 3, -5);
            WellFormed(w) && Accepts(w, true, rq) && Energy(AddBid(w, rq, slot)) > Energy(w)
  {
    hide Energy, AddBid;
    var k := LevelOf(0, SELL, 1);
    var w := World(NoOrders()[k := [Order(0, 1, 10)]], [Owns(0), Owns(0)]);
    assert WellFormed(w) && w.levels[LevelOf(0, SELL, 1)] != [];
    CreatesEnergyIff(w, Request(0, BUY, 0, 3, -5), slot);
  }

  /** With nobody selling it comes to rest, and the book is not sound any more. */
  lemma NegativeRests(slot: int)
    ensures var w := World(NoOrders(), [Owns(0)]);
            var rq := Request(0, BUY, 0, 3, -5);
            Invariant(w) && Accepts(w, true, rq) && !Invariant(AddBid(w, rq, slot))
  {
    hide AddBid, BookSweep;
    var w, rq := World(NoOrders(), [Owns(0)]), Request(0, BUY, 0, 3, -5);
    assert !Matchable(w.levels, rq);
    BookSweepThins(w.levels, rq);
    assert Unused(BookSweep(w.levels, rq).levels, slot);
    PlaceKeepsInvariantIff(w, rq, slot);
  }

  lemma SignOf(a: int, b: int)
    requires b < 0 && a >= 0
    ensures a * b < 0 <==> a > 0
    ensures a == 0 ==> a * b == 0
  {
  }

  lemma {:induction false} QtyWithout(q: seq<Order>, o: Order)
    requires DistinctIds(q) && o in q
    ensures Qty(Without(q, o.id)) == Qty(q) - o.qty
  {
    if q[0] != o {
      assert o in q[1..];
      QtyWithout(q[1..], o);
      assert ([q[0]] + Without(q[1..], o.id))[1..] == Without(q[1..], o.id);
    }
  }

  lemma {:induction false} RefundTotals(w: World, k: int, o: Order, what: int)
    requires |w.levels| == LEVELS && 0 <= k < LEVELS && 0 <= o.owner < |w.users| && 0 <= what < 4
    ensures Held(RemoveBid(w, k, o).users, what) == Held(w.users, what) +
              (if ActionOf(k) == BUY then (if what == ENERGY then o.qty * PriceOf(k) else 0)
               else if what == ResourceOf(k) + 1 then o.qty else 0)
  {
    if ActionOf(k) == BUY { HeldCredit(w.users, o.owner, ENERGY, o.qty * PriceOf(k), what); }
    else { HeldCredit(w.users, o.owner, ResourceOf(k) + 1, o.qty, what); }
  }

  lemma {:induction false} WithdrawEscrow(levels: seq<seq<Order>>, k: int, o: Order, v: int -> int)
    requires 0 <= k < |levels| && o in levels[k] && DistinctIds(levels[k])
    ensures Escrow(levels[k := Without(levels[k], o.id)], v) == Escrow(levels, v) - v(k) * o.qty
  {
    hide Escrow, Without;
    EscrowUpdate(levels, v, k, Without(levels[k], o.id));
    QtyWithout(levels[k], o);
    assert v(k) * (Qty(Without(levels[k], o.id)) - Qty(levels[k])) == v(k) * (-o.qty) == -(v(k) * o.qty);
  }

  lemma {:induction false} WithdrawConserves(w: World, k: int, o: Order)
    requires WellFormed(w) && Rests(w, o.owner, k, o)
    ensures forall r :: 0 <= r < 3 ==> Goods(RemoveBid(w, k, o), r) == Goods(w, r)
    ensures Energy(RemoveBid(w, k, o)) == Energy(w)
  {
    assert DistinctIds(w.levels[k]);
    forall r | 0 <= r < 3 ensures Goods(RemoveBid(w, k, o), r) == Goods(w, r) {
      RefundTotals(w, k, o, r + 1);
      WithdrawEscrow(w.levels, k, o, GoodsWeight(r));
    }
    RefundTotals(w, k, o, ENERGY);
    WithdrawEscrow(w.levels, k, o, EnergyWeight());
    assert PriceOf(k) * o.qty == o.qty * PriceOf(k);
  }

  lemma {:induction false} QtyShrinks(q: seq<Order>, k: int, hit: (int, Order) -> bool, loss: int -> int)
    requires Positive(q) && forall x: int :: 0 < x ==> 0 <= loss(x)
    ensures 0 <= Qty(Shrink(q, k, hit, loss)) <= Qty(q)
  {
    if q != [] {
      QtyShrinks(q[1..], k, hit, loss);
      var o, r := q[0], Shrink(q[1..], k, hit, loss);
      assert ([o] + r)[1..] == r;
      assert hit(k, o) ==> ([o.(qty := o.qty - loss(o.qty))] + r)[1..] == r;
    }
  }

  lemma {:induction false} EscrowMonotone(a: seq<seq<Order>>, b: seq<seq<Order>>, w: int -> int)
    requires |a| == |b| && forall k :: 0 <= k < |a| ==> Qty(a[k]) <= Qty(b[k]) && w(k) >= 0
    ensures Escrow(a, w) <= Escrow(b, w)
  {
    if a != [] {
      var n := |a| - 1;
      EscrowMonotone(a[..n], b[..n], w);
      assert w(n) * Qty(a[n]) <= w(n) * Qty(b[n]);
    }
  }

  lemma {:induction false} LoseOnlyLoses(w: World, op: Op)
    requires WellFormed(w) && op.Lose? && Enabled(w, op)
    ensures forall r :: 0 <= r < 3 ==> Goods(Step(w, op), r) <= Goods(w, r)
    ensures Energy(Step(w, op)) <= Energy(w)
  {
    var w' := Step(w, op);
    forall k | 0 <= k < LEVELS ensures Qty(w'.levels[k]) <= Qty(w.levels[k]) {
      QtyShrinks(w.levels[k], k, op.hit, op.loss);
    }
    forall r | 0 <= r < 3 ensures Goods(w', r) <= Goods(w, r) {
      EscrowMonotone(w'.levels, w.levels, GoodsWeight(r));
    }
    EscrowMonotone(w'.levels, w.levels, EnergyWeight());
  }

  // ---------------------------------------------------------------- whole runs

  /** The states of a run: `run[0]` is where it starts, each next one is a step of an operation. */
  ghost predicate IsRun(run: seq<World>, ops: seq<Op>) {
    && |run| == |ops| + 1
    && forall i :: 0 <= i < |ops| ==>
         |run[i].levels| == LEVELS && Enabled(run[i], ops[i]) && run[i+1] == Step(run[i], ops[i])
  }

  lemma {:induction false} RunKeepsInvariant(run: seq<World>, ops: seq<Op>, n: nat)
    requires IsRun(run, ops) && Invariant(run[0]) && n < |run|
    ensures Invariant(run[n])
  {
    if n > 0 {
      RunKeepsInvariant(run, ops, n - 1);
      StepKeepsInvariant(run[n-1], ops[n-1]);
    }
  }

  ghost function TotalBurnt(run: seq<World>, ops: seq<Op>, n: nat): int
    requires IsRun(run, ops) && n <= |ops|
  {
    if n == 0 then 0 else TotalBurnt(run, ops, n - 1) + Burnt(run[n-1], ops[n-1])
  }

  /** Over a run of trades and withdrawals every resource is conserved, and energy is conserved up
      to the price improvements buyers were not refunded. */
  lemma {:induction false} RunConserves(run: seq<World>, ops: seq<Op>, n: nat)
    requires IsRun(run, ops) && Invariant(run[0]) && n < |run|
    requires forall i :: 0 <= i < |ops| ==> !ops[i].Lose?
    ensures forall r :: 0 <= r < 3 ==> Goods(run[n], r) == Goods(run[0], r)
    ensures Energy(run[n]) == Energy(run[0]) - TotalBurnt(run, ops, n)
  {
    if n > 0 {
      RunConserves(run, ops, n - 1);
      RunKeepsInvariant(run, ops, n - 1);
      match ops[n-1]
      case Place(rq, slot) => PlaceConserves(run[n-1], rq, slot);
      case Withdraw(k, o) => WithdrawConserves(run[n-1], k, o);
    }
  }

  lemma BurntNonNeg(w: World, op: Op)
    requires WellFormed(w) && Enabled(w, op)
    ensures Burnt(w, op) >= 0
  {
    if op.Place? { PurchaseBurns(w, op.rq); }
  }

  /** No run whatsoever creates goods or energy. */
  lemma {:induction false} RunCreatesNothing(run: seq<World>, ops: seq<Op>, n: nat)
    requires IsRun(run, ops) && Invariant(run[0]) && n < |run|
    ensures forall r :: 0 <= r < 3 ==> Goods(run[n], r) <= Goods(run[0], r)
    ensures Energy(run[n]) <= Energy(run[0])
  {
    if n > 0 {
      RunCreatesNothing(run, ops, n - 1);
      RunKeepsInvariant(run, ops, n - 1);
      BurntNonNeg(run[n-1], ops[n-1]);
      match ops[n-1]
      case Place(rq, slot) => PlaceConserves(run[n-1], rq, slot);
      case Withdraw(k, o) => WithdrawConserves(run[n-1], k, o);
      case Lose(_, _) => LoseOnlyLoses(run[n-1], ops[n-1]);
    }
  }
}
