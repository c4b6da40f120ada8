/** The operations that shrink resting bids: the decay of every tick, the operations that destroy
    part of a player's bids, and the removal of a deactivated player's bids. */
module MarketDecay {
  import opened OrderBook
  import opened OrderWorld
  import opened MarketFile
  import opened MarketIndex
  import opened MarketDb
  import opened MarketExec
  import OrderRuns

  // ---------------------------------------------------------------- shrinking, order by order

  ghost function ShrinkOne(o: Order, loss: int -> int): seq<Order> {
    if o.qty - loss(o.qty) > 0 then [o.(qty := o.qty - loss(o.qty))] else []
  }

  lemma {:induction false} ShrinkConcat(a: seq<Order>, b: seq<Order>, k: int, hit: (int, Order) -> bool, loss: int -> int)
    ensures Shrink(a + b, k, hit, loss) == Shrink(a, k, hit, loss) + Shrink(b, k, hit, loss)
  {
    if a == [] {
      assert a + b == b;
    } else {
      assert (a + b)[1..] == a[1..] + b;
      ShrinkConcat(a[1..], b, k, hit, loss);
    }
  }

  lemma ShrinkSingle(o: Order, k: int, hit: (int, Order) -> bool, loss: int -> int)
    ensures Shrink([o], k, hit, loss) == if hit(k, o) then ShrinkOne(o, loss) else [o]
  {
    assert Shrink([o][1..], k, hit, loss) == [];
  }

  lemma {:induction false} ShrinkSame(q: seq<Order>, k: int, hit: (int, Order) -> bool, hit': (int, Order) -> bool, loss: int -> int)
    requires forall o :: o in q ==> hit(k, o) == hit'(k, o)
    ensures Shrink(q, k, hit, loss) == Shrink(q, k, hit', loss)
  {
    if q != [] {
      assert q[0] in q && forall o :: o in q[1..] ==> o in q;
      ShrinkSame(q[1..], k, hit, hit', loss);
    }
  }

  lemma {:induction false} ShrinkNone(q: seq<Order>, k: int, hit: (int, Order) -> bool, loss: int -> int)
    requires forall o :: o in q ==> !hit(k, o)
    ensures Shrink(q, k, hit, loss) == q
  {
    if q != [] {
      assert q[0] in q && forall o :: o in q[1..] ==> o in q;
      ShrinkNone(q[1..], k, hit, loss);
    }
  }

  /** Orders are hit by slot: those in `ids`. */
  ghost function HitIds(ids: set<int>): (int, Order) -> bool {
    (k: int, o: Order) => o.id in ids
  }

  /** Hitting one more order, which sits at position |p| of a level already shrunk elsewhere. */
  lemma ShrinkOneMore(q: seq<Order>, j: int, k: int, ids: set<int>, loss: int -> int) returns (p: seq<Order>, t: seq<Order>)
    requires 0 <= j < |q| && q[j].id !in ids && forall i :: 0 <= i < |q| && i != j ==> q[i].id != q[j].id
    ensures Shrink(q, k, HitIds(ids), loss) == p + [q[j]] + t
    ensures Shrink(q, k, HitIds(ids + {q[j].id}), loss) == p + ShrinkOne(q[j], loss) + t
  {
    var h, h' := HitIds(ids), HitIds(ids + {q[j].id});
    var a, b := q[..j], q[j+1..];
    p, t := Shrink(a, k, h, loss), Shrink(b, k, h, loss);
    ShrinkAround(q, j, k, h, loss);
    ShrinkAround(q, j, k, h', loss);
    ShrinkSame(a, k, h, h', loss);
    ShrinkSame(b, k, h, h', loss);
  }

  lemma ShrinkAround(q: seq<Order>, j: int, k: int, hit: (int, Order) -> bool, loss: int -> int)
    requires 0 <= j < |q|
    ensures Shrink(q, k, hit, loss) ==
            Shrink(q[..j], k, hit, loss) + (if hit(k, q[j]) then ShrinkOne(q[j], loss) else [q[j]]) + Shrink(q[j+1..], k, hit, loss)
  {
    hide Shrink, ShrinkOne;
    var a, b := q[..j], q[j+1..];
    var x := if hit(k, q[j]) then ShrinkOne(q[j], loss) else [q[j]];
    assert q == a + ([q[j]] + b);
    ShrinkConcat(a, [q[j]] + b, k, hit, loss);
    ShrinkConcat([q[j]], b, k, hit, loss);
    ShrinkSingle(q[j], k, hit, loss);
    assert Shrink(a, k, hit, loss) + (x + Shrink(b, k, hit, loss)) == Shrink(a, k, hit, loss) + x + Shrink(b, k, hit, loss);
  }

  // ---------------------------------------------------------------- what is left of a level

  /** The orders of `after` are those of `before` at the positions `at`, in the same order; they may be smaller. */
  ghost predicate Remain(before: seq<Order>, after: seq<Order>, at: seq<nat>) {
    && |at| == |after|
    && (forall i, j :: 0 <= i < j < |at| ==> at[i] < at[j])
    && forall i :: 0 <= i < |at| ==>
         at[i] < |before| && after[i].id == before[at[i]].id && after[i].owner == before[at[i]].owner
  }

  /** Which of them remain, and how much of each. */
  ghost predicate Shrunken(q: seq<Order>, r: seq<Order>, at: seq<nat>, k: int, hit: (int, Order) -> bool, loss: int -> int) {
    && Remain(q, r, at)
    && (forall i :: 0 <= i < |at| ==>
          r[i].qty == q[at[i]].qty - (if hit(k, q[at[i]]) then loss(q[at[i]].qty) else 0))
    && forall j :: 0 <= j < |q| ==> (j in at <==> !hit(k, q[j]) || q[j].qty - loss(q[j].qty) > 0)
  }

  lemma {:induction false} ShrinkLeaves(q: seq<Order>, k: int, hit: (int, Order) -> bool, loss: int -> int) returns (at: seq<nat>)
    ensures Shrunken(q, Shrink(q, k, hit, loss), at, k, hit, loss)
  {
    hide Shrink, Shrunken;
    if q == [] {
      at := [];
      NothingLeft(k, hit, loss);
    } else {
      var n := |q| - 1;
      var front, o := q[..n], q[n];
      var at' := ShrinkLeaves(front, k, hit, loss);
      assert q == front + [o];
      ShrinkConcat(front, [o], k, hit, loss);
      ShrinkSingle(o, k, hit, loss);
      at := OneMoreLeft(front, Shrink(front, k, hit, loss), at', o, k, hit, loss);
    }
  }

  lemma NothingLeft(k: int, hit: (int, Order) -> bool, loss: int -> int)
    ensures Shrunken([], Shrink([], k, hit, loss), [], k, hit, loss)
  {
  }

  lemma OneMoreLeft(q: seq<Order>, r: seq<Order>, at: seq<nat>, o: Order, k: int, hit: (int, Order) -> bool, loss: int -> int)
    returns (at': seq<nat>)
    requires Shrunken(q, r, at, k, hit, loss)
    ensures Shrunken(q + [o], r + if hit(k, o) then ShrinkOne(o, loss) else [o], at', k, hit, loss)
  {
    var stays := !hit(k, o) || o.qty - loss(o.qty) > 0;
    at' := at + if stays then [|q|] else [];
    assert |q| !in at;
    forall j | 0 <= j < |q| ensures j in at' <==> j in at {
    }
    assert stays ==> at'[|at|] == |q|;
    assert forall j :: 0 <= j < |q| ==> (q + [o])[j] == q[j];
  }

  // ---------------------------------------------------------------- one bid

  /** Take `loss` off the order at position |p| of its level, or remove it if nothing remains. */
  method ShrinkBid(db: MarketStore, userid: int, resource: int, action: int, price: int, bidid: int, quantity: int,
                   loss: int -> int, ghost p: seq<Order>, ghost t: seq<Order>)
    requires db.Valid() && ValidKey(resource, action, price)
    requires db.Levels()[LevelOf(resource, action, price)] == p + [Order(bidid, userid, quantity)] + t
    modifies db
    ensures db.Valid() && db.mains == old(db.mains) && db.num == old(db.num) && |db.bids| == |old(db.bids)|
    ensures db.Levels() == old(db.Levels())[LevelOf(resource, action, price) :=
              p + ShrinkOne(Order(bidid, userid, quantity), loss) + t]
  {
    hide ShapeOf, IndexAgrees;
    var a := loss(quantity);
    ghost var q := p + [Order(bidid, userid, quantity)] + t;
    assert q[|p|] == Order(bidid, userid, quantity);
    if quantity - a > 0 {
      assert q[|p| := q[|p|].(qty := quantity - a)] == p + [Order(bidid, userid, quantity - a)] + t;
      ResizeBid(db, userid, resource, action, price, bidid, quantity - a, a, |p|);
    } else {
      assert q[..|p|] + q[|p|+1..] == p + [] + t;
      DropBid(db, userid, resource, action, price, bidid, |p|);
    }
  }

  // ---------------------------------------------------------------- the tick

  ghost function Everyone(): (int, Order) -> bool {
    (k: int, o: Order) => true
  }

  /** The level is `done` (already shrunk) followed by `todo`. */
  ghost predicate DecayProgress(levels: seq<seq<Order>>, levels0: seq<seq<Order>>, k: int, loss: int -> int,
                                done: seq<Order>, todo: seq<Order>) {
    && 0 <= k < |levels0|
    && levels == levels0[k := done + todo]
    && Shrink(levels0[k], k, Everyone(), loss) == done + Shrink(todo, k, Everyone(), loss)
  }

  lemma DecayStarts(levels0: seq<seq<Order>>, k: int, loss: int -> int)
    requires 0 <= k < |levels0|
    ensures DecayProgress(levels0, levels0, k, loss, [], levels0[k])
  {
    assert [] + levels0[k] == levels0[k] && levels0[k := levels0[k]] == levels0;
    assert [] + Shrink(levels0[k], k, Everyone(), loss) == Shrink(levels0[k], k, Everyone(), loss);
  }

  lemma DecayStep(levels: seq<seq<Order>>, levels0: seq<seq<Order>>, k: int, loss: int -> int, done: seq<Order>, todo: seq<Order>)
    requires DecayProgress(levels, levels0, k, loss, done, todo) && todo != []
    ensures levels[k] == done + [todo[0]] + todo[1..]
    ensures |levels| == |levels0| && |levels[k]| == |done| + |todo| && levels[k][|done|] == todo[0]
    ensures |todo| > 1 ==> levels[k][|done|+1] == todo[1]
    ensures DecayProgress(levels[k := done + ShrinkOne(todo[0], loss) + todo[1..]], levels0, k, loss,
                          done + ShrinkOne(todo[0], loss), todo[1..])
  {
    var one := ShrinkOne(todo[0], loss);
    assert todo == [todo[0]] + todo[1..];
    assert done + todo == done + [todo[0]] + todo[1..];
    assert Shrink(todo, k, Everyone(), loss) == one + Shrink(todo[1..], k, Everyone(), loss);
    assert done + (one + Shrink(todo[1..], k, Everyone(), loss)) == (done + one) + Shrink(todo[1..], k, Everyone(), loss);
  }

  lemma DecayEnds(levels: seq<seq<Order>>, levels0: seq<seq<Order>>, k: int, loss: int -> int, done: seq<Order>)
    requires DecayProgress(levels, levels0, k, loss, done, [])
    ensures levels == levels0[k := Shrink(levels0[k], k, Everyone(), loss)]
  {
    assert done + [] == done;
  }

  lemma NextInRange(db: MarketStore, k: int, done: seq<Order>, todo: seq<Order>, levels0: seq<seq<Order>>, loss: int -> int)
    requires db.Valid() && DecayProgress(db.Levels(), levels0, k, loss, done, todo)
    ensures todo == [] || 0 <= todo[0].id < SLOT_LIMIT
  {
    LevelFacts(db, k);
    assert db.Levels()[k] == done + todo;
    if todo != [] { assert (done + todo)[|done|] == todo[0]; }
  }

  /** Decay along one price list. */
  method DecayLevel(db: MarketStore, resource: int, action: int, price: int, loss: int -> int)
    requires db.Valid() && ValidKey(resource, action, price)
    modifies db
    ensures db.Valid() && db.mains == old(db.mains) && db.num == old(db.num)
    ensures var k := LevelOf(resource, action, price);
            db.Levels() == old(db.Levels())[k := Shrink(old(db.Levels())[k], k, Everyone(), loss)]
  {
    hide ShapeOf, IndexAgrees, Shrink, ShrinkOne, DecayProgress;
    var k := LevelOf(resource, action, price);
    ghost var l0, done, todo := db.Levels(), [], db.Levels()[k];
    DecayStarts(l0, k, loss);
    var b := db.MarketListStart(resource, action, price);
    NextInRange(db, k, done, todo, l0, loss);
    while 0 <= b < SLOT_LIMIT
      invariant db.Valid() && db.mains == old(db.mains) && db.num == old(db.num)
      invariant DecayProgress(db.Levels(), l0, k, loss, done, todo)
      invariant todo == [] || 0 <= todo[0].id < SLOT_LIMIT
      invariant b == if todo == [] then -1 else todo[0].id
      decreases |todo|
    {
      DecayStep(db.Levels(), l0, k, loss, done, todo);
      var c, quantity, userid := db.MarketListNext(b, k, |done|);
      ShrinkBid(db, userid, resource, action, price, b, quantity, loss, done, todo[1..]);
      done, todo := done + ShrinkOne(todo[0], loss), todo[1..];
      b := c;
      NextInRange(db, k, done, todo, l0, loss);
    }
    DecayEnds(db.Levels(), l0, k, loss, done);
  }

  /** Exactly the levels `done` selects have been shrunk. */
  ghost predicate Decayed(levels: seq<seq<Order>>, levels0: seq<seq<Order>>, done: int -> bool, loss: int -> int) {
    && |levels| == |levels0|
    && forall k :: 0 <= k < |levels| ==>
         levels[k] == if done(k) then Shrink(levels0[k], k, Everyone(), loss) else levels0[k]
  }

  ghost function Between(lo: int, hi: int): int -> bool {
    k => lo <= k < hi
  }

  lemma DecayedGrows(levels: seq<seq<Order>>, levels': seq<seq<Order>>, levels0: seq<seq<Order>>, lo: int, k: int, loss: int -> int)
    requires Decayed(levels, levels0, Between(lo, k), loss) && 0 <= lo <= k < |levels|
    requires levels' == levels[k := Shrink(levels[k], k, Everyone(), loss)]
    ensures Decayed(levels', levels0, Between(lo, k + 1), loss)
  {
  }

  /** All price lists of one side of one resource decay. */
  method DecayRow(db: MarketStore, resource: int, action: int, loss: int -> int)
    requires db.Valid() && ValidKey(resource, action, 0)
    modifies db
    ensures db.Valid() && db.mains == old(db.mains) && db.num == old(db.num)
    ensures var lo := LevelOf(resource, action, 0);
            Decayed(db.Levels(), old(db.Levels()), Between(lo, lo + PRICE_RANGE), loss)
  {
    hide ShapeOf, IndexAgrees, Shrink;
    var price := 0;
    while price < PRICE_RANGE
      invariant 0 <= price <= PRICE_RANGE && db.Valid() && db.mains == old(db.mains) && db.num == old(db.num)
      invariant var lo := LevelOf(resource, action, 0);
                Decayed(db.Levels(), old(db.Levels()), Between(lo, lo + price), loss)
    {
      ghost var before := db.Levels();
      DecayLevel(db, resource, action, price, loss);
      DecayedGrows(before, db.Levels(), old(db.Levels()), LevelOf(resource, action, 0), LevelOf(resource, action, price), loss);
      price := price + 1;
    }
  }

  const CRYSTAL := 1
  const ECTROLIUM := 2

  /** Every buy bid of the market decays ... */
  ghost function BuyBids(): (int, Order) -> bool {
    (k: int, o: Order) => ActionOf(k) == BUY
  }

  /** ... and every sell bid for crystal. */
  ghost function CrystalBids(): (int, Order) -> bool {
    (k: int, o: Order) => ActionOf(k) == SELL && ResourceOf(k) == CRYSTAL
  }

  ghost function BuysBelow(resource: int): int -> bool {
    k => ActionOf(k) == BUY && ResourceOf(k) < resource
  }

  lemma RowDone(l0: seq<seq<Order>>, l1: seq<seq<Order>>, l2: seq<seq<Order>>, resource: int, loss: int -> int)
    requires |l0| == LEVELS && 0 <= resource < 3
    requires Decayed(l1, l0, BuysBelow(resource), loss)
    requires var lo := LevelOf(resource, BUY, 0); Decayed(l2, l1, Between(lo, lo + PRICE_RANGE), loss)
    ensures Decayed(l2, l0, BuysBelow(resource + 1), loss)
  {
    var lo := LevelOf(resource, BUY, 0);
    forall k | 0 <= k < LEVELS
      ensures BuysBelow(resource + 1)(k) == (BuysBelow(resource)(k) || Between(lo, lo + PRICE_RANGE)(k))
      ensures !(BuysBelow(resource)(k) && Between(lo, lo + PRICE_RANGE)(k))
    {
      var p := k - lo;
      if 0 <= p < PRICE_RANGE { LevelRoundTrip(resource, BUY, p); }
    }
  }

  lemma DecayedIsShrink(levels: seq<seq<Order>>, levels0: seq<seq<Order>>, done: int -> bool,
                        hit: (int, Order) -> bool, loss: int -> int)
    requires Decayed(levels, levels0, done, loss)
    requires forall k, o :: 0 <= k < |levels0| ==> (hit(k, o) <==> done(k))
    ensures levels == ShrinkLevels(levels0, hit, loss)
  {
    forall k | 0 <= k < |levels0| ensures levels[k] == Shrink(levels0[k], k, hit, loss) {
      if done(k) { ShrinkSame(levels0[k], k, hit, Everyone(), loss); } else { ShrinkNone(levels0[k], k, hit, loss); }
    }
  }

  /** The end of a tick: buy bids of every resource lose part of their energy, then sell bids of
      crystal part of their crystal. */
  method DecayBids(db: MarketStore, energyLoss: int -> int, crystalLoss: int -> int)
    requires db.Valid()
    modifies db
    ensures db.Valid() && db.mains == old(db.mains) && db.num == old(db.num)
    ensures db.Abs() == Step(Step(old(db.Abs()), Lose(BuyBids(), energyLoss)), Lose(CrystalBids(), crystalLoss))
  {
    hide ShapeOf, IndexAgrees, Shrink;
    ghost var l0 := db.Levels();
    var resource := 0;
    assert Decayed(l0, l0, BuysBelow(0), energyLoss);
    while resource < 3
      invariant 0 <= resource <= 3 && db.Valid() && db.mains == old(db.mains) && db.num == old(db.num)
      invariant Decayed(db.Levels(), l0, BuysBelow(resource), energyLoss)
    {
      ghost var l1 := db.Levels();
      DecayRow(db, resource, BUY, energyLoss);
      RowDone(l0, l1, db.Levels(), resource, energyLoss);
      resource := resource + 1;
    }
    DecayedIsShrink(db.Levels(), l0, BuysBelow(3), BuyBids(), energyLoss);
    ghost var l2 := db.Levels();
    DecayRow(db, CRYSTAL, SELL, crystalLoss);
    DecayedIsShrink(db.Levels(), l2, Between(LevelOf(CRYSTAL, SELL, 0), LevelOf(CRYSTAL, SELL, 0) + PRICE_RANGE),
                    CrystalBids(), crystalLoss);
  }

  /** The smallest whole number not below a fraction of the quantity. */
  function CeilOf(rate: real): int -> int {
    (q: int) => -((-(rate * q as real)).Floor)
  }

  lemma CeilIs(rate: real, q: int)
    ensures rate * q as real <= CeilOf(rate)(q) as real < rate * q as real + 1.0
  {
  }

  const ENERGY_DECAY := 0.005
  const CRYSTAL_DECAY := 0.02

  /** Every order loses at least one unit a tick and never more than it has, so it disappears after
      finitely many ticks. */
  lemma TickTakesSomething(rate: real, q: int)
    requires 0.0 < rate <= 1.0 && q > 0
    ensures 0 < CeilOf(rate)(q) <= q
  {
    var x := rate * q as real;
    assert 0.0 < x;
    assert x <= q as real;
  }

  /** Every order of a level loses the least whole number not below an n-th of it, and is gone if that is all. */
  ghost predicate Aged(before: seq<Order>, after: seq<Order>, n: int) {
    exists at ::
      && Remain(before, after, at)
      && (forall i :: 0 <= i < |at| ==>
            var q, lost := before[at[i]].qty, before[at[i]].qty - after[i].qty; (lost - 1) * n < q <= lost * n)
      && forall j :: 0 <= j < |before| ==> (j in at <==> before[j].qty > 1)
  }

  lemma RateIs(n: int, rate: real, q: int)
    requires (n == 200 && rate == ENERGY_DECAY) || (n == 50 && rate == CRYSTAL_DECAY)
    ensures var lost := CeilOf(rate)(q); (lost - 1) * n < q <= lost * n && (q - lost > 0 <==> q > 1)
  {
    hide CeilOf;
    CeilIs(rate, q);
  }

  lemma ShrinkAges(q: seq<Order>, k: int, hit: (int, Order) -> bool, n: int, rate: real)
    requires (n == 200 && rate == ENERGY_DECAY) || (n == 50 && rate == CRYSTAL_DECAY)
    requires forall o :: o in q ==> hit(k, o)
    ensures Aged(q, Shrink(q, k, hit, CeilOf(rate)), n)
  {
    hide Shrink, CeilOf;
    var r := Shrink(q, k, hit, CeilOf(rate));
    var at := ShrinkLeaves(q, k, hit, CeilOf(rate));
    forall j | 0 <= j < |q|
      ensures var o, lost := q[j], CeilOf(rate)(q[j].qty);
              hit(k, o) && (lost - 1) * n < o.qty <= lost * n && (o.qty - lost > 0 <==> o.qty > 1)
    {
      assert q[j] in q;
      RateIs(n, rate, q[j].qty);
    }
    assert Remain(q, r, at);
  }

  /** One tick: of every buy order the 200th part goes, rounded up, of every sale of crystal the 50th, and nothing of
      any other sale. */
  ghost predicate Ticked(before: seq<seq<Order>>, after: seq<seq<Order>>)
    requires |before| == |after| == LEVELS
  {
    forall resource, price :: 0 <= resource < 3 && 0 <= price < PRICE_RANGE ==>
      var buy, sale := LevelOf(resource, BUY, price), LevelOf(resource, SELL, price);
      && Aged(before[buy], after[buy], 200)
      && if resource == CRYSTAL then Aged(before[sale], after[sale], 50) else after[sale] == before[sale]
  }

  lemma DecayTicks(levels: seq<seq<Order>>)
    requires |levels| == LEVELS
    ensures Ticked(levels, ShrinkLevels(ShrinkLevels(levels, BuyBids(), CeilOf(ENERGY_DECAY)), CrystalBids(), CeilOf(CRYSTAL_DECAY)))
  {
    hide Shrink, CeilOf, Aged;
    var l1 := ShrinkLevels(levels, BuyBids(), CeilOf(ENERGY_DECAY));
    var l2 := ShrinkLevels(l1, CrystalBids(), CeilOf(CRYSTAL_DECAY));
    forall resource, price | 0 <= resource < 3 && 0 <= price < PRICE_RANGE
      ensures var buy, sale := LevelOf(resource, BUY, price), LevelOf(resource, SELL, price);
              && Aged(levels[buy], l2[buy], 200)
              && if resource == CRYSTAL then Aged(levels[sale], l2[sale], 50) else l2[sale] == levels[sale]
    {
      var buy, sale := LevelOf(resource, BUY, price), LevelOf(resource, SELL, price);
      LevelRoundTrip(resource, BUY, price);
      LevelRoundTrip(resource, SELL, price);
      ShrinkAges(levels[buy], buy, BuyBids(), 200, ENERGY_DECAY);
      ShrinkNone(l1[buy], buy, CrystalBids(), CeilOf(CRYSTAL_DECAY));
      ShrinkNone(levels[sale], sale, BuyBids(), CeilOf(ENERGY_DECAY));
      if resource == CRYSTAL { ShrinkAges(l1[sale], sale, CrystalBids(), 50, CRYSTAL_DECAY); }
      else { ShrinkNone(l1[sale], sale, CrystalBids(), CeilOf(CRYSTAL_DECAY)); }
    }
  }

  method Tick(db: MarketStore)
    requires db.Valid()
    modifies db
    ensures db.Valid() && db.mains == old(db.mains)
    ensures Ticked(old(db.Levels()), db.Levels())
    ensures db.Abs() == Step(Step(old(db.Abs()), Lose(BuyBids(), CeilOf(ENERGY_DECAY))), Lose(CrystalBids(), CeilOf(CRYSTAL_DECAY)))
    ensures old(db.Sound()) ==> db.Sound()
  {
    hide ShapeOf, IndexAgrees, NeverCrossed, WellFormed, CeilOf, Ticked, ShrinkLevels;
    forall x: int | 0 < x ensures 0 <= CeilOf(ENERGY_DECAY)(x) && 0 <= CeilOf(CRYSTAL_DECAY)(x) {
      TickTakesSomething(ENERGY_DECAY, x);
      TickTakesSomething(CRYSTAL_DECAY, x);
    }
    SoundIs(db);
    DecayTicks(db.Levels());
    DecayBids(db, CeilOf(ENERGY_DECAY), CeilOf(CRYSTAL_DECAY));
    SoundIs(db);
    if old(db.Sound()) {
      OrderRuns.StepKeepsInvariant(old(db.Abs()), Lose(BuyBids(), CeilOf(ENERGY_DECAY)));
      OrderRuns.StepKeepsInvariant(Step(old(db.Abs()), Lose(BuyBids(), CeilOf(ENERGY_DECAY))), Lose(CrystalBids(), CeilOf(CRYSTAL_DECAY)));
    }
  }

  // ---------------------------------------------------------------- one user's bids

  /** The bids of a user's list, up to position n, that an operation applies to. */
  ghost function IdsOf(l: seq<UserBid>, n: int, applies: UserBid -> bool): set<int>
    requires 0 <= n <= |l|
  {
    set j | 0 <= j < n && applies(l[j]) :: l[j].bidid
  }

  ghost predicate ShrunkBy(levels: seq<seq<Order>>, levels0: seq<seq<Order>>, ids: set<int>, loss: int -> int) {
    && |levels| == |levels0|
    && forall k :: 0 <= k < |levels| ==> levels[k] == Shrink(levels0[k], k, HitIds(ids), loss)
  }

  /** One more bid of the list is hit: it still sits untouched at its level. */
  lemma ShrunkByOneMore(levels: seq<seq<Order>>, levels0: seq<seq<Order>>, ids: set<int>, loss: int -> int, k0: int, o: Order)
    returns (p: seq<Order>, t: seq<Order>)
    requires ShrunkBy(levels, levels0, ids, loss) && DistinctSlots(levels0)
    requires 0 <= k0 < |levels0| && o in levels0[k0] && o.id !in ids
    ensures levels[k0] == p + [o] + t
    ensures ShrunkBy(levels[k0 := p + ShrinkOne(o, loss) + t], levels0, ids + {o.id}, loss)
  {
    var j :| 0 <= j < |levels0[k0]| && levels0[k0][j] == o;
    p, t := ShrinkOneMore(levels0[k0], j, k0, ids, loss);
    forall k | 0 <= k < |levels0| && k != k0
      ensures Shrink(levels0[k], k, HitIds(ids + {o.id}), loss) == levels[k]
    {
      forall x | x in levels0[k] ensures HitIds(ids)(k, x) == HitIds(ids + {o.id})(k, x) {
        OnlyOne(levels0, k0, j, k, x);
      }
      ShrinkSame(levels0[k], k, HitIds(ids), HitIds(ids + {o.id}), loss);
    }
  }

  /** The bids of user `id` an operation applies to. */
  ghost function OwnBids(id: int, applies: UserBid -> bool): (int, Order) -> bool {
    (k: int, o: Order) => o.owner == id && applies(UserBid(ActionOf(k), ResourceOf(k), PriceOf(k), o.qty, o.id))
  }

  lemma OwnBidsAre(levels: seq<seq<Order>>, bids: seq<seq<UserBid>>, id: int, applies: UserBid -> bool, loss: int -> int)
    requires |levels| == LEVELS && IndexAgrees(levels, bids) && DistinctSlots(levels) && 0 <= id < |bids|
    ensures ShrinkLevels(levels, OwnBids(id, applies), loss)
              == seq(LEVELS, k requires 0 <= k < LEVELS => Shrink(levels[k], k, HitIds(IdsOf(bids[id], |bids[id]|, applies)), loss))
  {
    var ids := IdsOf(bids[id], |bids[id]|, applies);
    forall k | 0 <= k < LEVELS
      ensures Shrink(levels[k], k, OwnBids(id, applies), loss) == Shrink(levels[k], k, HitIds(ids), loss)
    {
      forall o | o in levels[k] ensures OwnBids(id, applies)(k, o) == HitIds(ids)(k, o) {
        OwnBidIs(levels, bids, id, applies, k, o);
      }
      ShrinkSame(levels[k], k, OwnBids(id, applies), HitIds(ids), loss);
    }
  }

  lemma OwnBidIs(levels: seq<seq<Order>>, bids: seq<seq<UserBid>>, id: int, applies: UserBid -> bool, k: int, o: Order)
    requires |levels| == LEVELS && IndexAgrees(levels, bids) && DistinctSlots(levels) && 0 <= id < |bids|
    requires 0 <= k < LEVELS && o in levels[k]
    ensures OwnBids(id, applies)(k, o) <==> o.id in IdsOf(bids[id], |bids[id]|, applies)
  {
    var r := UserBid(ActionOf(k), ResourceOf(k), PriceOf(k), o.qty, o.id);
    assert LevelOf(r.resource, r.action, r.price) == k;
    var l := bids[id];
    if o.owner == id {
      assert InBook(levels, id, r);
      assert r in l;
    }
    var i :| 0 <= i < |levels[k]| && levels[k][i] == o;
    forall j | 0 <= j < |l| && l[j].bidid == o.id ensures o.owner == id && l[j] == r {
      assert l[j] in l && InBook(levels, id, l[j]);
      OnlyOne(levels, k, i, LevelOf(l[j].resource, l[j].action, l[j].price), Order(l[j].bidid, id, l[j].quantity));
      LevelRoundTrip(l[j].resource, l[j].action, l[j].price);
    }
  }

  /** Walk a copy of the user's list taken beforehand and shrink or remove every bid it applies to. */
  method ReduceUserBids(db: MarketStore, id: int, applies: UserBid -> bool, loss: int -> int)
    requires db.Valid() && 0 <= id < |db.bids|
    modifies db
    ensures db.Valid() && db.mains == old(db.mains) && db.num == old(db.num)
    ensures db.Levels() == ShrinkLevels(old(db.Levels()), OwnBids(id, applies), loss)
  {
    hide ShapeOf, IndexAgrees, Shrink, ShrinkOne, InBook;
    var buffer := db.bids[id];
    ghost var l0 := db.Levels();
    StoreDistinct(db);
    ShrunkByNone(l0, loss);
    assert IdsOf(buffer, 0, applies) == {};
    var a := 0;
    while a < |buffer|
      invariant 0 <= a <= |buffer| && db.Valid() && db.mains == old(db.mains) && db.num == old(db.num)
      invariant ShrunkBy(db.Levels(), l0, IdsOf(buffer, a, applies), loss)
    {
      var r := buffer[a];
      NextBid(l0, old(db.bids), id, a, applies);
      ghost var ids := IdsOf(buffer, a, applies);
      assert !applies(r) ==> IdsOf(buffer, a + 1, applies) == ids;
      if applies(r) {
        ghost var p, t := ShrunkByOneMore(db.Levels(), l0, IdsOf(buffer, a, applies), loss,
                                          LevelOf(r.resource, r.action, r.price), Order(r.bidid, id, r.quantity));
        ShrinkBid(db, id, r.resource, r.action, r.price, r.bidid, r.quantity, loss, p, t);
      }
      a := a + 1;
    }
    OwnBidsAre(l0, old(db.bids), id, applies, loss);
  }

  lemma ShrunkByNone(levels: seq<seq<Order>>, loss: int -> int)
    ensures ShrunkBy(levels, levels, {}, loss)
  {
    forall k | 0 <= k < |levels| ensures Shrink(levels[k], k, HitIds({}), loss) == levels[k] {
      ShrinkNone(levels[k], k, HitIds({}), loss);
    }
  }

  lemma NextBid(levels: seq<seq<Order>>, bids: seq<seq<UserBid>>, id: int, a: int, applies: UserBid -> bool)
    requires |levels| == LEVELS && IndexAgrees(levels, bids) && 0 <= id < |bids| && 0 <= a < |bids[id]|
    ensures var r := bids[id][a];
            && ValidKey(r.resource, r.action, r.price)
            && Order(r.bidid, id, r.quantity) in levels[LevelOf(r.resource, r.action, r.price)]
            && r.bidid !in IdsOf(bids[id], a, applies)
            && IdsOf(bids[id], a + 1, applies) == IdsOf(bids[id], a, applies) + (if applies(r) then {r.bidid} else {})
  {
    assert bids[id][a] in bids[id];
    assert InBook(levels, id, bids[id][a]);
  }

  function IsBuy(): UserBid -> bool { (r: UserBid) => r.action == BUY }
  function IsEctroliumSale(): UserBid -> bool { (r: UserBid) => r.action != BUY && r.resource == ECTROLIUM }
  function IsAny(): UserBid -> bool { _ => true }
  function All(): int -> int { q => q }

  /** Every order of player `id` at a level loses this part of it, rounded up, and is gone if that is all. */
  ghost predicate Reduced(before: seq<Order>, after: seq<Order>, id: int, rate: real) {
    exists at ::
      && Remain(before, after, at)
      && (forall i :: 0 <= i < |at| ==>
            var q, lost := before[at[i]].qty, before[at[i]].qty - after[i].qty;
            if before[at[i]].owner == id then rate * q as real <= lost as real < rate * q as real + 1.0 else lost == 0)
      && forall j :: 0 <= j < |before| ==>
           (j in at <==> before[j].owner != id || rate * before[j].qty as real <= (before[j].qty - 1) as real)
  }

  lemma CeilNotNegative(rate: real, q: int)
    requires rate >= 0.0 && q > 0
    ensures CeilOf(rate)(q) >= 0
  {
    hide CeilOf;
    CeilIs(rate, q);
    assert rate * q as real >= 0.0;
  }

  lemma ShrinkReduces(q: seq<Order>, k: int, hit: (int, Order) -> bool, id: int, rate: real)
    requires forall o :: o in q ==> (hit(k, o) <==> o.owner == id)
    ensures Reduced(q, Shrink(q, k, hit, CeilOf(rate)), id, rate)
  {
    hide Shrink, CeilOf;
    var r := Shrink(q, k, hit, CeilOf(rate));
    var at := ShrinkLeaves(q, k, hit, CeilOf(rate));
    forall j | 0 <= j < |q|
      ensures var o, lost := q[j], CeilOf(rate)(q[j].qty);
              && (hit(k, o) <==> o.owner == id)
              && rate * o.qty as real <= lost as real < rate * o.qty as real + 1.0
              && (o.qty - lost > 0 <==> rate * o.qty as real <= (o.qty - 1) as real)
    {
      assert q[j] in q;
      CeilIs(rate, q[j].qty);
    }
    assert Remain(q, r, at);
  }

  /** Part of the energy a player has bound in buy bids is destroyed. */
  method ReduceEnergyBids(db: MarketStore, id: int, rate: real)
    requires db.Valid() && 0 <= id < |db.bids|
    modifies db
    ensures db.Valid() && db.mains == old(db.mains) && db.num == old(db.num)
    ensures forall resource, action, price :: ValidKey(resource, action, price) ==>
              var k := LevelOf(resource, action, price);
              if action == BUY then Reduced(old(db.Levels())[k], db.Levels()[k], id, rate)
              else db.Levels()[k] == old(db.Levels())[k]
    ensures db.Abs() == Step(old(db.Abs()), Lose(OwnBids(id, IsBuy()), CeilOf(rate)))
    ensures rate >= 0.0 && old(db.Sound()) ==> db.Sound()
  {
    hide ShapeOf, IndexAgrees, NeverCrossed, WellFormed, Shrink, CeilOf, Reduced;
    SoundIs(db);
    ReduceUserBids(db, id, IsBuy(), CeilOf(rate));
    forall resource, action, price | ValidKey(resource, action, price)
      ensures var k := LevelOf(resource, action, price);
              if action == BUY then Reduced(old(db.Levels())[k], db.Levels()[k], id, rate)
              else db.Levels()[k] == old(db.Levels())[k]
    {
      var k := LevelOf(resource, action, price);
      LevelRoundTrip(resource, action, price);
      if action == BUY { ShrinkReduces(old(db.Levels())[k], k, OwnBids(id, IsBuy()), id, rate); }
      else { ShrinkNone(old(db.Levels())[k], k, OwnBids(id, IsBuy()), CeilOf(rate)); }
    }
    SoundIs(db);
    if old(db.Sound()) && rate >= 0.0 {
      forall x: int | 0 < x ensures 0 <= CeilOf(rate)(x) { CeilNotNegative(rate, x); }
      OrderRuns.StepKeepsInvariant(old(db.Abs()), Lose(OwnBids(id, IsBuy()), CeilOf(rate)));
    }
  }

  /** Part of the ectrolium a player has on sale is destroyed. */
  method ReduceEctroliumBids(db: MarketStore, id: int, rate: real)
    requires db.Valid() && 0 <= id < |db.bids|
    modifies db
    ensures db.Valid() && db.mains == old(db.mains) && db.num == old(db.num)
    ensures forall resource, action, price :: ValidKey(resource, action, price) ==>
              var k := LevelOf(resource, action, price);
              if action == SELL && resource == ECTROLIUM then Reduced(old(db.Levels())[k], db.Levels()[k], id, rate)
              else db.Levels()[k] == old(db.Levels())[k]
    ensures db.Abs() == Step(old(db.Abs()), Lose(OwnBids(id, IsEctroliumSale()), CeilOf(rate)))
    ensures rate >= 0.0 && old(db.Sound()) ==> db.Sound()
  {
    hide ShapeOf, IndexAgrees, NeverCrossed, WellFormed, Shrink, CeilOf, Reduced;
    SoundIs(db);
    ReduceUserBids(db, id, IsEctroliumSale(), CeilOf(rate));
    forall resource, action, price | ValidKey(resource, action, price)
      ensures var k := LevelOf(resource, action, price);
              if action == SELL && resource == ECTROLIUM then Reduced(old(db.Levels())[k], db.Levels()[k], id, rate)
              else db.Levels()[k] == old(db.Levels())[k]
    {
      var k := LevelOf(resource, action, price);
      LevelRoundTrip(resource, action, price);
      if action == SELL && resource == ECTROLIUM { ShrinkReduces(old(db.Levels())[k], k, OwnBids(id, IsEctroliumSale()), id, rate); }
      else { ShrinkNone(old(db.Levels())[k], k, OwnBids(id, IsEctroliumSale()), CeilOf(rate)); }
    }
    SoundIs(db);
    if old(db.Sound()) && rate >= 0.0 {
      forall x: int | 0 < x ensures 0 <= CeilOf(rate)(x) { CeilNotNegative(rate, x); }
      OrderRuns.StepKeepsInvariant(old(db.Abs()), Lose(OwnBids(id, IsEctroliumSale()), CeilOf(rate)));
    }
  }

  /** A deactivated player's bids all leave the market. */
  method RemoveAllBids(db: MarketStore, id: int)
    requires db.Valid() && 0 <= id < |db.bids|
    modifies db
    ensures db.Valid() && db.mains == old(db.mains) && db.num == old(db.num)
    ensures db.bids[id] == []
    ensures forall k, o :: 0 <= k < LEVELS ==>
              (o in db.Levels()[k] <==> o in old(db.Levels())[k] && o.owner != id)
    ensures old(db.Sound()) ==> db.Sound()
  {
    hide ShapeOf, IndexAgrees, Shrink, NeverCrossed, WellFormed;
    SoundIs(db);
    ReduceUserBids(db, id, IsAny(), All());
    SoundIs(db);
    if old(db.Sound()) { OrderRuns.StepKeepsInvariant(old(db.Abs()), Lose(OwnBids(id, IsAny()), All())); }
    forall k, o | 0 <= k < LEVELS
      ensures o in db.Levels()[k] <==> o in old(db.Levels())[k] && o.owner != id
    {
      RemovedMembers(old(db.Levels())[k], k, id, o);
    }
    ListedMeansLive(db.Levels(), db.bids, id);
  }

  lemma ListedMeansLive(levels: seq<seq<Order>>, bids: seq<seq<UserBid>>, id: int)
    requires |levels| == LEVELS && IndexAgrees(levels, bids) && 0 <= id < |bids|
    ensures bids[id] == [] || exists k, o :: 0 <= k < LEVELS && o in levels[k] && o.owner == id
  {
    if bids[id] != [] {
      var r := bids[id][0];
      assert r in bids[id] && InBook(levels, id, r);
      assert Order(r.bidid, id, r.quantity) in levels[LevelOf(r.resource, r.action, r.price)];
    }
  }

  lemma {:induction false} RemovedMembers(q: seq<Order>, k: int, id: int, o: Order)
    ensures o in Shrink(q, k, OwnBids(id, IsAny()), All()) <==> o in q && o.owner != id
  {
    if q != [] {
      RemovedMembers(q[1..], k, id, o);
      assert q == [q[0]] + q[1..];
    }
  }
}
