/** What the market operations do to the whole market, and what no run of them can break. */
module OrderWorld {
  import opened OrderBook

  // ---------------------------------------------------------------- sums

  function Qty(q: seq<Order>): int {
    if q == [] then 0 else q[0].qty + Qty(q[1..])
  }

  lemma {:induction false} QtyConcat(a: seq<Order>, b: seq<Order>)
    ensures Qty(a + b) == Qty(a) + Qty(b)
  {
    if a == [] {
      assert a + b == b;
    } else {
      assert (a + b)[1..] == a[1..] + b;
      QtyConcat(a[1..], b);
    }
  }

  /** What the fills cost at their execution prices. */
  function Cost(fills: seq<Fill>): int {
    if fills == [] then 0 else fills[0].price * fills[0].amount + Cost(fills[1..])
  }

  lemma {:induction false} FillsConcat(a: seq<Fill>, b: seq<Fill>)
    ensures FillQty(a + b) == FillQty(a) + FillQty(b) && Cost(a + b) == Cost(a) + Cost(b)
  {
    if a == [] {
      assert a + b == b;
    } else {
      assert (a + b)[1..] == a[1..] + b;
      FillsConcat(a[1..], b);
    }
  }

  /** The weighted quantity resting in the book, level by level. */
  ghost function Escrow(levels: seq<seq<Order>>, w: int -> int): int {
    if levels == [] then 0
    else Escrow(levels[..|levels|-1], w) + w(|levels|-1) * Qty(levels[|levels|-1])
  }

  lemma {:induction false} EscrowUpdate(levels: seq<seq<Order>>, w: int -> int, k: int, q: seq<Order>)
    requires 0 <= k < |levels|
    ensures Escrow(levels[k := q], w) == Escrow(levels, w) + w(k) * (Qty(q) - Qty(levels[k]))
  {
    var n := |levels| - 1;
    var changed := levels[k := q];
    if k == n {
      assert changed[..n] == levels[..n];
    } else {
      assert changed[..n] == levels[..n][k := q];
      EscrowUpdate(levels[..n], w, k, q);
    }
  }

  /** Escrowed goods of one resource sit in its sell lists, escrowed energy in the buy lists. */
  ghost function GoodsWeight(resource: int): int -> int {
    k => if ActionOf(k) == SELL && ResourceOf(k) == resource then 1 else 0
  }

  ghost function EnergyWeight(): int -> int {
    k => if ActionOf(k) == BUY then PriceOf(k) else 0
  }

  ghost function Held(users: seq<User>, what: int): int
    requires 0 <= what < 4
  {
    if users == [] then 0 else Held(users[..|users|-1], what) + users[|users|-1].ressource[what]
  }

  /** Everything of one resource that exists: in purses and in sell orders. */
  ghost function Goods(w: World, resource: int): int
    requires 0 <= resource < 3
  {
    Held(w.users, resource + 1) + Escrow(w.levels, GoodsWeight(resource))
  }

  /** All energy that exists: in purses and behind buy orders. */
  ghost function Energy(w: World): int {
    Held(w.users, ENERGY) + Escrow(w.levels, EnergyWeight())
  }

  // ---------------------------------------------------------------- purses

  /** A credit to a user that does not exist is lost, as a failed retrieve-and-set is. */
  function Credit(users: seq<User>, u: int, what: int, amount: int): (r: seq<User>)
    requires 0 <= what < 4
    ensures |r| == |users|
  {
    if 0 <= u < |users| then
      users[u := users[u].(ressource := users[u].ressource[what := users[u].ressource[what] + amount])]
    else users
  }

  /** One execution: the buyer gets the goods, the seller the energy, at the resting price. */
  function SettleOne(users: seq<User>, taker: int, action: int, resource: int, f: Fill): (r: seq<User>)
    requires 0 <= resource < 3
    ensures |r| == |users|
  {
    if action == BUY then
      Credit(Credit(users, taker, resource + 1, f.amount), f.owner, ENERGY, f.price * f.amount)
    else
      Credit(Credit(users, taker, ENERGY, f.price * f.amount), f.owner, resource + 1, f.amount)
  }

  function Settle(users: seq<User>, taker: int, action: int, resource: int, fills: seq<Fill>): (r: seq<User>)
    requires 0 <= resource < 3
    ensures |r| == |users|
  {
    if fills == [] then users
    else SettleOne(Settle(users, taker, action, resource, fills[..|fills|-1]), taker, action, resource, fills[|fills|-1])
  }

  lemma {:induction false} HeldCredit(users: seq<User>, u: int, what: int, amount: int, k: int)
    requires 0 <= what < 4 && 0 <= k < 4 && 0 <= u < |users|
    ensures Held(Credit(users, u, what, amount), k) == Held(users, k) + (if k == what then amount else 0)
  {
    var n := |users| - 1;
    var changed := Credit(users, u, what, amount);
    if u == n {
      assert changed[..n] == users[..n];
    } else {
      assert changed[..n] == Credit(users[..n], u, what, amount);
      HeldCredit(users[..n], u, what, amount, k);
    }
  }

  ghost predicate OwnersIn(fills: seq<Fill>, n: int) {
    forall i :: 0 <= i < |fills| ==> 0 <= fills[i].owner < n
  }

  lemma SettleOneTotals(users: seq<User>, taker: int, action: int, resource: int, f: Fill, k: int)
    requires 0 <= resource < 3 && 0 <= taker < |users| && 0 <= f.owner < |users| && 0 <= k < 4
    ensures Held(SettleOne(users, taker, action, resource, f), k) == Held(users, k)
              + (if k == resource + 1 then f.amount else if k == ENERGY then f.price * f.amount else 0)
  {
    hide Held;
    if action == BUY {
      HeldCredit(users, taker, resource + 1, f.amount, k);
      HeldCredit(Credit(users, taker, resource + 1, f.amount), f.owner, ENERGY, f.price * f.amount, k);
    } else {
      HeldCredit(users, taker, ENERGY, f.price * f.amount, k);
      HeldCredit(Credit(users, taker, ENERGY, f.price * f.amount), f.owner, resource + 1, f.amount, k);
    }
  }

  /** What each purse item gains by a list of executions. */
  function Gain(fills: seq<Fill>, resource: int, k: int): int {
    if k == resource + 1 then FillQty(fills) else if k == ENERGY then Cost(fills) else 0
  }

  /** Whoever trades with whom, including with himself: each execution adds its goods and its
      energy to the purses exactly once. */
  lemma {:induction false} SettleTotals(users: seq<User>, taker: int, action: int, resource: int, fills: seq<Fill>, k: int)
    requires 0 <= resource < 3 && 0 <= taker < |users| && OwnersIn(fills, |users|) && 0 <= k < 4
    ensures Held(Settle(users, taker, action, resource, fills), k) == Held(users, k) + Gain(fills, resource, k)
  {
    hide Held, SettleOne;
    if fills != [] {
      var front, f := fills[..|fills|-1], fills[|fills|-1];
      SettleTotals(users, taker, action, resource, front, k);
      assert fills == front + [f];
      FillsConcat(front, [f]);
      assert FillQty([f]) == f.amount + FillQty([]) && Cost([f]) == f.price * f.amount + Cost([]);
      SettleOneTotals(Settle(users, taker, action, resource, front), taker, action, resource, f, k);
    }
  }

  // ---------------------------------------------------------------- the operations

  datatype Request = Request(user: int, action: int, resource: int, price: int, quantity: int)

  /** When a bid is taken at all. */
  predicate Accepts(w: World, started: bool, rq: Request) {
    && 0 <= rq.resource < 3 && 0 <= rq.action < 2
    && started
    && 1 <= rq.price < PRICE_RANGE
    && rq.quantity <= 2000000000 / rq.price
    && 0 <= rq.user < |w.users|
    && w.users[rq.user].empire != -1
    && if rq.action == BUY then w.users[rq.user].ressource[ENERGY] >= rq.price * rq.quantity
       else w.users[rq.user].ressource[rq.resource + 1] >= rq.quantity
  }

  /** A buyer puts up price * quantity energy, a seller the goods. */
  function Deposit(users: seq<User>, rq: Request): (r: seq<User>)
    requires 0 <= rq.resource < 3
    ensures |r| == |users|
  {
    if rq.action == BUY then Credit(users, rq.user, ENERGY, -(rq.price * rq.quantity))
    else Credit(users, rq.user, rq.resource + 1, -rq.quantity)
  }

  function BookSweep(levels: seq<seq<Order>>, rq: Request): (s: Swept)
    requires |levels| == LEVELS && ValidKey(rq.resource, rq.action, rq.price)
    ensures |s.levels| == LEVELS
  {
    Sweep(levels, LevelOf(rq.resource, 1 - rq.action, 0), LimitPrices(rq.action, rq.price), rq.quantity)
  }

  function AddBid(w: World, rq: Request, slot: int): (r: World)
    requires |w.levels| == LEVELS && ValidKey(rq.resource, rq.action, rq.price)
    ensures |r.levels| == LEVELS && |r.users| == |w.users|
  {
    var s := BookSweep(w.levels, rq);
    var k := LevelOf(rq.resource, rq.action, rq.price);
    World(if s.left != 0 then s.levels[k := s.levels[k] + [Order(slot, rq.user, s.left)]] else s.levels,
          Settle(Deposit(w.users, rq), rq.user, rq.action, rq.resource, s.fills))
  }

  function Without(q: seq<Order>, id: int): seq<Order> {
    if q == [] then []
    else if q[0].id == id then q[1..]
    else [q[0]] + Without(q[1..], id)
  }

  ghost predicate Rests(w: World, user: int, k: int, o: Order) {
    0 <= k < |w.levels| && o in w.levels[k] && o.owner == user
  }

  /** Taking an order back: the energy or the goods behind it return to the owner. */
  function RemoveBid(w: World, k: int, o: Order): (r: World)
    requires |w.levels| == LEVELS && 0 <= k < LEVELS
    ensures |r.levels| == LEVELS && |r.users| == |w.users|
  {
    World(w.levels[k := Without(w.levels[k], o.id)],
          if ActionOf(k) == BUY then Credit(w.users, o.owner, ENERGY, o.qty * PriceOf(k))
          else Credit(w.users, o.owner, ResourceOf(k) + 1, o.qty))
  }

  /** Shrinking the orders `hit` selects by `loss(qty)`; an order with nothing left disappears. */
  function Shrink(q: seq<Order>, k: int, hit: (int, Order) -> bool, loss: int -> int): seq<Order> {
    if q == [] then []
    else
      var o, rest := q[0], Shrink(q[1..], k, hit, loss);
      if !hit(k, o) then [o] + rest
      else if o.qty - loss(o.qty) > 0 then [o.(qty := o.qty - loss(o.qty))] + rest
      else rest
  }

  function ShrinkLevels(levels: seq<seq<Order>>, hit: (int, Order) -> bool, loss: int -> int): (r: seq<seq<Order>>)
    ensures |r| == |levels|
  {
    seq(|levels|, k requires 0 <= k < |levels| => Shrink(levels[k], k, hit, loss))
  }

  datatype Op =
    | Place(rq: Request, slot: int)
    | Withdraw(k: int, order: Order)
    | Lose(hit: (int, Order) -> bool, loss: int -> int)

  ghost predicate Unused(levels: seq<seq<Order>>, slot: int) {
    forall k, i :: 0 <= k < |levels| && 0 <= i < |levels[k]| ==> levels[k][i].id != slot
  }

  /** What a step may look like: a new order rests in a slot unused after its matching, which may
      be the slot of an order it has just consumed; withdrawn orders exist; losses are no gains. */
  ghost predicate Enabled(w: World, op: Op) {
    match op
    case Place(rq, slot) => rq.quantity >= 0 && Accepts(w, true, rq) && |w.levels| == LEVELS && Unused(BookSweep(w.levels, rq).levels, slot)
    case Withdraw(k, o) => Rests(w, o.owner, k, o)
    case Lose(hit, loss) => forall x: int :: 0 < x ==> 0 <= loss(x)
  }

  function Step(w: World, op: Op): (r: World)
    requires |w.levels| == LEVELS
    requires op.Place? ==> ValidKey(op.rq.resource, op.rq.action, op.rq.price)
    requires op.Withdraw? ==> 0 <= op.k < LEVELS
    ensures |r.levels| == LEVELS && |r.users| == |w.users|
  {
    match op
    case Place(rq, slot) => AddBid(w, rq, slot)
    case Withdraw(k, o) => RemoveBid(w, k, o)
    case Lose(hit, loss) => w.(levels := ShrinkLevels(w.levels, hit, loss))
  }

  // ---------------------------------------------------------------- the invariant

  /** Orders of positive size, owned by existing users, each in its own slot. */
  ghost predicate WellFormed(w: World) {
    && |w.levels| == LEVELS
    && PositiveLevels(w.levels)
    && (forall k, i :: 0 <= k < LEVELS && 0 <= i < |w.levels[k]| ==> 0 <= w.levels[k][i].owner < |w.users|)
    && DistinctSlots(w.levels)
  }

  ghost predicate DistinctSlots(levels: seq<seq<Order>>) {
    forall k, i, k', i' ::
      (&& 0 <= k < |levels| && 0 <= i < |levels[k]|
       && 0 <= k' < |levels| && 0 <= i' < |levels[k']|
       && levels[k][i].id == levels[k'][i'].id) ==> k == k' && i == i'
  }

  /** Every live buy price is strictly below every live sell price of the same resource. */
  ghost predicate NeverCrossed(levels: seq<seq<Order>>)
    requires |levels| == LEVELS
  {
    forall resource, buy, sell ::
      (&& ValidKey(resource, BUY, buy) && ValidKey(resource, SELL, sell)
       && levels[LevelOf(resource, BUY, buy)] != [] && levels[LevelOf(resource, SELL, sell)] != [])
      ==> buy < sell
  }

  /** A user with some of the first resource and nothing else. */
  function Owns(units: int): User {
    User(0, [0, units, 0, 0])
  }

  function NoOrders(): (levels: seq<seq<Order>>)
    ensures |levels| == LEVELS && forall k :: 0 <= k < LEVELS ==> levels[k] == []
  {
    seq(LEVELS, _ => [])
  }

  ghost predicate Invariant(w: World) {
    WellFormed(w) && NeverCrossed(w.levels)
  }
}
