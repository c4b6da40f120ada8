/** The market file and the users' files, and the routines that rewrite them record by record. */
module MarketDb {
  import opened OrderBook
  import opened OrderWorld
  import opened MarketFile
  import opened MarketIndex

  lemma {:induction false} WithoutAt(q: seq<Order>, i: int)
    requires 0 <= i < |q| && forall j :: 0 <= j < i ==> q[j].id != q[i].id
    ensures Without(q, q[i].id) == q[..i] + q[i+1..]
  {
    if i == 0 {
      assert q[..0] + q[1..] == q[1..];
    } else {
      var t := q[1..];
      WithoutAt(t, i - 1);
      assert q[..i] == [q[0]] + t[..i-1] && q[i+1..] == t[i..];
      assert [q[0]] + (t[..i-1] + t[i..]) == q[..i] + q[i+1..];
    }
  }

  lemma BookDistinct(heads: seq<Head>, slots: seq<Slot>, lfree: int, queues: seq<seq<int>>, frees: seq<int>, place: seq<int>)
    requires ShapeOf(heads, slots, lfree, queues, frees, place)
    ensures DistinctSlots(Book(slots, queues))
  {
    var levels: seq<seq<Order>> := Book(slots, queues);
    forall k: int, i: int | 0 <= k < |levels| && 0 <= i < |levels[k]|
      ensures levels[k][i].id == queues[k][i] && place[levels[k][i].id] == k
    {
      assert HeadFits(heads[k], slots, queues[k]) && Linked(slots, queues[k], i);
      assert Placed(queues[k], place, k) && queues[k][i] in queues[k];
    }
  }

  lemma ShapeAt(heads: seq<Head>, slots: seq<Slot>, lfree: int, queues: seq<seq<int>>, frees: seq<int>, place: seq<int>, k: int)
    requires ShapeOf(heads, slots, lfree, queues, frees, place) && 0 <= k < LEVELS
    ensures |heads| == LEVELS == |queues| && HeadFits(heads[k], slots, queues[k])
    ensures InRange(queues[k], |slots|) && |place| == |slots|
  {
  }

  lemma NothingToTrade(levels: seq<seq<Order>>, bids: seq<seq<UserBid>>)
    requires |levels| == LEVELS && (forall k :: 0 <= k < LEVELS ==> levels[k] == [])
    requires forall u :: 0 <= u < |bids| ==> bids[u] == []
    ensures IndexAgrees(levels, bids) && PositiveLevels(levels) && NeverCrossed(levels)
  {
  }

  lemma NothingStored(heads: seq<Head>, queues: seq<seq<int>>)
    requires |heads| == |queues| == LEVELS
    requires forall k :: 0 <= k < LEVELS ==> heads[k] == Head(0, -1, -1) && queues[k] == []
    ensures ShapeOf(heads, [], -1, queues, [], [])
    ensures forall k :: 0 <= k < LEVELS ==> InRange(queues[k], 0)
    ensures Book([], queues) == seq(LEVELS, _ => [])
  {
    assert forall k :: 0 <= k < LEVELS ==> HeadFits(heads[k], [], queues[k]);
    assert forall k :: 0 <= k < LEVELS ==> Placed(queues[k], [], k);
    forall k | 0 <= k < LEVELS ensures Book([], queues)[k] == [] { }
  }

  class MarketStore {
    var num: int
    var lfree: int
    var heads: seq<Head>
    var slots: seq<Slot>
    var mains: seq<User>
    var bids: seq<seq<UserBid>>

    ghost var queues: seq<seq<int>>
    ghost var frees: seq<int>
    ghost var place: seq<int>

    /** Each slot below `num` lies on exactly one price list or on the free list. */
    ghost predicate Shape()
      reads this
    {
      num == |slots| && ShapeOf(heads, slots, lfree, queues, frees, place)
    }

    /** The queues of resting orders the file stands for. */
    ghost function Levels(): (r: seq<seq<Order>>)
      reads this
      requires Shape()
      ensures |r| == LEVELS
    {
      Book(slots, queues)
    }

    ghost predicate Valid()
      reads this
    {
      && Shape()
      && num <= SLOT_LIMIT
      && |bids| == |mains|
      && IndexAgrees(Levels(), bids)
    }

    /** The market the files stand for. */
    ghost function Abs(): World
      reads this
      requires Valid()
    {
      World(Levels(), mains)
    }

    /** All quantities are positive and no buyer meets a seller. */
    ghost predicate Sound()
      reads this
    {
      Valid() && PositiveLevels(Levels()) && NeverCrossed(Levels())
    }

    /** An empty market: no slots, no orders, nothing listed. */
    constructor (users: seq<User>)
      ensures Valid() && Sound() && mains == users && num == 0
      ensures Levels() == seq(LEVELS, _ => [])
    {
      hide IndexAgrees, PositiveLevels, NeverCrossed, ShapeOf, Book;
      num, lfree := 0, -1;
      heads := seq(LEVELS, _ => Head(0, -1, -1));
      slots := [];
      mains, bids := users, seq(|users|, _ => []);
      queues, frees, place := seq(LEVELS, _ => []), [], [];
      new;
      NothingStored(heads, queues);
      NothingToTrade(Levels(), bids);
    }

    // -------------------------------------------------------------- the market file

    method MarketAdd(resource: int, action: int, price: int, quantity: int, userid: int) returns (lcur: int)
      requires Shape() && ValidKey(resource, action, price)
      modifies `num, `lfree, `heads, `slots, `queues, `frees, `place
      ensures Shape()
      ensures old(num) <= num <= old(num) + 1
      ensures Unused(old(Levels()), lcur)
      ensures var k := LevelOf(resource, action, price);
              Levels() == old(Levels())[k := old(Levels())[k] + [Order(lcur, userid, quantity)]]
    {
      var k := LevelOf(resource, action, price);
      var mhead := heads[k];
      ghost var lfree0, slots0, frees0, place0 := lfree, slots, frees, place;
      assert HeadFits(mhead, slots, queues[k]);
      if lfree != -1 {
        lcur := lfree;
        lfree := slots[lcur].next;
        frees, place := frees[1..], place[lcur := k];
      } else {
        lcur := num;
        num := num + 1;
        slots := slots + [Slot(-1, -1, -1, -1)];
        place := place + [k];
      }
      var databid := Slot(mhead.last, -1, quantity, userid);
      var first := mhead.first;
      if mhead.first == -1 {
        first := lcur;
      } else {
        slots := slots[mhead.last := slots[mhead.last].(next := lcur)];
      }
      slots := slots[lcur := databid];
      var mhead' := Head(Int32(mhead.total + quantity), first, lcur);
      LinkKeepsShape(heads, slots0, lfree0, queues, frees0, place0, k, lcur, quantity, userid, mhead', slots, lfree, frees, place);
      FreshSlot(heads, slots0, lfree0, queues, frees0, place0, lcur);
      heads := heads[k := mhead'];
      queues := queues[k := queues[k] + [lcur]];
    }

    static lemma FreshSlot(heads: seq<Head>, slots: seq<Slot>, lfree: int, queues: seq<seq<int>>, frees: seq<int>,
                           place: seq<int>, x: int)
      requires ShapeOf(heads, slots, lfree, queues, frees, place)
      requires x == if lfree == -1 then |slots| else lfree
      ensures Unused(Book(slots, queues), x)
    {
      forall k, i | 0 <= k < LEVELS && 0 <= i < |Book(slots, queues)[k]| ensures Book(slots, queues)[k][i].id != x {
        assert Placed(queues[k], place, k) && queues[k][i] in queues[k];
      }
    }

    method MarketRemove(resource: int, action: int, price: int, lcur: int, ghost i: int)
      requires Shape() && ValidKey(resource, action, price)
      requires var q := Levels()[LevelOf(resource, action, price)]; 0 <= i < |q| && q[i].id == lcur
      modifies `lfree, `heads, `slots, `queues, `frees, `place
      ensures Shape()
      ensures var k := LevelOf(resource, action, price);
              Levels() == old(Levels())[k := old(Levels())[k][..i] + old(Levels())[k][i+1..]]
    {
      hide ShapeOf, HeadFits, Without;
      var k := LevelOf(resource, action, price);
      ShapeAt(heads, slots, lfree, queues, frees, place, k);
      var mhead, databid := heads[k], slots[lcur];
      ghost var slots0 := slots;
      NeighboursApart(mhead, slots, queues[k], i);
      if databid.prev != -1 {
        slots := slots[databid.prev := slots[databid.prev].(next := databid.next)];
      }
      if databid.next != -1 {
        slots := slots[databid.next := slots[databid.next].(prev := databid.prev)];
      }
      var first, last := mhead.first, mhead.last;
      if mhead.first == lcur { first := databid.next; }
      if mhead.last == lcur { last := databid.prev; }
      var mhead' := Head(Int32(mhead.total - databid.quantity), first, last);
      slots := slots[lcur := Slot(-1, lfree, -1, -1)];
      UnlinkKeepsShape(heads, slots0, lfree, queues, frees, place, k, i, mhead', slots);
      heads := heads[k := mhead'];
      lfree := lcur;
      queues := queues[k := queues[k][..i] + queues[k][i+1..]];
      frees := [lcur] + frees;
      place := place[lcur := FREE];
    }

    method MarketSetQuantity(resource: int, action: int, price: int, lcur: int, quantity: int, loss: int, ghost i: int)
      requires Shape() && ValidKey(resource, action, price)
      requires var q := Levels()[LevelOf(resource, action, price)];
               0 <= i < |q| && q[i].id == lcur && loss == q[i].qty - quantity
      modifies `heads, `slots
      ensures Shape()
      ensures var k := LevelOf(resource, action, price);
              Levels() == old(Levels())[k := old(Levels())[k][i := old(Levels())[k][i].(qty := quantity)]]
    {
      var k := LevelOf(resource, action, price);
      ResizeKeepsShape(heads, slots, lfree, queues, frees, place, k, i, quantity);
      heads := heads[k := heads[k].(total := Int32(heads[k].total - loss))];
      slots := slots[lcur := slots[lcur].(quantity := quantity)];
    }

    method MarketListStart(resource: int, action: int, price: int) returns (a: int)
      requires Shape() && ValidKey(resource, action, price)
      ensures var q := Levels()[LevelOf(resource, action, price)];
              a == if q == [] then -1 else q[0].id
    {
      var k := LevelOf(resource, action, price);
      assert HeadFits(heads[k], slots, queues[k]);
      a := heads[k].first;
    }

    method MarketListNext(lcur: int, ghost k: int, ghost i: int) returns (next: int, quantity: int, userid: int)
      requires Shape() && 0 <= k < LEVELS && 0 <= i < |Levels()[k]| && Levels()[k][i].id == lcur
      ensures var q := Levels()[k];
              && quantity == q[i].qty && userid == q[i].owner
              && next == if i + 1 == |q| then -1 else q[i+1].id
    {
      assert HeadFits(heads[k], slots, queues[k]) && Linked(slots, queues[k], i);
      var databid := slots[lcur];
      next, quantity, userid := databid.next, databid.quantity, databid.userid;
    }

    // -------------------------------------------------------------- the users' files

    method UserMarketAdd(id: int, bidid: int, action: int, resource: int, price: int, quantity: int)
      requires 0 <= id < |bids|
      modifies `bids
      ensures bids == old(bids)[id := old(bids)[id] + [UserBid(action, resource, price, quantity, bidid)]]
    {
      bids := bids[id := bids[id] + [UserBid(action, resource, price, quantity, bidid)]];
    }

    method UserMarketQuantity(id: int, bidid: int, quantity: int) returns (found: bool)
      modifies `bids
      ensures found <==> 0 <= id < |old(bids)| && IndexOf(old(bids)[id], bidid) < |old(bids)[id]|
      ensures bids == if 0 <= id < |old(bids)| then old(bids)[id := SetQuantity(old(bids)[id], bidid, quantity)] else old(bids)
    {
      if !(0 <= id < |bids|) { return false; }
      var a, n := 0, |bids[id]|;
      while a < n
        invariant 0 <= a <= n && bids == old(bids)
        invariant forall j :: 0 <= j < a ==> bids[id][j].bidid != bidid
      {
        if bids[id][a].bidid == bidid {
          IndexOfIs(bids[id], bidid, a);
          bids := bids[id := bids[id][a := bids[id][a].(quantity := quantity)]];
          return true;
        }
        a := a + 1;
      }
      IndexOfNone(bids[id], bidid);
      return false;
    }

    method UserMarketRemove(id: int, bidid: int) returns (found: bool)
      modifies `bids
      ensures found <==> 0 <= id < |old(bids)| && IndexOf(old(bids)[id], bidid) < |old(bids)[id]|
      ensures bids == if 0 <= id < |old(bids)| then old(bids)[id := SwapRemove(old(bids)[id], bidid)] else old(bids)
    {
      if !(0 <= id < |bids|) { return false; }
      var a, n := 0, |bids[id]|;
      while a < n
        invariant 0 <= a <= n && bids == old(bids)
        invariant forall j :: 0 <= j < a ==> bids[id][j].bidid != bidid
      {
        if bids[id][a].bidid == bidid {
          IndexOfIs(bids[id], bidid, a);
          var l := bids[id];
          if n >= 2 && a + 1 < n { l := l[a := bids[id][n-1]]; }
          bids := bids[id := l[..n-1]];
          return true;
        }
        a := a + 1;
      }
      IndexOfNone(bids[id], bidid);
      return false;
    }
  }
}
