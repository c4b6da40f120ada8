/** Every user keeps a second copy of his own bids. Removing a record moves the last one into its
    place, so the copies agree with the book as collections, not in order. */
module MarketIndex {
  import opened OrderBook
  import opened OrderWorld
  import opened SwapLast

  /** A user's own record of one of his bids. */
  datatype UserBid = UserBid(action: int, resource: int, price: int, quantity: int, bidid: int)

  ghost predicate DistinctBids(l: seq<UserBid>) {
    forall i, j :: 0 <= i < j < |l| ==> l[i].bidid != l[j].bidid
  }

  /** The book holds exactly this bid for user `u`. */
  ghost predicate InBook(levels: seq<seq<Order>>, u: int, r: UserBid)
    requires |levels| == LEVELS
  {
    && ValidKey(r.resource, r.action, r.price)
    && Order(r.bidid, u, r.quantity) in levels[LevelOf(r.resource, r.action, r.price)]
  }

  /** A bid is live in the book under owner u exactly when u's list holds it, and it does so once. */
  ghost predicate IndexAgrees(levels: seq<seq<Order>>, bids: seq<seq<UserBid>>)
    requires |levels| == LEVELS
  {
    && (forall u :: 0 <= u < |bids| ==> DistinctBids(bids[u]))
    && (forall u, r :: 0 <= u < |bids| ==> (r in bids[u] <==> InBook(levels, u, r)))
    && (forall k, i :: 0 <= k < LEVELS && 0 <= i < |levels[k]| ==> 0 <= levels[k][i].owner < |bids|)
  }

  function IndexOf(l: seq<UserBid>, bidid: int): (j: nat)
    ensures j <= |l|
    ensures forall i :: 0 <= i < j ==> l[i].bidid != bidid
    ensures j < |l| ==> l[j].bidid == bidid
  {
    if l == [] || l[0].bidid == bidid then 0 else 1 + IndexOf(l[1..], bidid)
  }

  lemma IndexOfIs(l: seq<UserBid>, bidid: int, j: nat)
    requires j < |l| && l[j].bidid == bidid && forall i :: 0 <= i < j ==> l[i].bidid != bidid
    ensures IndexOf(l, bidid) == j
  {
  }

  lemma IndexOfNone(l: seq<UserBid>, bidid: int)
    requires forall i :: 0 <= i < |l| ==> l[i].bidid != bidid
    ensures IndexOf(l, bidid) == |l|
  {
  }

  function SetQuantity(l: seq<UserBid>, bidid: int, quantity: int): seq<UserBid> {
    var j := IndexOf(l, bidid);
    if j == |l| then l else l[j := l[j].(quantity := quantity)]
  }

  function SwapRemove(l: seq<UserBid>, bidid: int): seq<UserBid> {
    var j := IndexOf(l, bidid);
    if j == |l| then l else Removed(l, j)
  }

  lemma SwapRemoveMembers(l: seq<UserBid>, bidid: int)
    requires DistinctBids(l)
    ensures DistinctBids(SwapRemove(l, bidid))
    ensures forall r :: r in SwapRemove(l, bidid) <==> r in l && r.bidid != bidid
  {
    var j, n := IndexOf(l, bidid), |l| - 1;
    var l' := SwapRemove(l, bidid);
    forall r | r in l && r.bidid != bidid ensures r in l' {
      var i :| 0 <= i < |l| && l[i] == r;
      if j < |l| { assert l'[if i == n then j else i] == r; }
    }
    forall r | r in l' ensures r in l && r.bidid != bidid {
      var i :| 0 <= i < |l'| && l'[i] == r;
      if j < |l| { assert r == l[if i == j then n else i]; }
    }
  }

  lemma SetQuantityMembers(l: seq<UserBid>, r0: UserBid, quantity: int)
    requires DistinctBids(l) && r0 in l
    ensures DistinctBids(SetQuantity(l, r0.bidid, quantity))
    ensures forall r :: r in SetQuantity(l, r0.bidid, quantity) <==>
              (r in l && r.bidid != r0.bidid) || r == r0.(quantity := quantity)
  {
    var j, l' := IndexOf(l, r0.bidid), SetQuantity(l, r0.bidid, quantity);
    var j0 :| 0 <= j0 < |l| && l[j0] == r0;
    assert j == j0;
    forall r | r in l && r.bidid != r0.bidid ensures r in l' {
      var i :| 0 <= i < |l| && l[i] == r;
      assert l'[i] == r;
    }
    assert l'[j] == r0.(quantity := quantity);
    forall r | r in l' ensures (r in l && r.bidid != r0.bidid) || r == r0.(quantity := quantity) {
      var i :| 0 <= i < |l'| && l'[i] == r;
      if i != j { assert r == l[i]; }
    }
  }

  lemma IndexAfterAdd(levels: seq<seq<Order>>, bids: seq<seq<UserBid>>, u: int, r0: UserBid)
    requires |levels| == LEVELS && IndexAgrees(levels, bids) && 0 <= u < |bids|
    requires ValidKey(r0.resource, r0.action, r0.price)
    requires Unused(levels, r0.bidid)
    ensures var k := LevelOf(r0.resource, r0.action, r0.price);
            IndexAgrees(levels[k := levels[k] + [Order(r0.bidid, u, r0.quantity)]], bids[u := bids[u] + [r0]])
  {
    var k0 := LevelOf(r0.resource, r0.action, r0.price);
    var levels', bids' := levels[k0 := levels[k0] + [Order(r0.bidid, u, r0.quantity)]], bids[u := bids[u] + [r0]];
    forall i | 0 <= i < |bids[u]| ensures bids[u][i].bidid != r0.bidid {
      assert bids[u][i] in bids[u];
      assert InBook(levels, u, bids[u][i]);
    }
    forall v, r | 0 <= v < |bids'| ensures r in bids'[v] <==> InBook(levels', v, r) {
      assert r in bids[v] <==> InBook(levels, v, r);
      if ValidKey(r.resource, r.action, r.price) {
        LevelRoundTrip(r.resource, r.action, r.price);
        LevelRoundTrip(r0.resource, r0.action, r0.price);
      }
    }
  }

  /** What a level holds after the order at position i was replaced. */
  lemma ReplaceMembers(q: seq<Order>, i: int, o: Order)
    requires 0 <= i < |q| && forall j, j' :: 0 <= j < j' < |q| ==> q[j].id != q[j'].id
    requires o.id == q[i].id
    ensures forall x :: x in q[i := o] <==> (x in q && x.id != o.id) || x == o
  {
    forall x ensures x in q[i := o] <==> (x in q && x.id != o.id) || x == o {
      if x in q && x.id != o.id {
        var j :| 0 <= j < |q| && q[j] == x;
        assert q[i := o][j] == x;
      }
      assert q[i := o][i] == o;
    }
  }

  lemma IndexAfterResize(levels: seq<seq<Order>>, bids: seq<seq<UserBid>>, r0: UserBid, i: int, quantity: int)
    requires |levels| == LEVELS && IndexAgrees(levels, bids) && DistinctSlots(levels)
    requires ValidKey(r0.resource, r0.action, r0.price)
    requires var q := levels[LevelOf(r0.resource, r0.action, r0.price)];
             0 <= i < |q| && q[i] == Order(r0.bidid, q[i].owner, r0.quantity)
    ensures var k := LevelOf(r0.resource, r0.action, r0.price);
            var u := levels[k][i].owner;
            && 0 <= u < |bids|
            && IndexAgrees(levels[k := levels[k][i := levels[k][i].(qty := quantity)]],
                           bids[u := SetQuantity(bids[u], r0.bidid, quantity)])
  {
    var k0 := LevelOf(r0.resource, r0.action, r0.price);
    var q := levels[k0];
    var o := q[i].(qty := quantity);
    var u := q[i].owner;
    var levels', bids' := levels[k0 := q[i := o]], bids[u := SetQuantity(bids[u], r0.bidid, quantity)];
    assert InBook(levels, u, r0);
    SetQuantityMembers(bids[u], r0, quantity);
    ReplaceMembers(q, i, o);
    forall v, r | 0 <= v < |bids'| ensures r in bids'[v] <==> InBook(levels', v, r) {
      assert r in bids[v] <==> InBook(levels, v, r);
      if ValidKey(r.resource, r.action, r.price) {
        LevelRoundTrip(r.resource, r.action, r.price);
        LevelRoundTrip(r0.resource, r0.action, r0.price);
        OnlyOne(levels, k0, i, LevelOf(r.resource, r.action, r.price), Order(r.bidid, v, r.quantity));
      }
    }
  }

  lemma OnlyOne(levels: seq<seq<Order>>, k0: int, i: int, k: int, o: Order)
    requires DistinctSlots(levels) && 0 <= k0 < |levels| && 0 <= i < |levels[k0]| && 0 <= k < |levels|
    ensures o in levels[k] && o.id == levels[k0][i].id ==> k == k0 && o == levels[k0][i]
  {
    if o in levels[k] && o.id == levels[k0][i].id {
      var j :| 0 <= j < |levels[k]| && levels[k][j] == o;
    }
  }

  lemma DropMembers(q: seq<Order>, i: int)
    requires 0 <= i < |q| && forall j, j' :: 0 <= j < j' < |q| ==> q[j].id != q[j'].id
    ensures forall x :: x in q[..i] + q[i+1..] <==> x in q && x.id != q[i].id
  {
    var q' := q[..i] + q[i+1..];
    forall x ensures x in q' <==> x in q && x.id != q[i].id {
      if x in q && x.id != q[i].id {
        var j :| 0 <= j < |q| && q[j] == x;
        assert q'[if j < i then j else j - 1] == x;
      }
      if x in q' {
        var j :| 0 <= j < |q'| && q'[j] == x;
        assert q[if j < i then j else j + 1] == x;
      }
    }
  }

  lemma IndexAfterRemove(levels: seq<seq<Order>>, bids: seq<seq<UserBid>>, k0: int, i: int)
    requires |levels| == LEVELS && IndexAgrees(levels, bids) && DistinctSlots(levels)
    requires 0 <= k0 < LEVELS && 0 <= i < |levels[k0]|
    ensures var o := levels[k0][i];
            && 0 <= o.owner < |bids|
            && IndexAgrees(levels[k0 := levels[k0][..i] + levels[k0][i+1..]],
                           bids[o.owner := SwapRemove(bids[o.owner], o.id)])
  {
    var q, o := levels[k0], levels[k0][i];
    var u := o.owner;
    var levels', bids' := levels[k0 := q[..i] + q[i+1..]], bids[u := SwapRemove(bids[u], o.id)];
    SwapRemoveMembers(bids[u], o.id);
    DropMembers(q, i);
    forall v, r | 0 <= v < |bids'| ensures r in bids'[v] <==> InBook(levels', v, r) {
      assert r in bids[v] <==> InBook(levels, v, r);
      if ValidKey(r.resource, r.action, r.price) {
        OnlyOne(levels, k0, i, LevelOf(r.resource, r.action, r.price), Order(r.bidid, v, r.quantity));
      }
    }
    forall k, j | 0 <= k < LEVELS && 0 <= j < |levels'[k]| ensures 0 <= levels'[k][j].owner < |bids'| {
      if k == k0 { assert levels'[k][j] == q[if j < i then j else j + 1]; }
    }
  }
}
