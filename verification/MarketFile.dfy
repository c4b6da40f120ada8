/** The market file: a table of price-list heads and a table of slots. Every slot lies on the
    doubly linked list of one price level or on the free list threaded through the same table. */
module MarketFile {
  import opened OrderBook
  import opened OrderWorld

  const FREE := -1
  const SLOT_LIMIT := 0x1000000

  datatype Head = Head(total: int, first: int, last: int)
  datatype Slot = Slot(prev: int, next: int, quantity: int, userid: int)

  /** The stored totals are 32-bit signed integers. */
  function Int32(x: int): int { (x + 0x8000_0000) % 0x1_0000_0000 - 0x8000_0000 }

  lemma Int32Add(a: int, b: int)
    ensures Int32(Int32(a) + b) == Int32(a + b)
  {
  }

  ghost function First(q: seq<int>): int { if q == [] then -1 else q[0] }
  ghost function Last(q: seq<int>): int { if q == [] then -1 else q[|q|-1] }

  ghost predicate InRange(q: seq<int>, n: int) {
    forall i :: 0 <= i < |q| ==> 0 <= q[i] < n
  }

  /** The orders of one price list, oldest first. */
  ghost function OrdersOf(slots: seq<Slot>, q: seq<int>): (r: seq<Order>)
    requires InRange(q, |slots|)
    ensures |r| == |q|
    ensures forall i :: 0 <= i < |q| ==> r[i] == Order(q[i], slots[q[i]].userid, slots[q[i]].quantity)
  {
    seq(|q|, i requires 0 <= i < |q| => Order(q[i], slots[q[i]].userid, slots[q[i]].quantity))
  }

  /** The i-th slot of a list points to its neighbours. */
  ghost predicate Linked(slots: seq<Slot>, q: seq<int>, i: int)
    requires InRange(q, |slots|) && 0 <= i < |q|
  {
    && slots[q[i]].prev == (if i == 0 then -1 else q[i-1])
    && slots[q[i]].next == (if i == |q| - 1 then -1 else q[i+1])
  }

  ghost predicate Chain(slots: seq<Slot>, q: seq<int>) {
    && InRange(q, |slots|)
    && DistinctInts(q)
    && forall i :: 0 <= i < |q| ==> Linked(slots, q, i)
  }

  ghost predicate HeadFits(h: Head, slots: seq<Slot>, q: seq<int>) {
    && Chain(slots, q)
    && h.first == First(q) && h.last == Last(q)
    && h.total == Int32(Qty(OrdersOf(slots, q)))
  }

  ghost predicate FreeLinked(slots: seq<Slot>, f: seq<int>, i: int)
    requires InRange(f, |slots|) && 0 <= i < |f|
  {
    slots[f[i]].next == (if i == |f| - 1 then -1 else f[i+1])
  }

  ghost predicate FreeChain(slots: seq<Slot>, lfree: int, f: seq<int>) {
    && InRange(f, |slots|)
    && DistinctInts(f)
    && lfree == First(f)
    && forall i :: 0 <= i < |f| ==> FreeLinked(slots, f, i)
  }

  /** `q` lists exactly the slots whose place is `k`. */
  ghost predicate Placed(q: seq<int>, place: seq<int>, k: int) {
    InRange(q, |place|) && forall x :: 0 <= x < |place| ==> (x in q <==> place[x] == k)
  }

  /** `place[x]` names the one list slot x lies on. */
  ghost predicate Partition(n: int, queues: seq<seq<int>>, frees: seq<int>, place: seq<int>) {
    && |queues| == LEVELS && |place| == n
    && (forall x :: 0 <= x < n ==> FREE <= place[x] < LEVELS)
    && (forall k :: 0 <= k < LEVELS ==> Placed(queues[k], place, k))
    && Placed(frees, place, FREE)
  }

  ghost predicate HeadsFit(heads: seq<Head>, slots: seq<Slot>, queues: seq<seq<int>>) {
    && |heads| == LEVELS && |queues| == LEVELS
    && forall k :: 0 <= k < LEVELS ==> HeadFits(heads[k], slots, queues[k])
  }

  ghost function Book(slots: seq<Slot>, queues: seq<seq<int>>): (r: seq<seq<Order>>)
    requires forall k :: 0 <= k < |queues| ==> InRange(queues[k], |slots|)
    ensures |r| == |queues|
    ensures forall k :: 0 <= k < |queues| ==> r[k] == OrdersOf(slots, queues[k])
  {
    seq(|queues|, k requires 0 <= k < |queues| => OrdersOf(slots, queues[k]))
  }

  // ---------------------------------------------------------------- list surgery

  lemma OrdersFrame(slots: seq<Slot>, slots': seq<Slot>, q: seq<int>)
    requires InRange(q, |slots|) && |slots| <= |slots'|
    requires forall i :: 0 <= i < |q| ==>
               slots'[q[i]].quantity == slots[q[i]].quantity && slots'[q[i]].userid == slots[q[i]].userid
    ensures OrdersOf(slots', q) == OrdersOf(slots, q)
  {
  }

  lemma HeadFrame(h: Head, slots: seq<Slot>, slots': seq<Slot>, q: seq<int>)
    requires HeadFits(h, slots, q) && |slots| <= |slots'|
    requires forall i :: 0 <= i < |q| ==> slots'[q[i]] == slots[q[i]]
    ensures HeadFits(h, slots', q) && OrdersOf(slots', q) == OrdersOf(slots, q)
  {
    OrdersFrame(slots, slots', q);
    forall i | 0 <= i < |q| ensures Linked(slots', q, i) { assert Linked(slots, q, i); }
  }

  lemma QtyAppend(q: seq<Order>, o: Order)
    ensures Qty(q + [o]) == Qty(q) + o.qty
  {
    QtyConcat(q, [o]);
    assert Qty([o]) == o.qty + Qty([]);
  }

  lemma QtyReplace(q: seq<Order>, i: int, o: Order)
    requires 0 <= i < |q|
    ensures Qty(q[i := o]) == Qty(q) - q[i].qty + o.qty
  {
    hide Qty;
    var a, b := q[..i], q[i+1..];
    assert q == (a + [q[i]]) + b && q[i := o] == (a + [o]) + b;
    QtyConcat(a + [q[i]], b);
    QtyConcat(a + [o], b);
    QtyAppend(a, q[i]);
    QtyAppend(a, o);
  }

  lemma QtyDrop(q: seq<Order>, i: int)
    requires 0 <= i < |q|
    ensures Qty(q[..i] + q[i+1..]) == Qty(q) - q[i].qty
  {
    hide Qty;
    var a, b := q[..i], q[i+1..];
    assert q == (a + [q[i]]) + b;
    QtyConcat(a + [q[i]], b);
    QtyConcat(a, b);
    QtyAppend(a, q[i]);
  }

  lemma AppendChain(slots: seq<Slot>, q: seq<int>, x: int, slots': seq<Slot>)
    requires Chain(slots, q) && |slots| <= |slots'| && 0 <= x < |slots'| && x !in q
    requires slots'[x].prev == Last(q) && slots'[x].next == -1
    requires forall i :: 0 <= i < |q| ==> slots'[q[i]] == (if i == |q| - 1 then slots[q[i]].(next := x) else slots[q[i]])
    ensures Chain(slots', q + [x])
  {
    var q' := q + [x];
    forall i | 0 <= i < |q'| ensures Linked(slots', q', i) {
      if i < |q| {
        assert Linked(slots, q, i);
        assert q'[i] == q[i] && (i > 0 ==> q'[i-1] == q[i-1]);
      } else if i > 0 {
        assert q'[i-1] == q[|q|-1];
      }
    }
  }

  /** Linking a slot that is on no list behind the last slot of a list. */
  lemma AppendFits(h: Head, slots: seq<Slot>, q: seq<int>, x: int, quantity: int, userid: int,
                   h': Head, slots': seq<Slot>)
    requires HeadFits(h, slots, q) && |slots| <= |slots'| && 0 <= x < |slots'| && x !in q
    requires slots'[x] == Slot(h.last, -1, quantity, userid)
    requires forall i :: 0 <= i < |q| ==> slots'[q[i]] == (if i == |q| - 1 then slots[q[i]].(next := x) else slots[q[i]])
    requires h' == Head(Int32(h.total + quantity), if h.first == -1 then x else h.first, x)
    ensures HeadFits(h', slots', q + [x])
    ensures OrdersOf(slots', q + [x]) == OrdersOf(slots, q) + [Order(x, userid, quantity)]
  {
    AppendChain(slots, q, x, slots');
    OrdersFrame(slots, slots', q);
    assert OrdersOf(slots', q + [x]) == OrdersOf(slots', q) + [Order(x, userid, quantity)];
    QtyAppend(OrdersOf(slots, q), Order(x, userid, quantity));
    Int32Add(Qty(OrdersOf(slots, q)), quantity);
  }

  lemma UnlinkChain(slots: seq<Slot>, q: seq<int>, i: int, slots': seq<Slot>)
    requires Chain(slots, q) && 0 <= i < |q| && |slots'| == |slots|
    requires forall j :: 0 <= j < |q| && j != i ==>
               slots'[q[j]] == (if j == i - 1 then slots[q[j]].(next := slots[q[i]].next)
                                else if j == i + 1 then slots[q[j]].(prev := slots[q[i]].prev) else slots[q[j]])
    ensures Chain(slots', q[..i] + q[i+1..])
  {
    var q' := q[..i] + q[i+1..];
    assert InRange(q', |slots'|);
    forall j | 0 <= j < |q'| ensures Linked(slots', q', j) {
      var s := if j < i then j else j + 1;
      assert q'[j] == q[s];
      assert j > 0 ==> q'[j-1] == q[if j - 1 < i then j - 1 else j];
      assert j < |q'| - 1 ==> q'[j+1] == q[if j + 1 < i then j + 1 else j + 2];
      assert Linked(slots, q, s) && Linked(slots, q, i);
    }
    assert DistinctInts(q') by {
      forall j, k | 0 <= j < k < |q'| ensures q'[j] != q'[k] {
        assert q'[j] == q[if j < i then j else j + 1] && q'[k] == q[if k < i then k else k + 1];
      }
    }
  }

  /** Unlinking the i-th slot of a list. */
  lemma UnlinkFits(h: Head, slots: seq<Slot>, q: seq<int>, i: int, h': Head, slots': seq<Slot>)
    requires HeadFits(h, slots, q) && 0 <= i < |q| && |slots'| == |slots|
    requires forall j :: 0 <= j < |q| && j != i ==>
               slots'[q[j]] == (if j == i - 1 then slots[q[j]].(next := slots[q[i]].next)
                                else if j == i + 1 then slots[q[j]].(prev := slots[q[i]].prev) else slots[q[j]])
    requires var x := slots[q[i]];
             h' == Head(Int32(h.total - x.quantity), if h.first == q[i] then x.next else h.first,
                        if h.last == q[i] then x.prev else h.last)
    ensures HeadFits(h', slots', q[..i] + q[i+1..])
    ensures OrdersOf(slots', q[..i] + q[i+1..]) == OrdersOf(slots, q)[..i] + OrdersOf(slots, q)[i+1..]
  {
    var q' := q[..i] + q[i+1..];
    UnlinkChain(slots, q, i, slots');
    UnlinkOrders(slots, q, i, slots');
    QtyDrop(OrdersOf(slots, q), i);
    Int32Add(Qty(OrdersOf(slots, q)), -slots[q[i]].quantity);
    UnlinkEnds(slots, q, i);
  }

  lemma UnlinkOrders(slots: seq<Slot>, q: seq<int>, i: int, slots': seq<Slot>)
    requires InRange(q, |slots|) && 0 <= i < |q| && |slots'| == |slots|
    requires forall j :: 0 <= j < |q| && j != i ==>
               slots'[q[j]].quantity == slots[q[j]].quantity && slots'[q[j]].userid == slots[q[j]].userid
    ensures InRange(q[..i] + q[i+1..], |slots'|)
    ensures OrdersOf(slots', q[..i] + q[i+1..]) == OrdersOf(slots, q)[..i] + OrdersOf(slots, q)[i+1..]
  {
    var q' := q[..i] + q[i+1..];
    assert forall j :: 0 <= j < |q'| ==> q'[j] == q[if j < i then j else j + 1];
    assert OrdersOf(slots', q') == OrdersOf(slots, q)[..i] + OrdersOf(slots, q)[i+1..];
  }

  lemma UnlinkEnds(slots: seq<Slot>, q: seq<int>, i: int)
    requires Chain(slots, q) && 0 <= i < |q|
    ensures First(q[..i] + q[i+1..]) == (if First(q) == q[i] then slots[q[i]].next else First(q))
    ensures Last(q[..i] + q[i+1..]) == (if Last(q) == q[i] then slots[q[i]].prev else Last(q))
  {
    var q' := q[..i] + q[i+1..];
    assert Linked(slots, q, i);
    assert i != 0 ==> q[0] != q[i] && q'[0] == q[0];
    assert i == 0 && |q| > 1 ==> q'[0] == q[1];
    assert i != |q| - 1 ==> q[|q|-1] != q[i] && q'[|q'|-1] == q[|q|-1];
    assert i == |q| - 1 && |q| > 1 ==> q'[|q'|-1] == q[i-1];
  }

  lemma ResizeFits(h: Head, slots: seq<Slot>, q: seq<int>, i: int, quantity: int, h': Head, slots': seq<Slot>)
    requires HeadFits(h, slots, q) && 0 <= i < |q|
    requires slots' == slots[q[i] := slots[q[i]].(quantity := quantity)]
    requires h' == h.(total := Int32(h.total - (slots[q[i]].quantity - quantity)))
    ensures HeadFits(h', slots', q)
    ensures OrdersOf(slots', q) == OrdersOf(slots, q)[i := OrdersOf(slots, q)[i].(qty := quantity)]
  {
    forall j | 0 <= j < |q| ensures Linked(slots', q, j) { assert Linked(slots, q, j); }
    assert OrdersOf(slots', q) == OrdersOf(slots, q)[i := OrdersOf(slots, q)[i].(qty := quantity)];
    QtyReplace(OrdersOf(slots, q), i, OrdersOf(slots, q)[i].(qty := quantity));
    Int32Add(Qty(OrdersOf(slots, q)), quantity - slots[q[i]].quantity);
  }

  // ---------------------------------------------------------------- the partition

  lemma PartitionGrows(n: int, queues: seq<seq<int>>, frees: seq<int>, place: seq<int>, k: int)
    requires n >= 0 && Partition(n, queues, frees, place) && 0 <= k < LEVELS
    ensures n !in queues[k]
    ensures Partition(n + 1, queues[k := queues[k] + [n]], frees, place + [k])
  {
    var queues', place' := queues[k := queues[k] + [n]], place + [k];
    forall j | 0 <= j < LEVELS ensures Placed(queues'[j], place', j) { assert Placed(queues[j], place, j); }
  }

  lemma PartitionReuses(n: int, queues: seq<seq<int>>, frees: seq<int>, place: seq<int>, k: int)
    requires Partition(n, queues, frees, place) && 0 <= k < LEVELS && frees != [] && DistinctInts(frees)
    ensures frees[0] !in queues[k]
    ensures Partition(n, queues[k := queues[k] + [frees[0]]], frees[1..], place[frees[0] := k])
  {
    var x0 := frees[0];
    assert Placed(queues[k], place, k);
    assert x0 in frees;
    var queues', place' := queues[k := queues[k] + [x0]], place[x0 := k];
    forall j | 0 <= j < LEVELS ensures Placed(queues'[j], place', j) { assert Placed(queues[j], place, j); }
    MemberAfterDrop(frees, 0);
    assert [] + frees[1..] == frees[1..];
    assert frees[..0] + frees[1..] == frees[1..];
  }

  /** No slot lies on two lists. */
  lemma Apart(n: int, queues: seq<seq<int>>, frees: seq<int>, place: seq<int>, k: int, x: int)
    requires Partition(n, queues, frees, place) && 0 <= k < LEVELS && x in queues[k]
    ensures forall i :: 0 <= i < |frees| ==> frees[i] != x
    ensures forall j, i :: 0 <= j < LEVELS && j != k && 0 <= i < |queues[j]| ==> queues[j][i] != x
  {
    assert Placed(queues[k], place, k);
    forall i | 0 <= i < |frees| ensures frees[i] != x { assert frees[i] in frees; }
    forall j, i | 0 <= j < LEVELS && j != k && 0 <= i < |queues[j]| ensures queues[j][i] != x {
      assert Placed(queues[j], place, j) && queues[j][i] in queues[j];
    }
  }

  lemma MemberAfterDrop(q: seq<int>, i: int)
    requires 0 <= i < |q| && DistinctInts(q)
    ensures forall x :: x in q[..i] + q[i+1..] <==> x in q && x != q[i]
  {
    var q' := q[..i] + q[i+1..];
    forall x ensures x in q' <==> x in q && x != q[i] {
      if x in q && x != q[i] {
        var j :| 0 <= j < |q| && q[j] == x;
        assert q'[if j < i then j else j - 1] == x;
      }
      if x in q' {
        var j :| 0 <= j < |q'| && q'[j] == x;
        assert q[if j < i then j else j + 1] == x;
      }
    }
  }

  lemma PartitionFrees(n: int, queues: seq<seq<int>>, frees: seq<int>, place: seq<int>, k: int, i: int)
    requires Partition(n, queues, frees, place) && 0 <= k < LEVELS && 0 <= i < |queues[k]| && DistinctInts(queues[k])
    ensures var x := queues[k][i];
            && 0 <= x < n && x !in frees
            && Partition(n, queues[k := queues[k][..i] + queues[k][i+1..]], [x] + frees, place[x := FREE])
  {
    var q, x0 := queues[k], queues[k][i];
    assert Placed(q, place, k);
    assert x0 in q;
    MemberAfterDrop(q, i);
    var q' := q[..i] + q[i+1..];
    var queues', place' := queues[k := q'], place[x0 := FREE];
    assert forall j :: 0 <= j < |q'| ==> q'[j] in q';
    forall j | 0 <= j < LEVELS ensures Placed(queues'[j], place', j) { assert Placed(queues[j], place, j); }
    assert Placed([x0] + frees, place', FREE);
  }

  lemma FreeChainFrame(slots: seq<Slot>, slots': seq<Slot>, lfree: int, f: seq<int>)
    requires FreeChain(slots, lfree, f) && |slots| <= |slots'|
    requires forall i :: 0 <= i < |f| ==> slots'[f[i]].next == slots[f[i]].next
    ensures FreeChain(slots', lfree, f)
  {
    forall i | 0 <= i < |f| ensures FreeLinked(slots', f, i) { assert FreeLinked(slots, f, i); }
  }

  lemma FreeChainPop(slots: seq<Slot>, lfree: int, f: seq<int>)
    requires FreeChain(slots, lfree, f) && f != []
    ensures FreeChain(slots, slots[f[0]].next, f[1..])
  {
    var f' := f[1..];
    assert FreeLinked(slots, f, 0);
    forall i | 0 <= i < |f'| ensures FreeLinked(slots, f', i) { assert FreeLinked(slots, f, i + 1); }
  }

  lemma FreeChainPush(slots: seq<Slot>, lfree: int, f: seq<int>, x: int)
    requires FreeChain(slots, lfree, f) && 0 <= x < |slots| && x !in f && slots[x].next == lfree
    ensures FreeChain(slots, x, [x] + f)
  {
    var f' := [x] + f;
    forall i | 0 <= i < |f'| ensures FreeLinked(slots, f', i) {
      if i > 0 { assert FreeLinked(slots, f, i - 1); }
    }
    assert forall i :: 0 < i < |f'| ==> f'[i] == f[i-1];
  }

  // ---------------------------------------------------------------- whole-file steps

  /** Each slot below `num` lies on exactly one price list or on the free list; the lists are
      linked both ways and the heads know their ends and totals. */
  ghost predicate ShapeOf(heads: seq<Head>, slots: seq<Slot>, lfree: int,
                          queues: seq<seq<int>>, frees: seq<int>, place: seq<int>) {
    && Partition(|slots|, queues, frees, place)
    && HeadsFit(heads, slots, queues)
    && FreeChain(slots, lfree, frees)
  }

  lemma Listed(heads: seq<Head>, slots: seq<Slot>, queues: seq<seq<int>>, k: int)
    requires HeadsFit(heads, slots, queues) && 0 <= k < LEVELS
    ensures InRange(queues[k], |slots|) && DistinctInts(queues[k])
  {
    assert HeadFits(heads[k], slots, queues[k]);
  }

  lemma OthersFit(heads: seq<Head>, slots: seq<Slot>, queues: seq<seq<int>>, k: int,
                  h': Head, slots': seq<Slot>, q': seq<int>)
    requires HeadsFit(heads, slots, queues) && 0 <= k < LEVELS && |slots| <= |slots'| && HeadFits(h', slots', q')
    requires forall j, i :: 0 <= j < LEVELS && j != k && 0 <= i < |queues[j]| ==>
               slots'[queues[j][i]] == slots[queues[j][i]]
    ensures HeadsFit(heads[k := h'], slots', queues[k := q'])
    ensures Book(slots', queues[k := q']) == Book(slots, queues)[k := OrdersOf(slots', q')]
  {
    var queues' := queues[k := q'];
    forall j | 0 <= j < LEVELS && j != k
      ensures HeadFits(heads[j], slots', queues[j]) && OrdersOf(slots', queues'[j]) == OrdersOf(slots, queues[j])
    {
      HeadFrame(heads[j], slots, slots', queues[j]);
    }
    assert Book(slots', queues') == Book(slots, queues)[k := OrdersOf(slots', q')];
  }

  lemma LinkKeepsShape(heads: seq<Head>, slots: seq<Slot>, lfree: int, queues: seq<seq<int>>, frees: seq<int>, place: seq<int>,
                       k: int, x: int, quantity: int, userid: int,
                       h': Head, slots': seq<Slot>, lfree': int, frees': seq<int>, place': seq<int>)
    requires ShapeOf(heads, slots, lfree, queues, frees, place) && 0 <= k < LEVELS
    requires
      if lfree == -1 then
        x == |slots| && |slots'| == |slots| + 1 && lfree' == -1 && frees' == frees && place' == place + [k]
      else
        x == lfree && |slots'| == |slots| && lfree' == slots[x].next && frees' == frees[1..] && place' == place[x := k]
    requires slots'[x] == Slot(heads[k].last, -1, quantity, userid)
    requires forall y :: 0 <= y < |slots| && y != x ==>
               slots'[y] == if y == heads[k].last then slots[y].(next := x) else slots[y]
    requires h' == Head(Int32(heads[k].total + quantity), if heads[k].first == -1 then x else heads[k].first, x)
    ensures ShapeOf(heads[k := h'], slots', lfree', queues[k := queues[k] + [x]], frees', place')
    ensures Book(slots', queues[k := queues[k] + [x]])
              == Book(slots, queues)[k := Book(slots, queues)[k] + [Order(x, userid, quantity)]]
  {
    var q := queues[k];
    assert HeadFits(heads[k], slots, q) && Placed(q, place, k);
    if lfree == -1 {
      PartitionGrows(|slots|, queues, frees, place, k);
    } else {
      PartitionReuses(|slots|, queues, frees, place, k);
      FreeChainPop(slots, lfree, frees);
    }
    var q' := q + [x];
    assert q'[|q|] == x && (q != [] ==> q'[|q|-1] == heads[k].last);
    Apart(|slots'|, queues[k := q'], frees', place', k, x);
    if q != [] { Apart(|slots'|, queues[k := q'], frees', place', k, heads[k].last); }
    FreeChainFrame(slots, slots', lfree', frees');
    AppendFits(heads[k], slots, q, x, quantity, userid, h', slots');
    OthersFit(heads, slots, queues, k, h', slots', q');
  }

  /** The slots next to the i-th one of a list. */
  lemma NeighboursApart(h: Head, slots: seq<Slot>, q: seq<int>, i: int)
    requires HeadFits(h, slots, q) && 0 <= i < |q|
    ensures var d := slots[q[i]];
            && (d.prev == -1 || (0 <= d.prev < |slots| && d.prev != q[i] && d.prev != d.next))
            && (d.next == -1 || (0 <= d.next < |slots| && d.next != q[i]))
            && d.prev == (if i == 0 then -1 else q[i-1])
            && d.next == (if i == |q| - 1 then -1 else q[i+1])
  {
    assert Linked(slots, q, i);
  }

  /** Only the neighbours of the i-th slot of a list point elsewhere. */
  ghost predicate Bypassed(slots: seq<Slot>, x: int, slots': seq<Slot>)
    requires 0 <= x < |slots| == |slots'|
  {
    forall y :: 0 <= y < |slots| && y != x ==>
      slots'[y] == if y == slots[x].prev then slots[y].(next := slots[x].next)
                   else if y == slots[x].next then slots[y].(prev := slots[x].prev) else slots[y]
  }

  lemma BypassedNeighbours(h: Head, slots: seq<Slot>, q: seq<int>, i: int, slots': seq<Slot>)
    requires HeadFits(h, slots, q) && 0 <= i < |q| && |slots'| == |slots| && Bypassed(slots, q[i], slots')
    ensures forall j :: 0 <= j < |q| && j != i ==>
              slots'[q[j]] == (if j == i - 1 then slots[q[j]].(next := slots[q[i]].next)
                               else if j == i + 1 then slots[q[j]].(prev := slots[q[i]].prev) else slots[q[j]])
  {
    NeighboursApart(h, slots, q, i);
  }

  /** Unlinking a slot of one list leaves every other list alone. */
  lemma OthersUntouched(heads: seq<Head>, slots: seq<Slot>, queues: seq<seq<int>>, frees: seq<int>, place: seq<int>,
                        k: int, i: int, slots': seq<Slot>)
    requires Partition(|slots|, queues, frees, place) && HeadsFit(heads, slots, queues)
    requires 0 <= k < LEVELS && 0 <= i < |queues[k]| && |slots'| == |slots|
    requires 0 <= queues[k][i] < |slots| && Bypassed(slots, queues[k][i], slots')
    ensures forall j, n :: 0 <= j < LEVELS && j != k && 0 <= n < |queues[j]| ==>
              0 <= queues[j][n] < |slots| && slots'[queues[j][n]] == slots[queues[j][n]]
    ensures InRange(frees, |slots|)
    ensures forall n :: 0 <= n < |frees| ==> slots'[frees[n]].next == slots[frees[n]].next
  {
    var q := queues[k];
    assert HeadFits(heads[k], slots, q);
    NeighboursApart(heads[k], slots, q, i);
    assert q[i] in q && (i > 0 ==> q[i-1] in q) && (i < |q| - 1 ==> q[i+1] in q);
    Apart(|slots|, queues, frees, place, k, q[i]);
    if i > 0 { Apart(|slots|, queues, frees, place, k, q[i-1]); }
    if i < |q| - 1 { Apart(|slots|, queues, frees, place, k, q[i+1]); }
    forall j, n | 0 <= j < LEVELS && j != k && 0 <= n < |queues[j]|
      ensures 0 <= queues[j][n] < |slots| && slots'[queues[j][n]] == slots[queues[j][n]]
    {
      assert Placed(queues[j], place, j);
    }
  }

  lemma UnlinkKeepsShape(heads: seq<Head>, slots: seq<Slot>, lfree: int, queues: seq<seq<int>>, frees: seq<int>, place: seq<int>,
                         k: int, i: int, h': Head, slots': seq<Slot>)
    requires ShapeOf(heads, slots, lfree, queues, frees, place) && 0 <= k < LEVELS && 0 <= i < |queues[k]|
    requires |slots'| == |slots|
    requires 0 <= queues[k][i] < |slots|
    requires var x, d := queues[k][i], slots[queues[k][i]];
             && slots'[x] == Slot(-1, lfree, -1, -1)
             && Bypassed(slots, x, slots')
             && h' == Head(Int32(heads[k].total - d.quantity), if heads[k].first == x then d.next else heads[k].first,
                           if heads[k].last == x then d.prev else heads[k].last)
    ensures var q, x := queues[k], queues[k][i];
            var q' := q[..i] + q[i+1..];
            && ShapeOf(heads[k := h'], slots', x, queues[k := q'], [x] + frees, place[x := FREE])
            && Book(slots', queues[k := q'])
                 == Book(slots, queues)[k := Book(slots, queues)[k][..i] + Book(slots, queues)[k][i+1..]]
  {
    hide Int32, Qty, Chain, Placed, OrdersOf, Bypassed;
    var q, x := queues[k], queues[k][i];
    var q' := q[..i] + q[i+1..];
    BypassedNeighbours(heads[k], slots, q, i, slots');
    OthersUntouched(heads, slots, queues, frees, place, k, i, slots');
    Listed(heads, slots, queues, k);
    PartitionFrees(|slots|, queues, frees, place, k, i);
    FreeChainFrame(slots, slots', lfree, frees);
    FreeChainPush(slots', lfree, frees, x);
    UnlinkFits(heads[k], slots, q, i, h', slots');
    OthersFit(heads, slots, queues, k, h', slots', q');
  }

  lemma ResizeKeepsShape(heads: seq<Head>, slots: seq<Slot>, lfree: int, queues: seq<seq<int>>, frees: seq<int>, place: seq<int>,
                         k: int, i: int, quantity: int)
    requires ShapeOf(heads, slots, lfree, queues, frees, place) && 0 <= k < LEVELS && 0 <= i < |queues[k]|
    ensures var x := queues[k][i];
            var slots' := slots[x := slots[x].(quantity := quantity)];
            var h' := heads[k].(total := Int32(heads[k].total - (slots[x].quantity - quantity)));
            && ShapeOf(heads[k := h'], slots', lfree, queues, frees, place)
            && Book(slots', queues)
                 == Book(slots, queues)[k := Book(slots, queues)[k][i := Book(slots, queues)[k][i].(qty := quantity)]]
  {
    var q, x := queues[k], queues[k][i];
    assert HeadFits(heads[k], slots, q);
    var slots' := slots[x := slots[x].(quantity := quantity)];
    var h' := heads[k].(total := Int32(heads[k].total - (slots[x].quantity - quantity)));
    Apart(|slots|, queues, frees, place, k, x);
    FreeChainFrame(slots, slots', lfree, frees);
    ResizeFits(heads[k], slots, q, i, quantity, h', slots');
    assert queues[k := q] == queues;
    OthersFit(heads, slots, queues, k, h', slots', q);
  }
}
