/** News files: slots on a doubly linked list in use or on a list of free slots. */
module NewsFile {
  import opened NewsRules

  datatype Slot = Slot(prev: int, next: int, row: Row)

  ghost function First(q: seq<int>): int { if q == [] then -1 else q[0] }

  ghost predicate InRange(q: seq<int>, n: int) {
    forall i :: 0 <= i < |q| ==> 0 <= q[i] < n
  }

  ghost predicate Distinct(q: seq<int>) {
    forall i, j :: 0 <= i < j < |q| ==> q[i] != q[j]
  }

  ghost predicate Linked(slots: seq<Slot>, q: seq<int>, i: int)
    requires InRange(q, |slots|) && 0 <= i < |q|
  {
    && slots[q[i]].prev == (if i == 0 then -1 else q[i-1])
    && slots[q[i]].next == (if i == |q| - 1 then -1 else q[i+1])
  }

  ghost predicate Chain(slots: seq<Slot>, q: seq<int>) {
    InRange(q, |slots|) && Distinct(q) && forall i :: 0 <= i < |q| ==> Linked(slots, q, i)
  }

  ghost predicate FreeLinked(slots: seq<Slot>, q: seq<int>, i: int)
    requires InRange(q, |slots|) && 0 <= i < |q|
  {
    slots[q[i]].next == (if i == |q| - 1 then -1 else q[i+1])
  }

  ghost predicate FreeChain(slots: seq<Slot>, q: seq<int>) {
    InRange(q, |slots|) && Distinct(q) && forall i :: 0 <= i < |q| ==> FreeLinked(slots, q, i)
  }

  /** Every slot is on exactly one of the two lists. */
  ghost predicate Partition(n: int, used: seq<int>, frees: seq<int>) {
    forall x :: 0 <= x < n ==> (x in used <==> x !in frees)
  }

  ghost predicate Shape(slots: seq<Slot>, used: seq<int>, frees: seq<int>) {
    Chain(slots, used) && FreeChain(slots, frees) && Partition(|slots|, used, frees)
  }

  ghost function RowsOf(slots: seq<Slot>, q: seq<int>): (r: seq<Row>)
    requires InRange(q, |slots|)
    ensures |r| == |q|
  {
    seq(|q|, i requires 0 <= i < |q| => slots[q[i]].row)
  }

  // ---------------------------------------------------------------- adding

  /** Where a new row goes: the first free slot, or a new one. */
  lemma TakeFree(slots: seq<Slot>, used: seq<int>, frees: seq<int>)
    requires Shape(slots, used, frees) && frees != []
    ensures 0 <= frees[0] < |slots| && slots[frees[0]].next == First(frees[1..]) && frees[0] !in used && frees[0] !in frees[1..]
  {
    assert FreeLinked(slots, frees, 0);
    assert frees[0] in frees;
  }

  /** The slots after linking `x` in front, its row written and the old first slot pointed back. */
  function Pushed(slots: seq<Slot>, first: int, x: int, row: Row): seq<Slot>
    requires 0 <= x < |slots| && -1 <= first < |slots|
  {
    var s := slots[x := Slot(-1, first, row)];
    if first == -1 then s else s[first := s[first].(prev := x)]
  }

  lemma PushKeepsChain(slots: seq<Slot>, used: seq<int>, x: int, row: Row)
    requires Chain(slots, used) && 0 <= x < |slots| && x !in used
    ensures -1 <= First(used) < |slots|
    ensures Chain(Pushed(slots, First(used), x, row), [x] + used)
    ensures RowsOf(Pushed(slots, First(used), x, row), [x] + used) == [row] + RowsOf(slots, used)
  {
    var s, q := Pushed(slots, First(used), x, row), [x] + used;
    forall i | 0 <= i < |q| ensures Linked(s, q, i) {
      if i > 0 { assert Linked(slots, used, i - 1) && q[i] == used[i-1]; }
    }
  }

  lemma PushKeepsFree(slots: seq<Slot>, used: seq<int>, frees: seq<int>, x: int, row: Row)
    requires Chain(slots, used) && FreeChain(slots, frees) && 0 <= x < |slots| && x !in frees
    requires forall y :: y in used ==> y !in frees
    ensures -1 <= First(used) < |slots| && FreeChain(Pushed(slots, First(used), x, row), frees)
  {
    var s := Pushed(slots, First(used), x, row);
    forall i | 0 <= i < |frees| ensures FreeLinked(s, frees, i) {
      assert FreeLinked(slots, frees, i) && frees[i] in frees;
    }
  }

  lemma FreeTail(slots: seq<Slot>, frees: seq<int>)
    requires FreeChain(slots, frees) && frees != []
    ensures FreeChain(slots, frees[1..])
  {
    var t := frees[1..];
    forall i | 0 <= i < |t| ensures FreeLinked(slots, t, i) { assert FreeLinked(slots, frees, i + 1); }
  }

  /** Reusing the first free slot. */
  lemma PushReused(slots: seq<Slot>, used: seq<int>, frees: seq<int>, row: Row)
    requires Shape(slots, used, frees) && frees != []
    ensures -1 <= First(used) < |slots| && 0 <= frees[0] < |slots|
    ensures Shape(Pushed(slots, First(used), frees[0], row), [frees[0]] + used, frees[1..])
    ensures RowsOf(Pushed(slots, First(used), frees[0], row), [frees[0]] + used) == [row] + RowsOf(slots, used)
  {
    hide Chain, FreeChain, Pushed;
    TakeFree(slots, used, frees);
    FreeTail(slots, frees);
    Apart(slots, used, frees);
    PushKeepsChain(slots, used, frees[0], row);
    PushKeepsFree(slots, used, frees[1..], frees[0], row);
    PushLength(slots, First(used), frees[0], row);
    assert frees == [frees[0]] + frees[1..];
  }

  lemma Apart(slots: seq<Slot>, used: seq<int>, frees: seq<int>)
    requires Shape(slots, used, frees)
    ensures forall y :: y in used ==> y !in frees
  {
  }

  lemma PushLength(slots: seq<Slot>, first: int, x: int, row: Row)
    requires 0 <= x < |slots| && -1 <= first < |slots|
    ensures |Pushed(slots, first, x, row)| == |slots|
  {
  }

  /** A new slot at the end, when none is free. */
  lemma PushNew(slots: seq<Slot>, used: seq<int>, row: Row, blank: Slot)
    requires Shape(slots, used, [])
    ensures -1 <= First(used) < |slots| + 1
    ensures Shape(Pushed(slots + [blank], First(used), |slots|, row), [|slots|] + used, [])
    ensures RowsOf(Pushed(slots + [blank], First(used), |slots|, row), [|slots|] + used) == [row] + RowsOf(slots, used)
  {
    hide Pushed;
    var s, x := slots + [blank], |slots|;
    forall i | 0 <= i < |used| ensures Linked(s, used, i) { assert Linked(slots, used, i); }
    PushKeepsChain(s, used, x, row);
    PushLength(s, First(used), x, row);
    assert RowsOf(s, used) == RowsOf(slots, used);
  }

  // ---------------------------------------------------------------- removing

  function Removed(q: seq<int>, k: nat): seq<int>
    requires k < |q|
  {
    q[..k] + q[k+1..]
  }

  /** The slots after unlinking `a` and putting it on the free list. */
  function Unlinked(slots: seq<Slot>, a: int, prev: int, next: int, free: int): seq<Slot>
    requires 0 <= a < |slots| && -1 <= prev < |slots| && -1 <= next < |slots| && -1 <= free < |slots|
  {
    var s := if prev == -1 then slots else slots[prev := slots[prev].(next := next)];
    var t := if next == -1 then s else s[next := s[next].(prev := prev)];
    var u := t[a := t[a].(prev := -1, next := free)];
    if free == -1 then u else u[free := u[free].(prev := a)]
  }

  lemma Ends(slots: seq<Slot>, q: seq<int>, k: nat)
    requires Chain(slots, q) && k < |q|
    ensures 0 <= q[k] < |slots|
    ensures slots[q[k]].prev == (if k == 0 then -1 else q[k-1]) && slots[q[k]].next == (if k == |q| - 1 then -1 else q[k+1])
    ensures -1 <= slots[q[k]].prev < |slots| && -1 <= slots[q[k]].next < |slots|
  {
    assert Linked(slots, q, k);
  }

  lemma FreeEnds(slots: seq<Slot>, frees: seq<int>)
    requires FreeChain(slots, frees)
    ensures -1 <= First(frees) < |slots|
  {
  }

  /** What unlinking does to the rest of the list. */
  lemma UnlinkedAt(slots: seq<Slot>, used: seq<int>, frees: seq<int>, k: nat, j: nat)
    requires Shape(slots, used, frees) && k < |used| && j < |used| && j != k
    requires var x := slots[used[k]]; -1 <= x.prev < |slots| && -1 <= x.next < |slots| && -1 <= First(frees) < |slots|
    ensures var x := slots[used[k]];
            var s := Unlinked(slots, used[k], x.prev, x.next, First(frees));
            s[used[j]] == if j == k - 1 then slots[used[j]].(next := x.next)
                          else if j == k + 1 then slots[used[j]].(prev := x.prev) else slots[used[j]]
  {
    Ends(slots, used, k);
    assert used[j] in used;
    assert frees != [] ==> frees[0] in frees;
    assert k > 0 ==> used[k-1] != used[j] || k - 1 == j;
    assert k < |used| - 1 ==> used[k+1] != used[j] || k + 1 == j;
  }

  lemma RemovedAt(q: seq<int>, k: nat, i: nat)
    requires k < |q| && i < |q| - 1
    ensures Removed(q, k)[i] == q[if i < k then i else i + 1]
  {
  }

  lemma RemovedDistinct(q: seq<int>, k: nat)
    requires Distinct(q) && k < |q|
    ensures Distinct(Removed(q, k))
  {
  }

  lemma UnlinkChain(slots: seq<Slot>, q: seq<int>, k: nat, s: seq<Slot>)
    requires Chain(slots, q) && k < |q| && |s| == |slots|
    requires forall j :: 0 <= j < |q| && j != k ==>
               s[q[j]] == (if j == k - 1 then slots[q[j]].(next := slots[q[k]].next)
                           else if j == k + 1 then slots[q[j]].(prev := slots[q[k]].prev) else slots[q[j]])
    ensures Chain(s, Removed(q, k))
  {
    var q' := Removed(q, k);
    forall i | 0 <= i < |q'| ensures Linked(s, q', i) {
      var j := if i < k then i else i + 1;
      RemovedAt(q, k, i);
      if i > 0 { RemovedAt(q, k, i - 1); }
      if i < |q'| - 1 { RemovedAt(q, k, i + 1); }
      assert Linked(slots, q, j) && Linked(slots, q, k);
    }
    RemovedDistinct(q, k);
  }

  lemma UnlinkRows(slots: seq<Slot>, q: seq<int>, k: nat, s: seq<Slot>)
    requires InRange(q, |slots|) && k < |q| && |s| == |slots|
    requires forall j :: 0 <= j < |q| && j != k ==> s[q[j]].row == slots[q[j]].row
    ensures InRange(Removed(q, k), |s|)
    ensures RowsOf(s, Removed(q, k)) == RowsOf(slots, q)[..k] + RowsOf(slots, q)[k+1..]
  {
    assert RowsOf(s, Removed(q, k)) == RowsOf(slots, q)[..k] + RowsOf(slots, q)[k+1..];
  }

  lemma UnlinkKeepsChain(slots: seq<Slot>, used: seq<int>, frees: seq<int>, k: nat)
    requires Shape(slots, used, frees) && k < |used|
    requires var x := slots[used[k]]; -1 <= x.prev < |slots| && -1 <= x.next < |slots| && -1 <= First(frees) < |slots|
    ensures var x := slots[used[k]];
            var s := Unlinked(slots, used[k], x.prev, x.next, First(frees));
            Chain(s, Removed(used, k)) && RowsOf(s, Removed(used, k)) == RowsOf(slots, used)[..k] + RowsOf(slots, used)[k+1..]
  {
    hide Unlinked, Removed, Linked, FreeChain, Partition;
    var x := slots[used[k]];
    var s := Unlinked(slots, used[k], x.prev, x.next, First(frees));
    UnlinkedLength(slots, used[k], x.prev, x.next, First(frees));
    forall j: nat | j < |used| && j != k
      ensures s[used[j]] == if j == k - 1 then slots[used[j]].(next := x.next)
                            else if j == k + 1 then slots[used[j]].(prev := x.prev) else slots[used[j]]
    {
      UnlinkedAt(slots, used, frees, k, j);
    }
    UnlinkChain(slots, used, k, s);
    UnlinkRows(slots, used, k, s);
  }

  lemma UnlinkedLength(slots: seq<Slot>, a: int, prev: int, next: int, free: int)
    requires 0 <= a < |slots| && -1 <= prev < |slots| && -1 <= next < |slots| && -1 <= free < |slots|
    ensures |Unlinked(slots, a, prev, next, free)| == |slots|
  {
  }

  lemma UnlinkKeepsFree(slots: seq<Slot>, used: seq<int>, frees: seq<int>, k: nat)
    requires Shape(slots, used, frees) && k < |used|
    requires var x := slots[used[k]]; -1 <= x.prev < |slots| && -1 <= x.next < |slots| && -1 <= First(frees) < |slots|
    ensures var x := slots[used[k]];
            var s := Unlinked(slots, used[k], x.prev, x.next, First(frees));
            |s| == |slots| && FreeChain(s, [used[k]] + frees)
  {
    var x := slots[used[k]];
    var s, f := Unlinked(slots, used[k], x.prev, x.next, First(frees)), [used[k]] + frees;
    Apart(slots, used, frees);
    assert Linked(slots, used, k) && used[k] in used;
    assert k > 0 ==> used[k-1] in used;
    assert k < |used| - 1 ==> used[k+1] in used;
    forall i | 0 <= i < |f| ensures FreeLinked(s, f, i) {
      if i > 0 { assert FreeLinked(slots, frees, i - 1) && frees[i-1] in frees; }
    }
  }

  lemma UnlinkKeepsPartition(n: int, used: seq<int>, frees: seq<int>, k: nat)
    requires Partition(n, used, frees) && k < |used| && Distinct(used)
    ensures Partition(n, Removed(used, k), [used[k]] + frees)
  {
    var q := Removed(used, k);
    assert used == used[..k] + [used[k]] + used[k+1..];
    forall x | 0 <= x < n ensures x in q <==> x !in [used[k]] + frees {
      assert used[k] !in used[..k] && used[k] !in used[k+1..];
    }
  }

  lemma UnlinkKeepsShape(slots: seq<Slot>, used: seq<int>, frees: seq<int>, k: nat)
    requires Shape(slots, used, frees) && k < |used|
    ensures var x := slots[used[k]];
            && -1 <= x.prev < |slots| && -1 <= x.next < |slots| && -1 <= First(frees) < |slots|
            && var s := Unlinked(slots, used[k], x.prev, x.next, First(frees));
               Shape(s, Removed(used, k), [used[k]] + frees)
               && RowsOf(s, Removed(used, k)) == RowsOf(slots, used)[..k] + RowsOf(slots, used)[k+1..]
  {
    hide Unlinked, Removed;
    Ends(slots, used, k);
    FreeEnds(slots, frees);
    UnlinkKeepsChain(slots, used, frees, k);
    UnlinkKeepsFree(slots, used, frees, k);
    UnlinkKeepsPartition(|slots|, used, frees, k);
  }

  /** Writing a row's flags changes no link. */
  lemma FlagsKeepShape(slots: seq<Slot>, used: seq<int>, frees: seq<int>, x: int, row: Row)
    requires Shape(slots, used, frees) && 0 <= x < |slots|
    ensures Shape(slots[x := slots[x].(row := row)], used, frees)
    ensures forall k :: 0 <= k < |used| && used[k] == x ==>
              RowsOf(slots[x := slots[x].(row := row)], used) == RowsOf(slots, used)[k := row]
    ensures x !in used ==> RowsOf(slots[x := slots[x].(row := row)], used) == RowsOf(slots, used)
  {
    var s := slots[x := slots[x].(row := row)];
    forall i | 0 <= i < |used| ensures Linked(s, used, i) { assert Linked(slots, used, i); }
    forall i | 0 <= i < |frees| ensures FreeLinked(s, frees, i) { assert FreeLinked(slots, frees, i); }
    if x !in used {
      assert forall k :: 0 <= k < |used| ==> used[k] in used;
      assert RowsOf(s, used) == RowsOf(slots, used);
    }
  }
}
