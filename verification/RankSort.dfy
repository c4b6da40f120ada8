/** Sorting by counting: the place of an entry is the number of smaller entries. */
module RankSort {
  import opened Ranking

  /** First key, second key, id. */
  datatype Key = Key(major: int, minor: int, id: int)

  predicate Less(x: Key, y: Key) {
    x.major < y.major || (x.major == y.major && (x.minor < y.minor || (x.minor == y.minor && x.id < y.id)))
  }

  ghost predicate DistinctKeys(ks: seq<Key>) {
    forall i, j :: 0 <= i < j < |ks| ==> ks[i] != ks[j]
  }

  /** The entries among the first `n` that are smaller than entry `b`. */
  ghost function SmallerOnes(ks: seq<Key>, b: nat, n: nat): set<nat>
    requires b < |ks| && n <= |ks|
  {
    set c: nat | c < n && Less(ks[c], ks[b])
  }

  ghost function Place(ks: seq<Key>, b: nat): nat
    requires b < |ks|
  {
    |SmallerOnes(ks, b, |ks|)|
  }

  lemma Smaller<T>(a: set<T>, b: set<T>)
    requires a <= b
    ensures |a| <= |b|
  {
    assert b == a + (b - a);
  }

  lemma PlaceInRange(ks: seq<Key>, b: nat)
    requires b < |ks|
    ensures Place(ks, b) < |ks|
  {
    var all := set x: nat | x < |ks| && Below(x, |ks|);
    NatsBelow(|ks|);
    assert Below(b, |ks|) && b in all;
    assert SmallerOnes(ks, b, |ks|) <= all - {b} by {
      forall c | c in SmallerOnes(ks, b, |ks|) ensures c in all { assert Below(c, |ks|); }
    }
    Smaller(SmallerOnes(ks, b, |ks|), all - {b});
  }

  /** Places are ordered as the entries are; two entries collide exactly when they are equal. */
  lemma PlaceIsOrder(ks: seq<Key>, b: nat, c: nat)
    requires b < |ks| && c < |ks|
    ensures Place(ks, b) < Place(ks, c) <==> Less(ks[b], ks[c])
    ensures Place(ks, b) == Place(ks, c) <==> ks[b] == ks[c]
  {
    if Less(ks[b], ks[c]) {
      PlaceGrows(ks, b, c);
    } else if Less(ks[c], ks[b]) {
      PlaceGrows(ks, c, b);
    } else {
      assert ks[b] == ks[c];
    }
  }

  lemma PlaceGrows(ks: seq<Key>, b: nat, c: nat)
    requires b < |ks| && c < |ks| && Less(ks[b], ks[c])
    ensures Place(ks, b) < Place(ks, c)
  {
    var x, y := SmallerOnes(ks, b, |ks|), SmallerOnes(ks, c, |ks|);
    assert b in y && b !in x && x <= y;
    Smaller(x, y - {b});
  }

  /** With distinct entries the places are exactly 0..n, one each: `p` says who gets which. */
  ghost predicate Arrangement(ks: seq<Key>, p: seq<nat>) {
    Rows(p, |ks|) && forall i :: 0 <= i < |ks| ==> Place(ks, p[i]) == i
  }

  ghost function Places(ks: seq<Key>): (s: seq<nat>)
    ensures |s| == |ks|
  {
    seq(|ks|, b requires 0 <= b < |ks| => Place(ks, b))
  }

  lemma EveryPlaceTaken(ks: seq<Key>) returns (p: seq<nat>)
    requires DistinctKeys(ks)
    ensures Arrangement(ks, p)
  {
    var s := Places(ks);
    forall b, c | 0 <= b < c < |ks| ensures s[b] != s[c] { PlaceIsOrder(ks, b, c); }
    forall b | 0 <= b < |ks| ensures s[b] < |ks| { PlaceInRange(ks, b); }
    Everyone(s, |ks|);
    forall i | 0 <= i < |ks| ensures Taken(ks, i) {
      assert i in s;
      var b :| 0 <= b < |ks| && s[b] == i;
      assert Place(ks, b) == i;
    }
    p := Takers(ks);
  }

  ghost predicate Taken(ks: seq<Key>, i: nat) {
    exists b :: 0 <= b < |ks| && Place(ks, b) == i
  }

  /** Every place is taken exactly when no two entries are equal. */
  lemma EveryPlaceTakenIff(ks: seq<Key>)
    ensures (forall i :: 0 <= i < |ks| ==> Taken(ks, i)) <==> DistinctKeys(ks)
  {
    hide Place;
    if DistinctKeys(ks) {
      var p := EveryPlaceTaken(ks);
      forall i | 0 <= i < |ks| ensures Taken(ks, i) { assert Place(ks, p[i]) == i; }
    } else if forall i :: 0 <= i < |ks| ==> Taken(ks, i) {
      var q := Takers(ks);
      Everyone(q, |ks|);
      forall b: nat, c: nat | b < c < |ks| ensures ks[b] != ks[c] {
        assert b in q && c in q;
        var i: nat :| i < |ks| && q[i] == b;
        var j: nat :| j < |ks| && q[j] == c;
        PlaceIsOrder(ks, b, c);
      }
    }
  }

  /** Two equal entries leave the second place free. */
  lemma EqualEntries(k: Key)
    ensures !Taken([k, k], 1)
  {
    PlaceIsOrder([k, k], 0, 1);
    EveryPlaceTakenIff([k, k]);
    PlaceInRange([k, k], 0);
    assert SmallerOnes([k, k], 0, 2) == {};
  }

  /** If every place is taken, somebody for each. */
  lemma Takers(ks: seq<Key>) returns (q: seq<nat>)
    requires forall i :: 0 <= i < |ks| ==> Taken(ks, i)
    ensures Arrangement(ks, q)
  {
    hide Place;
    q := [];
    while |q| < |ks|
      invariant |q| <= |ks|
      invariant forall i :: 0 <= i < |q| ==> q[i] < |ks| && Place(ks, q[i]) == i
    {
      assert Taken(ks, |q|);
      var b: nat :| b < |ks| && Place(ks, b) == |q|;
      q := q + [b];
    }
  }

  ghost function Arranged(ids: seq<int>, p: seq<nat>): (r: seq<int>)
    requires Rows(p, |ids|)
    ensures |r| == |ids|
  {
    seq(|ids|, i requires 0 <= i < |ids| => ids[p[i]])
  }

  lemma {:induction false} ArrangedIsPermutation(ids: seq<int>, p: seq<nat>)
    requires Rows(p, |ids|)
    ensures multiset(Arranged(ids, p)) == multiset(ids)
  {
    if ids == [] {
      assert Arranged(ids, p) == ids;
    } else {
      var n := |ids| - 1;
      Everyone(p, n + 1);
      assert n in p;
      var j :| 0 <= j <= n && p[j] == n;
      var p', ids' := p[..j] + p[j+1..], ids[..n];
      forall i | 0 <= i < n ensures p'[i] == p[if i < j then i else i + 1] && p'[i] < n { }
      ArrangedIsPermutation(ids', p');
      WithoutLast(ids, p, j, p', ids');
      assert ids == ids' + [ids[n]];
    }
  }

  lemma WithoutLast(ids: seq<int>, p: seq<nat>, j: nat, p': seq<nat>, ids': seq<int>)
    requires Rows(p, |ids|) && j < |ids| && p[j] == |ids| - 1 && ids' == ids[..|ids|-1] && Rows(p', |ids'|)
    requires forall i :: 0 <= i < |ids'| ==> p'[i] == p[if i < j then i else i + 1]
    ensures multiset(Arranged(ids, p)) == multiset(Arranged(ids', p')) + multiset{ids[|ids|-1]}
  {
    var a, b := Arranged(ids, p), Arranged(ids', p');
    assert forall i :: 0 <= i < |b| ==> b[i] == a[if i < j then i else i + 1];
    assert b == a[..j] + a[j+1..];
    assert a == a[..j] + [a[j]] + a[j+1..];
  }

  // ---------------------------------------------------------------- the two sorts

  function KeysOf(ids: seq<int>, major: seq<int>, minor: seq<int>): (ks: seq<Key>)
    requires |ids| == |major| == |minor|
    ensures |ks| == |ids|
  {
    seq(|ids|, i requires 0 <= i < |ids| => Key(major[i], minor[i], ids[i]))
  }

  ghost predicate SortedBy(ks: seq<Key>, ids: seq<int>, out: seq<int>, p: seq<nat>) {
    && |ids| == |ks| && Rows(p, |ks|)
    && out == Arranged(ids, p) && multiset(out) == multiset(ids)
    && forall i, j :: 0 <= i < j < |ks| ==> Less(ks[p[i]], ks[p[j]])
  }

  lemma ArrangementSorts(ks: seq<Key>, ids: seq<int>, p: seq<nat>)
    requires |ids| == |ks| && Arrangement(ks, p)
    ensures SortedBy(ks, ids, Arranged(ids, p), p)
  {
    ArrangedIsPermutation(ids, p);
    forall i, j | 0 <= i < j < |ks| ensures Less(ks[p[i]], ks[p[j]]) { PlaceIsOrder(ks, p[i], p[j]); }
  }

  lemma CountOne(ks: seq<Key>, b: nat, c: nat)
    requires b < |ks| && c < |ks|
    ensures SmallerOnes(ks, b, c + 1) == SmallerOnes(ks, b, c) + (if Less(ks[c], ks[b]) then {c} else {})
    ensures c !in SmallerOnes(ks, b, c)
  {
  }

  /** The inner loop of sortlist2. */
  method CountSmaller2(num: nat, list1: array<int>, list2: array<int>, list3: array<int>, b: nat) returns (smaller: nat)
    requires num <= list1.Length && num <= list2.Length && num <= list3.Length && b < num
    ensures smaller == Place(KeysOf(list1[..num], list2[..num], list3[..num]), b)
  {
    hide SmallerOnes;
    ghost var ks := KeysOf(list1[..num], list2[..num], list3[..num]);
    smaller := 0;
    var c := 0;
    NoneYet(ks, b);
    while c < num
      invariant 0 <= c <= num && smaller == |SmallerOnes(ks, b, c)|
    {
      CountOne(ks, b, c);
      assert ks[c] == Key(list2[c], list3[c], list1[c]) && ks[b] == Key(list2[b], list3[b], list1[b]);
      if b != c {
        if list2[b] > list2[c] || (list2[b] == list2[c] && list3[b] > list3[c])
           || (list2[b] == list2[c] && list3[b] == list3[c] && list1[b] > list1[c])
        {
          smaller := smaller + 1;
        }
      }
      c := c + 1;
    }
  }

  /** The inner loop of sortlist. */
  method CountSmaller(num: nat, list1: array<int>, list2: array<int>, b: nat) returns (smaller: nat)
    requires num <= list1.Length && num <= list2.Length && b < num
    ensures smaller == Place(KeysOf(list1[..num], list2[..num], seq(num, i => 0)), b)
  {
    hide SmallerOnes;
    ghost var ks := KeysOf(list1[..num], list2[..num], seq(num, i => 0));
    smaller := 0;
    var c := 0;
    NoneYet(ks, b);
    while c < num
      invariant 0 <= c <= num && smaller == |SmallerOnes(ks, b, c)|
    {
      CountOne(ks, b, c);
      assert ks[c] == Key(list2[c], 0, list1[c]) && ks[b] == Key(list2[b], 0, list1[b]);
      if b != c {
        if list2[b] > list2[c] || (list2[b] == list2[c] && list1[b] > list1[c]) { smaller := smaller + 1; }
      }
      c := c + 1;
    }
  }

  lemma NoneYet(ks: seq<Key>, b: nat)
    requires b < |ks|
    ensures SmallerOnes(ks, b, 0) == {}
  {
  }

  /** The first `n` ids have gone to their places. */
  ghost predicate Placed(ks: seq<Key>, ids: seq<int>, out: seq<int>, n: nat)
    requires n <= |ks| == |ids|
  {
    forall x :: 0 <= x < n ==> Place(ks, x) < |out| && out[Place(ks, x)] == ids[x]
  }

  lemma PlacedNext(ks: seq<Key>, ids: seq<int>, out: seq<int>, n: nat)
    requires n < |ks| == |ids| == |out| && Placed(ks, ids, out, n) && forall i :: 0 <= i < |ks| ==> ks[i].id == ids[i]
    ensures Place(ks, n) < |out| && Placed(ks, ids, out[Place(ks, n) := ids[n]], n + 1)
  {
    PlaceInRange(ks, n);
    forall x | 0 <= x < n && Place(ks, x) == Place(ks, n) ensures ids[x] == ids[n] { PlaceIsOrder(ks, x, n); }
  }

  /** Without equal entries that sorts. */
  lemma PlacedSorts(ks: seq<Key>, ids: seq<int>, out: seq<int>) returns (p: seq<nat>)
    requires |ids| == |ks| == |out| && Placed(ks, ids, out, |ks|)
    ensures DistinctKeys(ks) ==> SortedBy(ks, ids, out, p)
  {
    p := [];
    if DistinctKeys(ks) {
      p := EveryPlaceTaken(ks);
      forall i | 0 <= i < |ks| ensures out[i] == ids[p[i]] { assert Place(ks, p[i]) == i; }
      assert out == Arranged(ids, p);
      ArrangementSorts(ks, ids, p);
    }
  }

  lemma NonePlaced(ks: seq<Key>, ids: seq<int>, out: seq<int>)
    requires |ks| == |ids|
    ensures Placed(ks, ids, out, 0)
  {
  }

  method CopyBack(from: array<int>, to: array<int>, num: nat)
    requires from.Length == num <= to.Length && from != to
    modifies to
    ensures to[..num] == from[..] && to[num..] == old(to[num..])
  {
    var b := 0;
    while b < num
      invariant 0 <= b <= num && to[..b] == from[..b] && to[num..] == old(to[num..])
    {
      to[b] := from[b];
      b := b + 1;
    }
  }

  /** sortlist2; the ids are rearranged, the keys stay where they are. Every id goes to its place; equal entries
      share one, and then another place is left as it was allocated. */
  method SortList2(num: nat, list1: array<int>, list2: array<int>, list3: array<int>) returns (ghost p: seq<nat>)
    requires num <= list1.Length && num <= list2.Length && num <= list3.Length && list1 != list2 && list1 != list3
    modifies list1
    ensures var ks := KeysOf(old(list1[..num]), list2[..num], list3[..num]);
            && Placed(ks, old(list1[..num]), list1[..num], num)
            && (DistinctKeys(ks) ==> SortedBy(ks, old(list1[..num]), list1[..num], p))
    ensures list1[num..] == old(list1[num..])
  {
    hide DistinctKeys, Place, Placed, SortedBy;
    ghost var ids := list1[..num];
    ghost var ks := KeysOf(ids, list2[..num], list3[..num]);
    var list4 := new int[num];
    NonePlaced(ks, ids, list4[..]);
    var b := 0;
    while b < num
      invariant 0 <= b <= num && list1[..] == old(list1[..]) && Placed(ks, ids, list4[..], b)
    {
      PlacedNext(ks, ids, list4[..], b);
      var smaller := CountSmaller2(num, list1, list2, list3, b);
      list4[smaller] := list1[b];
      b := b + 1;
    }
    p := PlacedSorts(ks, ids, list4[..]);
    CopyBack(list4, list1, num);
  }

  /** sortlist: the same with one key. */
  method SortList(num: nat, list1: array<int>, list2: array<int>) returns (ghost p: seq<nat>)
    requires num <= list1.Length && num <= list2.Length && list1 != list2
    modifies list1
    ensures var ks := KeysOf(old(list1[..num]), list2[..num], seq(num, i => 0));
            && Placed(ks, old(list1[..num]), list1[..num], num)
            && (DistinctKeys(ks) ==> SortedBy(ks, old(list1[..num]), list1[..num], p))
    ensures list1[num..] == old(list1[num..])
  {
    hide DistinctKeys, Place, Placed, SortedBy;
    ghost var ids := list1[..num];
    ghost var ks := KeysOf(ids, list2[..num], seq(num, i => 0));
    var list3 := new int[num];
    NonePlaced(ks, ids, list3[..]);
    var b := 0;
    while b < num
      invariant 0 <= b <= num && list1[..] == old(list1[..]) && Placed(ks, ids, list3[..], b)
    {
      PlacedNext(ks, ids, list3[..], b);
      var smaller := CountSmaller(num, list1, list2, b);
      list3[smaller] := list1[b];
      b := b + 1;
    }
    p := PlacedSorts(ks, ids, list3[..]);
    CopyBack(list3, list1, num);
  }

  /** The places in figures: an id goes to the place that counts the entries below its own. */
  lemma InPlaces(ids: seq<int>, a: seq<int>, c: seq<int>, out: seq<int>, b: nat)
    requires b < |ids| == |a| == |c| && Placed(KeysOf(ids, a, c), ids, out, |ids|)
    ensures var smaller := set x: nat | x < |ids|
                             && (a[x] < a[b] || (a[x] == a[b] && (c[x] < c[b] || (c[x] == c[b] && ids[x] < ids[b]))));
            |smaller| < |out| && out[|smaller|] == ids[b]
  {
    hide Placed;
    var ks := KeysOf(ids, a, c);
    forall x: nat | x < |ids|
      ensures Less(ks[x], ks[b])
              <==> (a[x] < a[b] || (a[x] == a[b] && (c[x] < c[b] || (c[x] == c[b] && ids[x] < ids[b]))))
    {
    }
    var smaller := set x: nat | x < |ids|
                     && (a[x] < a[b] || (a[x] == a[b] && (c[x] < c[b] || (c[x] == c[b] && ids[x] < ids[b]))));
    assert smaller == SmallerOnes(ks, b, |ks|);
    PlacedHere(ks, ids, out, b);
  }

  lemma PlacedHere(ks: seq<Key>, ids: seq<int>, out: seq<int>, b: nat)
    requires b < |ks| == |ids| && Placed(ks, ids, out, |ks|)
    ensures Place(ks, b) < |out| && out[Place(ks, b)] == ids[b]
  {
  }
}
