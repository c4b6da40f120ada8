/** Who owns which planet, kept twice: in the map, and in a list of planets for each player. */
module Planets {
  import opened SwapLast

  datatype Entry = Entry(id: int, system: int, position: int, flags: int)

  function Ids(list: seq<Entry>): (s: seq<int>)
    ensures |s| == |list| && forall i :: 0 <= i < |list| ==> s[i] == list[i].id
  {
    seq(|list|, i requires 0 <= i < |list| => list[i].id)
  }

  /** How often a planet is listed. */
  function Times(list: seq<Entry>, p: int): nat {
    multiset(Ids(list))[p]
  }

  /** A planet's owner is u exactly when it is once in u's list, and it is in no other list. */
  ghost predicate Agrees(owner: seq<int>, lists: seq<seq<Entry>>) {
    && (forall p :: 0 <= p < |owner| ==> -1 <= owner[p] < |lists|)
    && (forall u, p :: 0 <= u < |lists| && 0 <= p < |owner| ==> Times(lists[u], p) == if owner[p] == u then 1 else 0)
    && (forall u, i :: 0 <= u < |lists| && 0 <= i < |lists[u]| ==> 0 <= lists[u][i].id < |owner|)
  }

  lemma AgreesIff(owner: seq<int>, lists: seq<seq<Entry>>, u: int, p: int)
    requires Agrees(owner, lists) && 0 <= u < |lists| && 0 <= p < |owner|
    ensures owner[p] == u <==> exists i :: 0 <= i < |lists[u]| && lists[u][i].id == p
    ensures forall i, j :: 0 <= i < j < |lists[u]| ==> lists[u][i].id != lists[u][j].id
  {
    var ids := Ids(lists[u]);
    assert p in ids <==> multiset(ids)[p] > 0;
    assert Times(lists[u], p) == if owner[p] == u then 1 else 0;
    forall i, j | 0 <= i < j < |ids| ensures ids[i] != ids[j] {
      var q := ids[i];
      assert q == lists[u][i].id && 0 <= lists[u][i].id < |owner|;
      assert Times(lists[u], q) == if owner[q] == u then 1 else 0;
      if ids[j] == q { TwiceThere(ids, i, j); }
    }
    assert forall i, j :: 0 <= i < j < |ids| ==> lists[u][i].id == ids[i] != ids[j] == lists[u][j].id;
  }

  lemma TwiceThere(s: seq<int>, i: nat, j: nat)
    requires i < j < |s| && s[i] == s[j]
    ensures multiset(s)[s[i]] >= 2
  {
    var a, b := s[..j], s[j..];
    assert s == a + b && a[i] == s[i] && b[0] == s[i];
    assert s[i] in a && s[i] in b;
    assert multiset(s) == multiset(a) + multiset(b);
  }

  // ---------------------------------------------------------------- changing a list

  lemma AddCounts(list: seq<Entry>, e: Entry, p: int)
    ensures Times(list + [e], p) == Times(list, p) + (if e.id == p then 1 else 0)
  {
    assert Ids(list + [e]) == Ids(list) + [e.id];
  }

  lemma DropCounts(list: seq<Entry>, i: nat, p: int)
    requires i < |list|
    ensures Times(Removed(list, i), p) == Times(list, p) - (if list[i].id == p then 1 else 0)
  {
    var ids, n := Ids(list), |list| - 1;
    assert ids == ids[..n] + [ids[n]];
    if i < n {
      assert ids[..n] == ids[..i] + [ids[i]] + ids[i+1..n];
      assert Ids(Removed(list, i)) == ids[..i] + [ids[n]] + ids[i+1..n];
    } else {
      assert Ids(Removed(list, i)) == ids[..n];
    }
  }

  /** Whatever order the two writes come in: the list of the old owner, if any, loses the planet, the
      list of the new owner, if any, gains it, and the map says so. */
  ghost predicate Moved(lists: seq<seq<Entry>>, lists': seq<seq<Entry>>, p: int, from: int, to: int) {
    && |lists'| == |lists|
    && (forall u, q :: 0 <= u < |lists| ==>
          Times(lists'[u], q) == Times(lists[u], q) - (if u == from && q == p then 1 else 0) + (if u == to && q == p then 1 else 0))
    && (forall u, i :: 0 <= u < |lists| && 0 <= i < |lists'[u]| ==>
          lists'[u][i].id == p || exists j :: 0 <= j < |lists[u]| && lists[u][j].id == lists'[u][i].id)
  }

  lemma MoveKeepsAgreement(owner: seq<int>, lists: seq<seq<Entry>>, lists': seq<seq<Entry>>, p: int, to: int)
    requires Agrees(owner, lists) && 0 <= p < |owner| && -1 <= to < |lists|
    requires Moved(lists, lists', p, owner[p], to)
    ensures Agrees(owner[p := to], lists')
  {
  }

  lemma Lost(lists: seq<seq<Entry>>, from: int, i: nat)
    requires 0 <= from < |lists| && i < |lists[from]|
    ensures Moved(lists, lists[from := Removed(lists[from], i)], lists[from][i].id, from, -1)
  {
    var p, lists' := lists[from][i].id, lists[from := Removed(lists[from], i)];
    forall u, q | 0 <= u < |lists|
      ensures Times(lists'[u], q) == Times(lists[u], q) - (if u == from && q == p then 1 else 0)
    {
      if u == from { DropCounts(lists[from], i, q); }
    }
    forall u, k | 0 <= u < |lists| && 0 <= k < |lists'[u]|
      ensures exists j :: 0 <= j < |lists[u]| && lists[u][j].id == lists'[u][k].id
    {
      assert lists'[u][k].id == lists[u][if u == from && k == i then |lists[u]| - 1 else k].id;
    }
  }

  lemma Gained(lists: seq<seq<Entry>>, to: int, e: Entry)
    requires 0 <= to < |lists|
    ensures Moved(lists, lists[to := lists[to] + [e]], e.id, -1, to)
  {
    var lists' := lists[to := lists[to] + [e]];
    forall u, q | 0 <= u < |lists|
      ensures Times(lists'[u], q) == Times(lists[u], q) + (if u == to && q == e.id then 1 else 0)
    {
      if u == to { AddCounts(lists[to], e, q); }
    }
    forall u, k | 0 <= u < |lists| && 0 <= k < |lists'[u]|
      ensures lists'[u][k].id == e.id || exists j :: 0 <= j < |lists[u]| && lists[u][j].id == lists'[u][k].id
    {
      assert k < |lists[u]| ==> lists[u][k] == lists'[u][k];
    }
  }

  lemma MovedBoth(lists: seq<seq<Entry>>, mid: seq<seq<Entry>>, lists': seq<seq<Entry>>, p: int, from: int, to: int)
    requires Moved(lists, mid, p, from, -1) && Moved(mid, lists', p, -1, to)
    ensures Moved(lists, lists', p, from, to)
  {
    forall u, k | 0 <= u < |lists| && 0 <= k < |lists'[u]|
      ensures lists'[u][k].id == p || exists j :: 0 <= j < |lists[u]| && lists[u][j].id == lists'[u][k].id
    {
      if lists'[u][k].id != p {
        var j :| 0 <= j < |mid[u]| && mid[u][j].id == lists'[u][k].id;
      }
    }
  }

  lemma NotMoved(lists: seq<seq<Entry>>, p: int)
    ensures Moved(lists, lists, p, -1, -1)
  {
  }

  /** The entry of planet `p` is dropped from the list of `from`, if that is a player. */
  ghost predicate Released(lists: seq<seq<Entry>>, lists': seq<seq<Entry>>, p: int, from: int) {
    if !(0 <= from < |lists|) then lists' == lists
    else exists i :: 0 <= i < |lists[from]| && lists[from][i].id == p && lists' == lists[from := Removed(lists[from], i)]
  }

  /** Then an entry is appended to the list of `to`. */
  ghost predicate HandedOver(lists: seq<seq<Entry>>, lists': seq<seq<Entry>>, from: int, to: int, e: Entry) {
    exists mid :: Released(lists, mid, e.id, from) && 0 <= to < |mid| && lists' == mid[to := mid[to] + [e]]
  }

  lemma ReleasedOnly(lists: seq<seq<Entry>>, lists': seq<seq<Entry>>, p: int, from: int)
    requires Released(lists, lists', p, from) && 0 <= from < |lists|
    ensures |lists'| == |lists| && lists' == lists[from := lists'[from]]
  {
  }

  lemma ReleasedMoves(lists: seq<seq<Entry>>, lists': seq<seq<Entry>>, p: int, from: int)
    requires Released(lists, lists', p, from) && -1 <= from < |lists|
    ensures Moved(lists, lists', p, from, -1)
  {
    if from == -1 {
      NotMoved(lists, p);
    } else {
      var i :| 0 <= i < |lists[from]| && lists[from][i].id == p && lists' == lists[from := Removed(lists[from], i)];
      Lost(lists, from, i);
    }
  }

  // ---------------------------------------------------------------- exploring

  /** What a fleet finds: nothing of interest here, guards or a bomb, or planets as a gift. */
  datatype Find = Plain | Guarded | Planets(picked: seq<bool>, most: nat)

  predicate Free(owner: seq<int>, home: seq<bool>, nuked: seq<bool>, p: int) {
    0 <= p < |owner| && p < |home| && p < |nuked| && owner[p] == -1 && !home[p] && !nuked[p]
  }

  /** The entry each planet would get in a list. */
  ghost predicate Catalogue(entries: seq<Entry>, n: nat) {
    |entries| == n && forall p :: 0 <= p < n ==> entries[p].id == p
  }

  function EntriesOf(entries: seq<Entry>, given: seq<int>): (r: seq<Entry>)
    requires forall i :: 0 <= i < |given| ==> 0 <= given[i] < |entries|
    ensures |r| == |given|
  {
    seq(|given|, i requires 0 <= i < |given| => entries[given[i]])
  }

  /** These planets, and no others, have gone to player `id`, and are listed in that order. */
  ghost predicate Handout(owner: seq<int>, owner': seq<int>, list: seq<Entry>, list': seq<Entry>, id: int, given: seq<int>,
                          entries: seq<Entry>) {
    && |owner'| == |owner| == |entries|
    && (forall i :: 0 <= i < |given| ==> 0 <= given[i] < |owner|)
    && (forall p :: 0 <= p < |owner| ==> owner'[p] == if p in given then id else owner[p])
    && list' == list + EntriesOf(entries, given)
  }

  /** In the order of their numbers, none is skipped before the number is reached; a number of 0 counts as 1. */
  ghost predicate UpTo(given: seq<int>, most: nat, owner: seq<int>, home: seq<bool>, nuked: seq<bool>, picked: seq<bool>) {
    && |given| <= (if most == 0 then 1 else most)
    && (forall i, j :: 0 <= i < j < |given| ==> given[i] < given[j])
    && (forall p :: Free(owner, home, nuked, p) && p < |picked| && picked[p] && p !in given ==>
          |given| >= most && forall q :: q in given ==> q < p)
  }

  lemma NothingHanded(owner: seq<int>, list: seq<Entry>, id: int, entries: seq<Entry>)
    requires |entries| == |owner|
    ensures Handout(owner, owner, list, list, id, [], entries)
  {
    assert list + EntriesOf(entries, []) == list;
  }

  lemma HandoutMore(owner: seq<int>, owner': seq<int>, list: seq<Entry>, list': seq<Entry>, id: int, given: seq<int>,
                    entries: seq<Entry>, p: int)
    requires Handout(owner, owner', list, list', id, given, entries) && 0 <= p < |owner|
    ensures Handout(owner, owner'[p := id], list, list' + [entries[p]], id, given + [p], entries)
  {
    assert EntriesOf(entries, given + [p]) == EntriesOf(entries, given) + [entries[p]];
  }

  lemma HandoutAt(owner: seq<int>, owner': seq<int>, list: seq<Entry>, list': seq<Entry>, id: int, given: seq<int>,
                  entries: seq<Entry>, p: int)
    requires Handout(owner, owner', list, list', id, given, entries) && 0 <= p < |owner|
    ensures |owner'| == |owner| == |entries| && owner'[p] == if p in given then id else owner[p]
  {
  }

  /** Of the first `n` planets those are given that are free and picked. */
  ghost predicate GivenOf(given: seq<int>, n: nat, owner: seq<int>, home: seq<bool>, nuked: seq<bool>, picked: seq<bool>) {
    && n <= |owner| == |picked|
    && (forall p :: p in given <==> 0 <= p < n && Free(owner, home, nuked, p) && picked[p])
    && forall i, j :: 0 <= i < j < |given| ==> given[i] < given[j]
  }

  lemma GivenNext(given: seq<int>, n: nat, owner: seq<int>, home: seq<bool>, nuked: seq<bool>, picked: seq<bool>)
    requires GivenOf(given, n, owner, home, nuked, picked) && n < |owner|
    ensures n !in given
    ensures GivenOf(if Free(owner, home, nuked, n) && picked[n] then given + [n] else given, n + 1, owner, home, nuked, picked)
  {
    assert forall i :: 0 <= i < |given| ==> given[i] in given;
  }

  lemma NothingGiven(owner: seq<int>, home: seq<bool>, nuked: seq<bool>, picked: seq<bool>)
    requires |owner| == |picked|
    ensures GivenOf([], 0, owner, home, nuked, picked)
  {
  }

  /** The walk has come to the end, or it has given away enough. */
  lemma EnoughGiven(given: seq<int>, most: nat, owner: seq<int>, home: seq<bool>, nuked: seq<bool>, picked: seq<bool>, n: nat)
    requires GivenOf(given, n, owner, home, nuked, picked) && |given| <= (if most == 0 then 1 else most)
    requires n == |owner| || |given| >= most
    ensures UpTo(given, most, owner, home, nuked, picked)
    ensures forall p :: p in given ==>
              0 <= p < |owner| && p < |home| && p < |nuked| && owner[p] == -1 && !home[p] && !nuked[p] && picked[p]
  {
  }

  lemma HandoutOwner(owner: seq<int>, owner': seq<int>, list: seq<Entry>, list': seq<Entry>, id: int, given: seq<int>,
                     entries: seq<Entry>, p: int)
    requires Handout(owner, owner', list, list', id, given, entries) && 0 <= p < |owner| && owner[p] == -1 && id >= 0
    ensures owner'[p] == -1 <==> p !in given
  {
  }

  class PlanetStore {
    var owner: seq<int>
    var surrender: seq<int>
    var home: seq<bool>
    var lists: seq<seq<Entry>>

    ghost predicate Valid()
      reads this
    {
      |surrender| == |home| == |owner| && Agrees(owner, lists)
    }

    /** A new map: nobody owns anything yet. */
    constructor (homes: seq<bool>, players: nat)
      ensures Valid() && home == homes && |lists| == players && (forall p :: 0 <= p < |owner| ==> owner[p] == -1)
      ensures forall u :: 0 <= u < players ==> lists[u] == []
    {
      home, owner, surrender := homes, seq(|homes|, _ => -1), seq(|homes|, _ => -1);
      lists := seq(players, _ => []);
    }

    /** dbUserPlanetAdd */
    method PlanetAdd(id: int, e: Entry) returns (pos: int)
      modifies `lists
      ensures 0 <= id < |old(lists)| ==> pos == |old(lists)[id]| + 1 && lists == old(lists)[id := old(lists)[id] + [e]]
      ensures !(0 <= id < |old(lists)|) ==> pos == -3 && lists == old(lists)
    {
      if id < 0 || id >= |lists| { return -3; }
      lists := lists[id := lists[id] + [e]];
      pos := |lists[id]|;
    }

    /** dbUserPlanetRemove: the last entry takes the place of the removed one. */
    method PlanetRemove(id: int, plnid: int) returns (code: int)
      modifies `lists
      ensures 0 <= id < |old(lists)| && Times(old(lists)[id], plnid) > 0 ==>
                code == 1 && exists i :: 0 <= i < |old(lists)[id]| && old(lists)[id][i].id == plnid
                                        && lists == old(lists)[id := Removed(old(lists)[id], i)]
      ensures !(0 <= id < |old(lists)| && Times(old(lists)[id], plnid) > 0) ==> code == -3 && lists == old(lists)
    {
      if id < 0 || id >= |lists| { return -3; }
      var list := lists[id];
      var a, num := 0, |list|;
      while a < num
        invariant 0 <= a <= num == |list| && lists == old(lists) && list == lists[id]
        invariant forall k :: 0 <= k < a ==> list[k].id != plnid
      {
        if list[a].id == plnid {
          ghost var was := list;
          assert plnid in Ids(list) by { assert Ids(list)[a] == plnid; }
          if num >= 2 && a + 1 < num { list := list[a := list[num-1]]; }
          lists := lists[id := list[..num-1]];
          assert list[..num-1] == Removed(was, a);
          return 1;
        }
        a := a + 1;
      }
      assert plnid !in Ids(list);
      return -3;
    }

    /** The old owner's entry goes, if there was an owner. */
    method Release(from: int, plnid: int)
      requires Valid() && 0 <= plnid < |owner| && from == owner[plnid]
      modifies `lists
      ensures Released(old(lists), lists, plnid, from) && Moved(old(lists), lists, plnid, from, -1)
    {
      hide Moved;
      assert -1 <= from < |lists|;
      assert from >= 0 ==> Times(lists[from], plnid) == 1;
      var code := PlanetRemove(from, plnid);
      ReleasedMoves(old(lists), lists, plnid, from);
    }

    /** The find that hands out planets: every planet that is free and picked, up to a number. */
    method GiveMany(id: int, picked: seq<bool>, nuked: seq<bool>, most: nat, entries: seq<Entry>) returns (ghost given: seq<int>)
      requires Valid() && 0 <= id < |lists| && |picked| == |nuked| == |owner| && Catalogue(entries, |owner|)
      modifies `owner, `lists
      ensures Valid() && |lists| == |old(lists)|
      ensures Handout(old(owner), owner, old(lists)[id], lists[id], id, given, entries)
      ensures lists == old(lists)[id := lists[id]]
      ensures forall p :: p in given ==>
                0 <= p < |owner| == |old(owner)| && old(owner)[p] == -1 && !home[p] && !nuked[p] && picked[p]
      ensures UpTo(given, most, old(owner), home, nuked, picked)
    {
      hide Agrees, Moved, Handout, UpTo, EntriesOf, GivenOf;
      given := [];
      var i, a := 0, 0;
      ghost var seen := 0;
      NothingHanded(owner, lists[id], id, entries);
      NothingGiven(owner, home, nuked, picked);
      while a < |owner|
        invariant 0 <= a == seen <= |owner| == |old(owner)| && Valid() && |lists| == |old(lists)|
        invariant i == |given| && (i < most || i == 0)
        invariant Handout(old(owner), owner, old(lists)[id], lists[id], id, given, entries)
        invariant lists == old(lists)[id := lists[id]]
        invariant GivenOf(given, seen, old(owner), home, nuked, picked)
      {
        HandoutAt(old(owner), owner, old(lists)[id], lists[id], id, given, entries, a);
        GivenNext(given, a, old(owner), home, nuked, picked);
        seen := a + 1;
        if !home[a] && owner[a] == -1 && !nuked[a] {
          if picked[a] {
            Gained(lists, id, entries[a]);
            MoveKeepsAgreement(owner, lists, lists[id := lists[id] + [entries[a]]], a, id);
            HandoutMore(old(owner), owner, old(lists)[id], lists[id], id, given, entries, a);
            var pos := PlanetAdd(id, entries[a]);
            owner := owner[a := id];
            given := given + [a];
            i := i + 1;
          }
          if i >= most { break; }
        }
        a := a + 1;
      }
      EnoughGiven(given, most, old(owner), home, nuked, picked, seen);
    }

    /** The exploration of a planet by a fleet. A guarded planet is not settled; whatever planets an old civilisation
        hands out, the explored one is settled without another look at who owns it. */
    method Explore(id: int, dest: int, nuked: seq<bool>, find: Find, entries: seq<Entry>)
      returns (settled: bool, ghost given: seq<int>)
      requires Valid() && 0 <= dest < |owner| && 0 <= id < |lists| && |nuked| == |owner| && Catalogue(entries, |owner|)
      requires find.Planets? ==> |find.picked| == |owner|
      modifies `owner, `lists
      ensures |lists| == |old(lists)| && settled == (old(owner)[dest] == -1 && !home[dest] && !nuked[dest] && !find.Guarded?)
      ensures !settled ==> Valid() && owner == old(owner) && lists == old(lists) && given == []
      ensures forall p :: p in given ==>
                && find.Planets? && 0 <= p < |owner| == |old(owner)|
                && old(owner)[p] == -1 && !home[p] && !nuked[p] && find.picked[p]
      ensures settled && find.Planets? ==> UpTo(given, find.most, old(owner), home, nuked, find.picked)
      ensures settled ==>
                && (Valid() <==> dest !in given)
                && Handout(old(owner), owner, old(lists)[id], lists[id], id, given + [dest], entries)
                && lists == old(lists)[id := lists[id]]
    {
      hide Agrees, Moved, Released;
      given := [];
      if owner[dest] != -1 || home[dest] || nuked[dest] { return false, []; }
      if find.Guarded? { return false, []; }
      NothingHanded(owner, lists[id], id, entries);
      if find.Planets? { given := GiveMany(id, find.picked, nuked, find.most, entries); }
      HandoutOwner(old(owner), owner, old(lists)[id], lists[id], id, given, entries, dest);
      SettlingAgreesIff(owner, lists, id, entries[dest]);
      HandoutMore(old(owner), owner, old(lists)[id], lists[id], id, given, entries, dest);
      var pos := PlanetAdd(id, entries[dest]);
      owner := owner[dest := id];
      settled := true;
    }

    /** The planet's part of a won battle; a captured home planet is left without an owner. */
    method Capture(id: int, plnid: int, e: Entry)
      requires Valid() && 0 <= plnid < |owner| && 0 <= id < |lists| && e.id == plnid && owner[plnid] != -1
      modifies `owner, `lists
      ensures Valid() && owner == old(owner)[plnid := if home[plnid] then -1 else id]
      ensures if home[plnid] then Released(old(lists), lists, plnid, old(owner)[plnid])
              else HandedOver(old(lists), lists, old(owner)[plnid], id, e)
    {
      hide Agrees, Moved, Released;
      ghost var lists0, from := lists, owner[plnid];
      Release(owner[plnid], plnid);
      ghost var mid := lists;
      if home[plnid] {
        MoveKeepsAgreement(owner, lists0, lists, plnid, -1);
        owner := owner[plnid := -1];
        return;
      }
      Handed(owner, lists0, mid, id, e, from);
      owner := owner[plnid := id];
      var pos := PlanetAdd(id, e);
    }

    /** cmdExecOfferPlanet: says who may take the planet; it asks neither who offers nor who owns it. */
    method OfferPlanet(id: int, destid: int, plnid: int) returns (code: int)
      requires Valid()
      modifies `surrender
      ensures Valid() && (code == 1 <==> 0 <= plnid < |owner| && !home[plnid] && id != destid)
      ensures code == 1 ==> 0 <= plnid < |owner| && surrender == old(surrender)[plnid := destid]
      ensures code != 1 ==> code == -3 && surrender == old(surrender)
    {
      if plnid < 0 || plnid >= |owner| { return -3; }
      if home[plnid] { return -3; }
      if id == destid { return -3; }
      surrender := surrender[plnid := destid];
      code := 1;
    }

    /** cmdExecTakePlanet: a planet offered to a member of the same empire changes hands. */
    method TakePlanet(id: int, plnid: int, sameEmpire: bool, tired: bool, e: Entry) returns (code: int)
      requires Valid() && 0 <= id < |lists| && e.id == plnid
      modifies `owner, `lists, `surrender
      ensures Valid()
      ensures code == 1 <==>
                && 0 <= plnid < |old(owner)| && !home[plnid] && old(owner)[plnid] != id && old(surrender)[plnid] == id
                && old(owner)[plnid] != -1 && sameEmpire && !tired
      ensures code == 1 ==>
                && 0 <= plnid < |old(owner)| && owner == old(owner)[plnid := id] && surrender == old(surrender)[plnid := -1]
                && HandedOver(old(lists), lists, old(owner)[plnid], id, e)
      ensures code != 1 ==> code < 0 && owner == old(owner) && lists == old(lists) && surrender == old(surrender)
    {
      hide Agrees, Moved, Released;
      if plnid < 0 || plnid >= |owner| { return -3; }
      if home[plnid] { return -3; }
      if owner[plnid] == id { return -3; }
      if surrender[plnid] != id { return -3; }
      if owner[plnid] == -1 { return -3; }
      if !sameEmpire { return -1; }
      if tired { return -3; }
      ghost var lists0, from := lists, owner[plnid];
      Release(owner[plnid], plnid);
      Handed(owner, lists0, lists, id, e, from);
      owner := owner[plnid := id];
      surrender := surrender[plnid := -1];
      var pos := PlanetAdd(id, e);
      code := 1;
    }

    /** The planet is left to nobody. */
    method Vacate(plnid: int)
      requires Valid() && 0 <= plnid < |owner|
      modifies `owner, `lists
      ensures Valid() && owner == old(owner)[plnid := -1] && Released(old(lists), lists, plnid, old(owner)[plnid])
    {
      hide Agrees, Moved, Released;
      ghost var lists0 := lists;
      Release(owner[plnid], plnid);
      MoveKeepsAgreement(owner, lists0, lists, plnid, -1);
      owner := owner[plnid := -1];
    }

    /** The nuke operation: home planets resist, the rules may bar it, and it may fail. */
    method Nuke(plnid: int, barred: bool, success: bool)
      requires Valid() && 0 <= plnid < |owner|
      modifies `owner, `lists
      ensures Valid()
      ensures if home[plnid] || barred || !success then owner == old(owner) && lists == old(lists)
              else owner == old(owner)[plnid := -1] && Released(old(lists), lists, plnid, old(owner)[plnid])
    {
      if home[plnid] || barred { return; }
      if success { Vacate(plnid); }
    }

    /** Mind control hands the planet over if it succeeds; a home planet resists. */
    method MindControl(id: int, plnid: int, success: bool, e: Entry)
      requires Valid() && 0 <= plnid < |owner| && 0 <= id < |lists| && e.id == plnid
      modifies `owner, `lists
      ensures Valid()
      ensures if home[plnid] || !success then owner == old(owner) && lists == old(lists)
              else owner == old(owner)[plnid := id] && HandedOver(old(lists), lists, old(owner)[plnid], id, e)
    {
      hide Agrees, Moved, Released;
      if home[plnid] || !success { return; }
      ghost var lists0, from := lists, owner[plnid];
      Release(owner[plnid], plnid);
      Handed(owner, lists0, lists, id, e, from);
      owner := owner[plnid := id];
      var pos := PlanetAdd(id, e);
    }

    /** The planets of a player who leaves: each is taken off the list and left to nobody. */
    method Deactivate(id: int)
      requires Valid() && 0 <= id < |lists|
      modifies `owner, `lists
      ensures Valid() && |owner| == |old(owner)|
      ensures forall p :: 0 <= p < |owner| ==> owner[p] == if old(owner)[p] == id then -1 else old(owner)[p]
      ensures 0 <= id < |lists| && lists == old(lists)[id := []]
    {
      hide Agrees, Moved, Released;
      var buffer := Ids(lists[id]);
      ghost var owner0, lists0 := owner, lists;
      AllListed(owner0, lists0, id);
      var a := 0;
      while a < |buffer|
        invariant 0 <= a <= |buffer| && Valid() && |owner| == |owner0| && |lists| == |lists0| && lists == lists0[id := lists[id]]
        invariant forall p :: 0 <= p < |owner| ==> owner[p] == if owner0[p] == id && p in buffer[..a] then -1 else owner0[p]
      {
        var plnid := buffer[a];
        ghost var mid := lists;
        NotYet(buffer, a);
        assert owner[plnid] == id;
        Release(id, plnid);
        ReleasedOnly(mid, lists, plnid, id);
        MoveKeepsAgreement(owner, mid, lists, plnid, -1);
        if owner[plnid] == id { owner := owner[plnid := -1]; }
        assert buffer[..a+1] == buffer[..a] + [plnid];
        a := a + 1;
      }
      assert buffer[..a] == buffer;
      NoneListed(owner, lists, id);
    }
  }

  lemma AgreesAt(owner: seq<int>, lists: seq<seq<Entry>>, u: int, p: int)
    requires 0 <= u < |lists| && 0 <= p < |owner|
    ensures Agrees(owner, lists) ==> Times(lists[u], p) == if owner[p] == u then 1 else 0
  {
  }

  /** Listing a planet for a player and writing the player into the map, as exploring does, is right exactly
      when the planet had no owner; the reward that hands out unowned planets nearby may already have
      given away the planet being explored. */
  lemma SettlingAgreesIff(owner: seq<int>, lists: seq<seq<Entry>>, to: int, e: Entry)
    requires Agrees(owner, lists) && 0 <= to < |lists| && 0 <= e.id < |owner|
    ensures Agrees(owner[e.id := to], lists[to := lists[to] + [e]]) <==> owner[e.id] == -1
  {
    var was, lists' := owner[e.id], lists[to := lists[to] + [e]];
    Gained(lists, to, e);
    if was == -1 {
      MoveKeepsAgreement(owner, lists, lists', e.id, to);
    } else {
      assert Times(lists[was], e.id) == 1;
      assert Times(lists'[was], e.id) == if was == to then 2 else 1;
      AgreesAt(owner[e.id := to], lists', was, e.id);
    }
  }

  /** On a map of one planet the find hands out the planet that is being explored, and it is listed twice. */
  method OwnPlanetSettled(e: Entry) returns (store: PlanetStore)
    requires e.id == 0
    ensures fresh(store) && store.owner == [0] && store.lists == [[e, e]] && !store.Valid()
  {
    hide Agrees, Moved, Handout, UpTo, EntriesOf;
    store := new PlanetStore([false], 1);
    assert store.lists == [[]] && store.owner == [-1];
    var settled, given := store.Explore(0, 0, [false], Planets([true], 1), [e]);
    TakesThatOne(given, store.owner, store.lists[0], e);
    assert 0 in given;
  }

  lemma TakesThatOne(given: seq<int>, owner: seq<int>, list: seq<Entry>, e: Entry)
    requires Handout([-1], owner, [], list, 0, given + [0], [e]) && UpTo(given, 1, [-1], [false], [false], [true])
    requires forall p :: p in given ==> p == 0
    ensures given == [0] && owner == [0] && list == [e, e]
  {
    hide EntriesOf;
    assert Free([-1], [false], [false], 0) && (given != [] ==> given[0] in given);
    assert given + [0] == [0, 0];
    TwoEntries(e);
  }

  lemma TwoEntries(e: Entry)
    ensures EntriesOf([e], [0, 0]) == [e, e]
  {
  }

  /** A planet goes from one list to another. */
  lemma Handed(owner: seq<int>, lists: seq<seq<Entry>>, mid: seq<seq<Entry>>, to: int, e: Entry, from: int)
    requires Agrees(owner, lists) && 0 <= e.id < |owner| && 0 <= to < |lists| && from == owner[e.id]
    requires Moved(lists, mid, e.id, from, -1)
    ensures |mid| == |lists| && Agrees(owner[e.id := to], mid[to := mid[to] + [e]])
  {
    hide Agrees;
    Gained(mid, to, e);
    MovedBoth(lists, mid, mid[to := mid[to] + [e]], e.id, from, to);
    MoveKeepsAgreement(owner, lists, mid[to := mid[to] + [e]], e.id, to);
  }

  lemma AllListed(owner: seq<int>, lists: seq<seq<Entry>>, id: int)
    requires Agrees(owner, lists) && 0 <= id < |lists|
    ensures var b := Ids(lists[id]);
            && (forall i :: 0 <= i < |b| ==> 0 <= b[i] < |owner| && owner[b[i]] == id)
            && (forall p :: 0 <= p < |owner| && owner[p] == id ==> p in b)
            && (forall i, j :: 0 <= i < j < |b| ==> b[i] != b[j])
  {
    var b := Ids(lists[id]);
    forall i | 0 <= i < |b| ensures 0 <= b[i] < |owner| && owner[b[i]] == id {
      assert 0 <= lists[id][i].id < |owner|;
      assert b[i] in b;
      assert Times(lists[id], b[i]) > 0;
    }
    forall p | 0 <= p < |owner| && owner[p] == id ensures p in b { assert Times(lists[id], p) == 1; }
    if |owner| > 0 { AgreesIff(owner, lists, id, 0); }
  }

  lemma NotYet(b: seq<int>, a: nat)
    requires a < |b| && forall i, j :: 0 <= i < j < |b| ==> b[i] != b[j]
    ensures b[a] !in b[..a]
  {
  }

  lemma NoneListed(owner: seq<int>, lists: seq<seq<Entry>>, id: int)
    requires Agrees(owner, lists) && 0 <= id < |lists|
    ensures (forall p :: 0 <= p < |owner| ==> owner[p] != id) ==> lists[id] == []
  {
    AllListed(owner, lists, id);
    var b := Ids(lists[id]);
    assert |b| > 0 ==> 0 <= b[0] < |owner| && owner[b[0]] == id;
  }
}
