/** The relation lists of the empires, and the two commands that keep pacts in them. */
module NapDb {
  import opened Nap
  import opened SwapLast

  const NAP := 1
  const WAR := 2

  /** So long an alliance or a war lasts at least. */
  const WEEKS := 26

  datatype Rel = Rel(since: int, kind: int, other: int, flag: int, state: int, timer: int)

  // ---------------------------------------------------------------- the pact in the lists

  predicate IsPact(r: Rel, other: int) { r.kind == NAP && r.other == other }

  /** An empire's pact records about another one. */
  function About(list: seq<Rel>, other: int): (r: seq<Rel>)
    ensures |r| <= |list|
  {
    if list == [] then []
    else (if IsPact(list[0], other) then [list[0]] else []) + About(list[1..], other)
  }

  /** Two empires have no pact records about each other, or one each; whatever else there is between them. */
  ghost predicate Sole(rels: seq<seq<Rel>>, f: int, g: int) {
    && 0 <= f < |rels| && 0 <= g < |rels| && f != g
    && var a, b := About(rels[f], g), About(rels[g], f);
       || (a == [] && b == [])
       || (|a| == |b| == 1 && 0 <= a[0].state < 10 && 0 <= b[0].state < 10)
  }

  ghost function HalfOf(r: Rel): Half
    requires 0 <= r.state
  {
    Half(r.state, r.timer, r.since)
  }

  ghost function PactOf(rels: seq<seq<Rel>>, f: int, g: int): (p: Pact)
    requires Sole(rels, f, g)
    ensures Proper(p)
  {
    if About(rels[f], g) == [] then NoPact else Pact(HalfOf(About(rels[f], g)[0]), HalfOf(About(rels[g], f)[0]))
  }

  /** Which of the two empires made the first offer is noted in the records and stays. */
  ghost predicate FlagsKept(old_: seq<seq<Rel>>, new_: seq<seq<Rel>>, f: int, g: int)
    requires Sole(old_, f, g) && Sole(new_, f, g)
  {
    var a, b := About(new_[f], g), About(new_[g], f);
    a != [] ==> if About(old_[f], g) == [] then a[0].flag == 0 && b[0].flag == 1
                else a[0].flag == About(old_[f], g)[0].flag && b[0].flag == About(old_[g], f)[0].flag
  }

  /** A record of the pact between `f` and `g`, when it is in the list of `x`. */
  predicate OfPair(r: Rel, x: int, f: int, g: int) {
    (x == f && IsPact(r, g)) || (x == g && IsPact(r, f))
  }

  /** No other record has changed, come or gone; it may have moved within its list. */
  ghost predicate OthersKept(old_: seq<seq<Rel>>, new_: seq<seq<Rel>>, f: int, g: int) {
    && |new_| == |old_|
    && (forall x, r :: 0 <= x < |old_| && !OfPair(r, x, f, g) ==> multiset(new_[x])[r] == multiset(old_[x])[r])
    && (forall x :: 0 <= x < |old_| && x != f && x != g ==> new_[x] == old_[x])
  }

  lemma {:induction false} AboutCount(list: seq<Rel>, other: int)
    ensures forall r :: multiset(About(list, other))[r] == if IsPact(r, other) then multiset(list)[r] else 0
  {
    if list != [] {
      AboutCount(list[1..], other);
      assert list == [list[0]] + list[1..];
    }
  }

  lemma {:induction false} AboutConcat(a: seq<Rel>, b: seq<Rel>, other: int)
    ensures About(a + b, other) == About(a, other) + About(b, other)
  {
    hide About;
    AboutStep(a, other);
    if a == [] {
      assert a + b == b && [] + About(b, other) == About(b, other);
    } else {
      var x := if IsPact(a[0], other) then [a[0]] else [];
      assert (a + b)[1..] == a[1..] + b;
      AboutStep(a + b, other);
      AboutConcat(a[1..], b, other);
      assert x + (About(a[1..], other) + About(b, other)) == x + About(a[1..], other) + About(b, other);
    }
  }

  lemma AboutStep(list: seq<Rel>, other: int)
    ensures list == [] ==> About(list, other) == []
    ensures list != [] ==> About(list, other) == (if IsPact(list[0], other) then [list[0]] else []) + About(list[1..], other)
  {
  }

  /** The only pact record about an empire. */
  lemma AboutOnly(list: seq<Rel>, other: int, i: nat)
    requires i < |list| && IsPact(list[i], other) && |About(list, other)| <= 1
    ensures About(list, other) == [list[i]]
    ensures About(list[..i], other) == [] && About(list[i+1..], other) == []
  {
    assert list == list[..i] + ([list[i]] + list[i+1..]);
    AboutConcat(list[..i], [list[i]] + list[i+1..], other);
    AboutConcat([list[i]], list[i+1..], other);
    assert About([list[i]], other) == [list[i]];
  }

  lemma AboutReplaced(list: seq<Rel>, i: nat, r: Rel, other: int)
    requires i < |list| && IsPact(r, other) && IsPact(list[i], other) && |About(list, other)| <= 1
    ensures About(list[i := r], other) == [r]
  {
    var a, b := list[..i], list[i+1..];
    assert list[i := r] == a + ([r] + b);
    AboutConcat(a, [r] + b, other);
    AboutConcat([r], b, other);
    AboutOnly(list, other, i);
  }

  lemma AboutAdded(list: seq<Rel>, r: Rel, other: int)
    requires IsPact(r, other)
    ensures About(list + [r], other) == About(list, other) + [r]
  {
    AboutConcat(list, [r], other);
  }

  lemma AboutRemoved(list: seq<Rel>, i: nat, other: int)
    requires i < |list| && IsPact(list[i], other) && |About(list, other)| <= 1
    ensures About(Removed(list, i), other) == []
  {
    hide Removed, About;
    AboutCount(list, other);
    AboutCount(Removed(list, i), other);
    RemovedCount(list, i);
    var b := About(Removed(list, i), other);
    assert b != [] ==> multiset(b)[b[0]] > 0;
    AboutOnly(list, other, i);
    assert forall r :: multiset(b)[r] == 0;
  }

  lemma {:induction false} AboutIn(list: seq<Rel>, other: int)
    ensures forall r :: r in About(list, other) <==> r in list && IsPact(r, other)
  {
    if list != [] {
      AboutIn(list[1..], other);
      assert forall r :: r in list <==> r == list[0] || r in list[1..];
    }
  }

  // ---------------------------------------------------------------- changing a pact

  lemma NothingFound(rels: seq<seq<Rel>>, f: int, g: int)
    requires Sole(rels, f, g) && forall k :: 0 <= k < |rels[f]| ==> !IsPact(rels[f][k], g)
    ensures About(rels[f], g) == [] && About(rels[g], f) == []
  {
    hide About;
    var a := About(rels[f], g);
    assert a != [] ==> a[0] in a;
    AboutIn(rels[f], g);
  }

  lemma BothFound(rels: seq<seq<Rel>>, f: int, g: int, i: nat, j: nat)
    requires Sole(rels, f, g) && i < |rels[f]| && j < |rels[g]| && IsPact(rels[f][i], g) && IsPact(rels[g][j], f)
    ensures About(rels[f], g) == [rels[f][i]] && About(rels[g], f) == [rels[g][j]]
    ensures 0 <= rels[f][i].state < 10 && 0 <= rels[g][j].state < 10
    ensures PactOf(rels, f, g) == Pact(HalfOf(rels[f][i]), HalfOf(rels[g][j]))
  {
    AboutOnly(rels[f], g, i);
    AboutOnly(rels[g], f, j);
  }

  lemma PactReplaced(rels: seq<seq<Rel>>, f: int, g: int, i: nat, j: nat, r: Rel, t: Rel)
    requires Sole(rels, f, g) && i < |rels[f]| && j < |rels[g]| && IsPact(rels[f][i], g) && IsPact(rels[g][j], f)
    requires IsPact(r, g) && IsPact(t, f) && 0 <= r.state < 10 && 0 <= t.state < 10
    ensures var n := rels[g := rels[g][j := t]][f := rels[f][i := r]];
            && Sole(n, f, g) && PactOf(n, f, g) == Pact(HalfOf(r), HalfOf(t)) && OthersKept(rels, n, f, g)
            && (r.flag == rels[f][i].flag && t.flag == rels[g][j].flag ==> FlagsKept(rels, n, f, g))
  {
    hide About, IsPact, OthersKept;
    BothFound(rels, f, g, i, j);
    AboutReplaced(rels[f], i, r, g);
    AboutReplaced(rels[g], j, t, f);
    OthersReplaced(rels, f, g, i, j, r, t);
  }

  lemma OthersReplaced(rels: seq<seq<Rel>>, f: int, g: int, i: nat, j: nat, r: Rel, t: Rel)
    requires 0 <= f < |rels| && 0 <= g < |rels| && f != g && i < |rels[f]| && j < |rels[g]|
    requires IsPact(rels[f][i], g) && IsPact(rels[g][j], f) && IsPact(r, g) && IsPact(t, f)
    ensures OthersKept(rels, rels[g := rels[g][j := t]][f := rels[f][i := r]], f, g)
  {
    hide IsPact;
    ReplacedCount(rels[f], i, r);
    ReplacedCount(rels[g], j, t);
  }

  lemma ReplacedCount(list: seq<Rel>, i: nat, r: Rel)
    requires i < |list|
    ensures multiset(list[i := r]) == multiset(list) - multiset{list[i]} + multiset{r}
  {
    assert list == list[..i] + [list[i]] + list[i+1..] && list[i := r] == list[..i] + [r] + list[i+1..];
  }

  lemma PactAdded(rels: seq<seq<Rel>>, f: int, g: int, r: Rel, t: Rel)
    requires Sole(rels, f, g) && About(rels[f], g) == [] && About(rels[g], f) == []
    requires IsPact(r, g) && IsPact(t, f) && 0 <= r.state < 10 && 0 <= t.state < 10
    ensures var n := rels[g := rels[g] + [t]][f := rels[f] + [r]];
            && Sole(n, f, g) && PactOf(n, f, g) == Pact(HalfOf(r), HalfOf(t)) && OthersKept(rels, n, f, g)
            && (r.flag == 0 && t.flag == 1 ==> FlagsKept(rels, n, f, g))
  {
    hide About, IsPact;
    AboutAdded(rels[f], r, g);
    AboutAdded(rels[g], t, f);
    assert multiset(rels[f] + [r]) == multiset(rels[f]) + multiset{r};
    assert multiset(rels[g] + [t]) == multiset(rels[g]) + multiset{t};
  }

  lemma PactRemoved(rels: seq<seq<Rel>>, f: int, g: int, i: nat, j: nat)
    requires Sole(rels, f, g) && i < |rels[f]| && j < |rels[g]| && IsPact(rels[f][i], g) && IsPact(rels[g][j], f)
    ensures var n := rels[g := Removed(rels[g], j)][f := Removed(rels[f], i)];
            Sole(n, f, g) && PactOf(n, f, g) == NoPact && OthersKept(rels, n, f, g) && FlagsKept(rels, n, f, g)
  {
    hide About, Removed, IsPact;
    BothFound(rels, f, g, i, j);
    AboutRemoved(rels[f], i, g);
    AboutRemoved(rels[g], j, f);
    RemovedCount(rels[f], i);
    RemovedCount(rels[g], j);
  }

  // ---------------------------------------------------------------- the record a cancellation takes for the other's

  /** The first record about an empire, of whatever kind. */
  function First(list: seq<Rel>, other: int): (i: nat)
    ensures i <= |list|
    ensures i < |list| ==> list[i].other == other
    ensures forall k :: 0 <= k < i ==> list[k].other != other
  {
    if list == [] || list[0].other == other then 0 else 1 + First(list[1..], other)
  }

  /** In the list of `g` the pact with `f` comes before any other record about `f`. */
  ghost predicate PactFirst(rels: seq<seq<Rel>>, f: int, g: int)
    requires 0 <= g < |rels|
  {
    First(rels[g], f) < |rels[g]| && rels[g][First(rels[g], f)].kind == NAP
  }

  /** Alliances and wars are recorded with state 0. */
  ghost predicate Stateless(rels: seq<seq<Rel>>) {
    forall x, i :: 0 <= x < |rels| && 0 <= i < |rels[x]| && rels[x][i].kind != NAP ==> rels[x][i].state == 0
  }

  lemma StatelessKept(rels: seq<seq<Rel>>, rels': seq<seq<Rel>>, f: int, g: int)
    requires Stateless(rels) && OthersKept(rels, rels', f, g)
    ensures Stateless(rels')
  {
    forall x, i | 0 <= x < |rels'| && 0 <= i < |rels'[x]| && rels'[x][i].kind != NAP ensures rels'[x][i].state == 0 {
      var r := rels'[x][i];
      assert r in rels'[x] && multiset(rels'[x])[r] > 0;
      assert !OfPair(r, x, f, g);
      assert r in multiset(rels[x]) && r in rels[x];
    }
  }

  lemma StatelessLess(rels: seq<seq<Rel>>, f: int, i: nat, g: int, j: nat)
    requires Stateless(rels) && 0 <= f < |rels| && 0 <= g < |rels| && i < |rels[f]| && j < |rels[g]|
    ensures Stateless(rels[g := Removed(rels[g], j)][f := Removed(rels[f], i)])
  {
    var n := rels[g := Removed(rels[g], j)][f := Removed(rels[f], i)];
    forall x, k | 0 <= x < |n| && 0 <= k < |n[x]| ensures exists l :: 0 <= l < |rels[x]| && n[x][k] == rels[x][l] {
      var l := if (x == f && k == i) || (x == g && x != f && k == j) then |rels[x]| - 1 else k;
      assert n[x][k] == rels[x][l];
    }
  }

  /** Apart from pact records about `g` the list of `f` has the records it had, and no third list has changed. */
  ghost predicate Beside(rels: seq<seq<Rel>>, rels': seq<seq<Rel>>, f: int, g: int) {
    && 0 <= f < |rels| == |rels'|
    && (forall r :: !IsPact(r, g) ==> multiset(rels'[f])[r] == multiset(rels[f])[r])
    && (forall x :: 0 <= x < |rels| && x != f && x != g ==> rels'[x] == rels[x])
  }

  lemma OthersBeside(rels: seq<seq<Rel>>, rels': seq<seq<Rel>>, f: int, g: int)
    requires 0 <= f < |rels| && f != g && OthersKept(rels, rels', f, g)
    ensures Beside(rels, rels', f, g)
  {
    assert forall r :: !IsPact(r, g) ==> !OfPair(r, f, f, g);
  }

  lemma RemovedBeside(rels: seq<seq<Rel>>, f: int, i: nat, g: int, j: nat)
    requires 0 <= f < |rels| && 0 <= g < |rels| && f != g && i < |rels[f]| && j < |rels[g]| && IsPact(rels[f][i], g)
    ensures Beside(rels, rels[g := Removed(rels[g], j)][f := Removed(rels[f], i)], f, g)
  {
    RemovedCount(rels[f], i);
  }

  /** The wrong record goes instead of the other half of the pact. */
  lemma HalfAPact(rels: seq<seq<Rel>>, f: int, g: int, i: nat, j: nat)
    requires Sole(rels, f, g) && i < |rels[f]| && j < |rels[g]| && IsPact(rels[f][i], g)
    requires rels[g][j].other == f && rels[g][j].kind != NAP
    ensures var n := rels[g := Removed(rels[g], j)][f := Removed(rels[f], i)];
            !Sole(n, f, g) && !OthersKept(rels, n, f, g)
  {
    hide Removed, About;
    var n := rels[g := Removed(rels[g], j)][f := Removed(rels[f], i)];
    AboutOnly(rels[f], g, i);
    AboutRemoved(rels[f], i, g);
    HalfStays(rels[g], j, f);
    var w := rels[g][j];
    OneLess(rels[g], j);
    assert n[g] == Removed(rels[g], j) && !OfPair(w, g, f, g);
    assert multiset(n[g])[w] != multiset(rels[g])[w];
  }

  lemma OneLess(list: seq<Rel>, j: nat)
    requires j < |list|
    ensures multiset(Removed(list, j))[list[j]] == multiset(list)[list[j]] - 1
  {
    RemovedCount(list, j);
    assert list[j] in list;
  }

  lemma HalfStays(list: seq<Rel>, j: nat, other: int)
    requires j < |list| && list[j].kind != NAP && About(list, other) != []
    ensures About(Removed(list, j), other) != []
  {
    hide Removed;
    RemovedCount(list, j);
    AboutCount(list, other);
    AboutCount(Removed(list, j), other);
    var b := About(list, other);
    assert b[0] in b && multiset(b)[b[0]] > 0;
    assert multiset(About(Removed(list, j), other))[b[0]] > 0;
  }

  /** A war, and a pact made while it lasts: cancelling the pact takes the war for the other half of it. */
  lemma WarBeforePact(now: int)
    ensures var rels := [[Rel(now, WAR, 1, 0, 0, 0), Rel(now, NAP, 1, 0, 3, 0)], [Rel(now, WAR, 0, 1, 0, 0), Rel(now, NAP, 0, 1, 3, 0)]];
            Sole(rels, 0, 1) && Stateless(rels) && !PactFirst(rels, 0, 1)
  {
    var a, b := [Rel(now, WAR, 1, 0, 0, 0), Rel(now, NAP, 1, 0, 3, 0)], [Rel(now, WAR, 0, 1, 0, 0), Rel(now, NAP, 0, 1, 3, 0)];
    assert a[1..] == [a[1]] && b[1..] == [b[1]];
    assert About([a[1]], 1) == [a[1]] && About([b[1]], 0) == [b[1]];
    assert About(a, 1) == [] + [a[1]] && About(b, 0) == [] + [b[1]];
    assert First(b, 0) == 0;
  }

  // ---------------------------------------------------------------- alliances and wars

  /** The half of an alliance or a war that the other empire holds. */
  predicate IsAnswer(r: Rel, kind: int, other: int) { r.kind == kind && r.other == other && r.flag % 2 == 1 }

  function FirstAnswer(list: seq<Rel>, kind: int, other: int): (i: nat)
    ensures i <= |list|
    ensures i < |list| ==> IsAnswer(list[i], kind, other)
    ensures forall k :: 0 <= k < i ==> !IsAnswer(list[k], kind, other)
  {
    if list == [] || IsAnswer(list[0], kind, other) then 0 else 1 + FirstAnswer(list[1..], kind, other)
  }

  /** Only the empire that began it can end it, and not too soon. */
  predicate Revocable(r: Rel, now: int) { r.since + WEEKS <= now && r.flag % 2 == 0 }

  /** The other empire holds the other half of this alliance or war. */
  predicate Answered(rels: seq<seq<Rel>>, f: int, r: Rel) {
    0 <= r.other < |rels| && r.other != f && FirstAnswer(rels[r.other], r.kind, f) < |rels[r.other]|
  }

  /** The record that goes with it: the first of its kind about that empire that was not begun by its holder. */
  lemma AnswerMeans(list: seq<Rel>, kind: int, other: int, k: nat)
    requires k < |list|
    ensures FirstAnswer(list, kind, other) == k <==>
            && list[k].kind == kind && list[k].other == other && list[k].flag % 2 == 1
            && forall i :: 0 <= i < k ==> list[i].kind != kind || list[i].other != other || list[i].flag % 2 == 0
  {
    if IsAnswer(list[k], kind, other) && forall i :: 0 <= i < k ==> !IsAnswer(list[i], kind, other) {
      AnswerIs(list, kind, other, k);
    }
  }

  lemma AnswerIs(list: seq<Rel>, kind: int, other: int, a: nat)
    requires a < |list| && IsAnswer(list[a], kind, other) && forall k :: 0 <= k < a ==> !IsAnswer(list[k], kind, other)
    ensures FirstAnswer(list, kind, other) == a
  {
  }

  // ---------------------------------------------------------------- the store

  class RelationStore {
    var rels: seq<seq<Rel>>

    /** dbEmpireRelsAdd */
    method RelsAdd(id: int, rel: Rel) returns (pos: int)
      modifies this
      ensures 0 <= id < |old(rels)| ==> pos == |old(rels)[id]| && rels == old(rels)[id := old(rels)[id] + [rel]]
      ensures !(0 <= id < |old(rels)|) ==> pos == -3 && rels == old(rels)
    {
      if id < 0 || id >= |rels| { return -3; }
      pos := |rels[id]|;
      rels := rels[id := rels[id] + [rel]];
    }

    /** dbEmpireRelsReplace */
    method RelsReplace(id: int, relid: nat, rel: Rel) returns (code: int)
      modifies this
      ensures 0 <= id < |old(rels)| && relid < |old(rels)[id]| ==>
                code == relid && rels == old(rels)[id := old(rels)[id][relid := rel]]
      ensures !(0 <= id < |old(rels)| && relid < |old(rels)[id]|) ==> code < 0 && rels == old(rels)
    {
      if id < 0 || id >= |rels| { return -3; }
      if relid >= |rels[id]| { return -1; }
      rels := rels[id := rels[id][relid := rel]];
      code := relid;
    }

    /** dbEmpireRelsRemove: the last record takes the place of the removed one. */
    method RelsRemove(id: int, relid: nat) returns (code: int)
      modifies this
      ensures 0 <= id < |old(rels)| && relid < |old(rels)[id]| ==>
                code == 1 && rels == old(rels)[id := Removed(old(rels)[id], relid)]
      ensures !(0 <= id < |old(rels)| && relid < |old(rels)[id]|) ==> code < 0 && rels == old(rels)
    {
      if id < 0 || id >= |rels| { return -3; }
      var list := rels[id];
      var num := |list|;
      if relid >= num { return -2; }
      if relid + 1 < num { list := list[relid := list[num-1]]; }
      rels := rels[id := list[..num-1]];
      code := 1;
    }

    /** findFamNAPRels: the first pact record about `famtarget`. */
    method FindNap(fam: int, famtarget: int) returns (i: int)
      ensures i >= 0 ==> 0 <= fam < |rels| && i < |rels[fam]| && rels[fam][i].kind == 1 && rels[fam][i].other == famtarget
      ensures i >= 0 ==> forall k :: 0 <= k < i ==> rels[fam][k].kind != 1 || rels[fam][k].other != famtarget
      ensures i < 0 && 0 <= fam < |rels| && famtarget < |rels| ==> NotFoundYet(rels[fam], famtarget)
    {
      if fam >= |rels| { return -3; }
      if famtarget >= |rels| { return -4; }
      if fam < 0 { return -5; }
      i := 0;
      while i < |rels[fam]|
        invariant 0 <= i <= |rels[fam]|
        invariant forall k :: 0 <= k < i ==> !IsPact(rels[fam][k], famtarget)
      {
        if rels[fam][i].other == famtarget && rels[fam][i].kind == NAP { return i; }
        i := i + 1;
      }
      return -6;
    }

    /** cmdExecAddRelation, for pacts. */
    method AddNap(fam: int, famtarget: int, napTime: int, transition: nat, now: int) returns (code: int)
      requires fam >= 0 && transition < 3
      requires 0 <= fam < |rels| && 0 <= famtarget < |rels| && fam != famtarget ==> Sole(rels, fam, famtarget)
      modifies this
      ensures 0 <= fam < |old(rels)| && 0 <= famtarget < |old(rels)| && fam != famtarget ==>
                && Sole(rels, fam, famtarget) && OthersKept(old(rels), rels, fam, famtarget)
                && PactOf(rels, fam, famtarget) == Offer(old(PactOf(rels, fam, famtarget)), transition, napTime, now)
                && FlagsKept(old(rels), rels, fam, famtarget)
      ensures 0 <= fam < |old(rels)| && 0 <= famtarget < |old(rels)| && fam != famtarget ==>
                var p := old(PactOf(rels, fam, famtarget)); code < 0 <==> p.Pact? && Agreed(p.mine.state)
      ensures !(0 <= fam < |old(rels)| && 0 <= famtarget < |old(rels)| && fam != famtarget) ==> code < 0
      ensures code < 0 ==> rels == old(rels)
    {
      hide OthersKept, FlagsKept, Next, Agreed, About, Sole, PactOf, HalfOf, NotFoundYet;
      var relNm1 := FindNap(fam, famtarget);
      var relNm2 := FindNap(famtarget, fam);
      if fam >= |rels| { return -3; }
      if famtarget >= |rels| { return -4; }
      if fam == famtarget { return -5; }
      var found := relNm1 >= 0 && relNm2 >= 0;
      var rel, rel2 := Rel(now, NAP, fam, 1, 0, napTime), Rel(now, NAP, fam, 1, 0, napTime);
      if found {
        rel, rel2 := rels[fam][relNm1], rels[famtarget][relNm2];
        FoundMeans(rels, fam, famtarget, relNm1, relNm2);
      }
      if found && Agreed(rel.state) {
        SameOthers(rels, fam, famtarget);
        return -3;
      }
      if napTime != rel2.timer {
        rel2 := rel2.(state := Next(false, rel2.state, transition + 3));
        rel := rel.(state := Next(false, rel.state, transition));
        if !Agreed(rel.state) { rel, rel2 := rel.(timer := napTime), rel2.(timer := napTime); }
      } else {
        rel2 := rel2.(state := Next(true, rel2.state, transition + 3));
        rel := rel.(state := Next(true, rel.state, transition));
      }
      if found {
        PactReplaced(rels, fam, famtarget, relNm1, relNm2, rel, rel2);
        HalvesOf(rel, rel2);
        code := RelsReplace(famtarget, relNm2, rel2);
        if code < 0 { return -3; }
        code := RelsReplace(fam, relNm1, rel);
        return if code < 0 then 1 else 0;
      } else {
        var mine := rel.(other := famtarget, flag := 0);
        if famtarget >= 0 {
          NotFoundMeans(rels, fam, famtarget, relNm1 < 0);
          PactAdded(rels, fam, famtarget, mine, rel2);
          HalvesOf(mine, rel2);
        }
        code := RelsAdd(famtarget, rel2);
        if code < 0 { return -10; }
        code := RelsAdd(fam, mine);
      }
    }

    /** cmdExecDelRelation, on a pact. The record of the other empire is looked for by the empire it is about, not
        by its kind. */
    method DelNap(fam: int, relid: nat, now: int, speed: int) returns (code: int)
      requires 0 <= fam < |rels| && speed > 0 && Stateless(rels)
      requires relid < |rels[fam]| ==> rels[fam][relid].kind == NAP && Sole(rels, fam, rels[fam][relid].other)
      modifies this
      ensures relid >= |old(rels)[fam]| ==> code == -3 && rels == old(rels)
      ensures Stateless(rels)
      ensures relid < |old(rels)[fam]| ==> code == 1 && Beside(old(rels), rels, fam, old(rels)[fam][relid].other)
      ensures relid < |old(rels)[fam]| && PactFirst(old(rels), fam, old(rels)[fam][relid].other) ==>
                var g := old(rels)[fam][relid].other;
                && Sole(rels, fam, g) && OthersKept(old(rels), rels, fam, g)
                && PactOf(rels, fam, g) == Cancelled(old(PactOf(rels, fam, rels[fam][relid].other)), now, speed)
                && FlagsKept(old(rels), rels, fam, g)
                && (PactOf(rels, fam, g) == NoPact ==> rels[fam] == Removed(old(rels)[fam], relid))
      ensures relid < |old(rels)[fam]| ==>
                var g := old(rels)[fam][relid].other;
                Sole(rels, fam, g) && OthersKept(old(rels), rels, fam, g) <==> PactFirst(old(rels), fam, g)
      ensures relid < |old(rels)[fam]| && !PactFirst(old(rels), fam, old(rels)[fam][relid].other) ==>
                var g, list := old(rels)[fam][relid].other, old(rels);
                First(list[g], fam) < |list[g]| &&
                rels == list[g := Removed(list[g], First(list[g], fam))][fam := Removed(list[fam], relid)]
    {
      hide Stateless, Beside, OthersKept, FlagsKept, Next, Agreed, About, PactOf, HalfOf, Period, Removed;
      if relid >= |rels[fam]| { return -3; }
      var rel := rels[fam][relid];
      var a, other := 0, rels[rel.other];
      SomethingThere(rels, fam, rel.other, relid);
      while a < |other| && other[a].other != fam
        invariant 0 <= a <= |other|
        invariant forall k :: 0 <= k < a ==> other[k].other != fam
      {
        a := a + 1;
      }
      FirstIs(other, fam, a);
      var rel2 := other[a];
      if rel2.kind != NAP {
        HalfAPact(rels, fam, rel.other, relid, a);
        NoStateAt(rels, rel.other, a);
        StatelessLess(rels, fam, relid, rel.other, a);
        RemovedBeside(rels, fam, relid, rel.other, a);
      }
      NoState();
      FoundMeans(rels, fam, rel.other, relid, a);
      if rel2.kind == NAP {
        PactRemoved(rels, fam, rel.other, relid, a);
        Afterwards(rels, rels[rel.other := Removed(rels[rel.other], a)][fam := Removed(rels[fam], relid)], fam, rel.other);
      }
      var napState, napState2 := rel.state, rel2.state;
      if napState != 4 && napState2 != 4 {
        napState := Next(true, rel.state, CANCEL);
        napState2 := Next(true, rel2.state, CANCEL + 3);
        rel, rel2 := rel.(state := napState), rel2.(state := napState2);
        if napState == 4 && napState2 == 4 { rel, rel2 := rel.(since := now), rel2.(since := now); }
      } else if rel.since + Period(rel.timer, speed) <= now {
        napState, napState2 := 0, 0;
      }
      if napState == 0 || napState2 == 0 {
        code := RelsRemove(rel.other, a);
        code := RelsRemove(fam, relid);
        return;
      }
      PactReplaced(rels, fam, rel.other, relid, a, rel, rel2);
      Afterwards(rels, rels[rel.other := rels[rel.other][a := rel2]][fam := rels[fam][relid := rel]], fam, rel.other);
      HalvesOf(rel, rel2);
      code := RelsReplace(fam, relid, rel);
      if code < 0 { return -8; }
      code := RelsReplace(rel.other, a, rel2);
      if code < 0 { return -9; }
      assert rels == old(rels)[rel.other := old(rels)[rel.other][a := rel2]][fam := old(rels)[fam][relid := rel]];
      code := 1;
    }

    /** cmdExecDelRelation, on an alliance or a war. */
    method DelWar(fam: int, relid: nat, now: int) returns (code: int)
      requires 0 <= fam < |rels| && (relid < |rels[fam]| ==> rels[fam][relid].kind != NAP)
      requires relid < |rels[fam]| && Revocable(rels[fam][relid], now) ==> Answered(rels, fam, rels[fam][relid])
      modifies this
      ensures code < 0 <==>
                relid >= |old(rels)[fam]| || var r := old(rels)[fam][relid]; now < r.since + 26 || r.flag % 2 == 1
      ensures code < 0 ==> rels == old(rels)
      ensures code >= 0 ==>
                var r := old(rels)[fam][relid];
                rels == old(rels)[r.other := Removed(old(rels)[r.other], FirstAnswer(old(rels)[r.other], r.kind, fam))]
                                 [fam := Removed(old(rels)[fam], relid)]
    {
      hide Removed;
      if relid >= |rels[fam]| { return -3; }
      var rel := rels[fam][relid];
      if rel.since + WEEKS > now { return -4; }
      if rel.flag % 2 == 1 { return -5; }
      var a, other := 0, rels[rel.other];
      while a < |other| && !(other[a].other == fam && other[a].kind == rel.kind && other[a].flag % 2 == 1)
        invariant 0 <= a <= |other|
        invariant forall k :: 0 <= k < a ==> !IsAnswer(other[k], rel.kind, fam)
      {
        a := a + 1;
      }
      assert a < |other| by {
        assert IsAnswer(other[FirstAnswer(other, rel.kind, fam)], rel.kind, fam);
      }
      AnswerIs(other, rel.kind, fam, a);
      code := RelsRemove(rel.other, a);
      code := RelsRemove(fam, relid);
    }
  }

  lemma FirstIs(list: seq<Rel>, other: int, a: nat)
    requires a < |list| && list[a].other == other && forall k :: 0 <= k < a ==> list[k].other != other
    ensures First(list, other) == a
  {
  }

  lemma NoStateAt(rels: seq<seq<Rel>>, g: int, j: nat)
    requires Stateless(rels) && 0 <= g < |rels| && j < |rels[g]| && rels[g][j].kind != NAP
    ensures rels[g][j].state == 0
  {
  }

  lemma Afterwards(rels: seq<seq<Rel>>, rels': seq<seq<Rel>>, f: int, g: int)
    requires Stateless(rels) && 0 <= f < |rels| && f != g && OthersKept(rels, rels', f, g)
    ensures Stateless(rels') && Beside(rels, rels', f, g)
  {
    StatelessKept(rels, rels', f, g);
    OthersBeside(rels, rels', f, g);
  }

  lemma NoState()
    ensures Next(true, 0, CANCEL + 3) == 0
  {
  }

  lemma SomethingThere(rels: seq<seq<Rel>>, f: int, g: int, i: nat)
    requires Sole(rels, f, g) && i < |rels[f]| && IsPact(rels[f][i], g)
    ensures exists k :: 0 <= k < |rels[g]| && rels[g][k].other == f
  {
    hide About;
    AboutOnly(rels[f], g, i);
    AboutIn(rels[g], f);
    var r := About(rels[g], f)[0];
    assert r in About(rels[g], f);
  }

  lemma FoundMeans(rels: seq<seq<Rel>>, f: int, g: int, i: nat, j: nat)
    requires Sole(rels, f, g)
    ensures 0 <= f < |rels| && 0 <= g < |rels| && f != g
    ensures i < |rels[f]| && IsPact(rels[f][i], g) ==> 0 <= rels[f][i].state < 10
    ensures i < |rels[f]| && j < |rels[g]| && IsPact(rels[f][i], g) && IsPact(rels[g][j], f) ==>
              var r, t := rels[f][i], rels[g][j];
              && 0 <= r.state < 10 && 0 <= t.state < 10
              && PactOf(rels, f, g) == Pact(Half(r.state, r.timer, r.since), Half(t.state, t.timer, t.since))
  {
    if i < |rels[f]| && IsPact(rels[f][i], g) {
      AboutOnly(rels[f], g, i);
      if j < |rels[g]| && IsPact(rels[g][j], f) { BothFound(rels, f, g, i, j); }
    }
  }

  lemma HalvesOf(r: Rel, t: Rel)
    requires 0 <= r.state && 0 <= t.state
    ensures HalfOf(r) == Half(r.state, r.timer, r.since) && HalfOf(t) == Half(t.state, t.timer, t.since)
  {
  }

  lemma SameOthers(rels: seq<seq<Rel>>, f: int, g: int)
    requires Sole(rels, f, g)
    ensures OthersKept(rels, rels, f, g) && FlagsKept(rels, rels, f, g)
  {
  }

  ghost predicate NotFoundYet(list: seq<Rel>, other: int) {
    forall k :: 0 <= k < |list| ==> !IsPact(list[k], other)
  }

  lemma NotFoundMeans(rels: seq<seq<Rel>>, f: int, g: int, mine: bool)
    requires Sole(rels, f, g)
    requires if mine then NotFoundYet(rels[f], g) else NotFoundYet(rels[g], f)
    ensures About(rels[f], g) == [] && About(rels[g], f) == [] && PactOf(rels, f, g) == NoPact
  {
    if mine {
      NothingFound(rels, f, g);
    } else {
      NothingFound(rels, g, f);
    }
  }
}
