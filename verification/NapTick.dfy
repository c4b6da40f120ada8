/** The tick's walk over a copy of an empire's relations, which removes cancelled pacts whose time is over and wars
    that are old enough. */
module NapTick {
  import opened Nap
  import opened NapRuns
  import opened NapDb
  import opened SwapLast

  /** The tick, the seconds between ticks, and the age at which wars end. */
  datatype Clock = Clock(now: int, speed: int, endWars: int)
  type Time = c: Clock | c.speed > 0 witness Clock(0, 1, 0)

  predicate PactDue(r: Rel, c: Time) {
    r.kind == NAP && r.state == 4 && r.since + Period(r.timer, c.speed) <= c.now
  }

  predicate WarDue(r: Rel, c: Time) {
    r.kind == WAR && r.since + c.endWars <= c.now && Revocable(r, c.now)
  }

  predicate IsDue(r: Rel, c: Time) { PactDue(r, c) || WarDue(r, c) }

  function DueCount(list: seq<Rel>, c: Time): nat {
    if list == [] then 0
    else DueCount(list[..|list|-1], c) + (if IsDue(list[|list|-1], c) then 1 else 0)
  }

  lemma DueStep(list: seq<Rel>, m: nat, c: Time)
    requires m < |list|
    ensures DueCount(list[..m+1], c) == DueCount(list[..m], c) + (if IsDue(list[m], c) then 1 else 0)
  {
    assert list[..m+1][..m] == list[..m];
  }

  lemma {:induction false} DueTail(list: seq<Rel>, m: nat, c: Time)
    requires m <= |list|
    ensures DueCount(list, c) <= DueCount(list[..m], c) + (|list| - m)
    decreases |list| - m
  {
    if m == |list| {
      assert list[..m] == list;
    } else {
      DueStep(list, m, c);
      DueTail(list, m + 1, c);
    }
  }

  lemma {:induction false} DueGrows(list: seq<Rel>, i: nat, j: nat, c: Time)
    requires i <= j <= |list|
    ensures DueCount(list[..i], c) <= DueCount(list[..j], c)
    ensures DueCount(list[..i], c) == DueCount(list[..j], c) <==> forall k :: i <= k < j ==> !IsDue(list[k], c)
    decreases j
  {
    if i < j {
      DueStep(list, j - 1, c);
      DueGrows(list, i, j - 1, c);
    }
  }

  // ---------------------------------------------------------------- which records the walk ends

  /** The walk still finds record `i`: of the records behind it, as many have moved to the front as were due
      before it. */
  predicate Reached(list: seq<Rel>, i: nat, c: Time)
    requires i <= |list|
  {
    i + DueCount(list[..i], c) < |list|
  }

  /** One of the first `m` records is a pact, or a war, with `g`, due, and found. */
  ghost predicate Went(list: seq<Rel>, m: nat, g: int, kind: int, c: Time)
    requires m <= |list|
  {
    exists i :: 0 <= i < m && list[i].other == g && list[i].kind == kind && IsDue(list[i], c) && Reached(list, i, c)
  }

  lemma WentStep(list: seq<Rel>, m: nat, g: int, kind: int, c: Time)
    requires m < |list|
    ensures Went(list, m + 1, g, kind, c) <==>
            Went(list, m, g, kind, c)
            || (list[m].other == g && list[m].kind == kind && IsDue(list[m], c) && Reached(list, m, c))
  {
  }

  /** The records that have gone when `m` have been looked at. */
  ghost function Taken(list: seq<Rel>, m: nat, c: Time): multiset<Rel>
    requires m <= |list|
  {
    if m == 0 then multiset{}
    else Taken(list, m - 1, c) + (if IsDue(list[m-1], c) && Reached(list, m - 1, c) then multiset{list[m-1]} else multiset{})
  }

  /** As many records go as are due exactly when every due one is found. */
  lemma AllGoIff(list: seq<Rel>, m: nat, c: Time)
    requires m <= |list|
    requires forall i :: 0 <= i < m ==> Reached(list, i, c)
    requires m < |list| ==> !Reached(list, m, c)
    ensures DueCount(list[..m], c) == DueCount(list, c) <==>
            forall i :: 0 <= i < |list| && IsDue(list[i], c) ==> Reached(list, i, c)
  {
    assert list[..|list|] == list;
    DueGrows(list, m, |list|, c);
    forall i | m <= i < |list| ensures !Reached(list, i, c) {
      DueGrows(list, m, i, c);
    }
  }

  // ---------------------------------------------------------------- what the lists must be like

  /** The pact records of an empire come in pairs. */
  ghost predicate AllSole(rels: seq<seq<Rel>>, f: int) {
    0 <= f < |rels| && forall i :: 0 <= i < |rels[f]| && rels[f][i].kind == NAP ==> Sole(rels, f, rels[f][i].other)
  }

  /** The pact is not shadowed in the other empire's list by an alliance or a war; or there is none. */
  ghost predicate Fair(rels: seq<seq<Rel>>, f: int, g: int) {
    Sole(rels, f, g) && (About(rels[f], g) == [] || PactFirst(rels, f, g))
  }

  /** No pact with `g` that shadowed is withdrawn. */
  ghost predicate Clear(rels: seq<seq<Rel>>, f: int, g: int, c: Time)
    requires 0 <= f < |rels|
  {
    Fair(rels, f, g) || forall i :: 0 <= i < |rels[f]| && rels[f][i].other == g ==> !PactDue(rels[f][i], c)
  }

  /** The wars that are to end: one an empire, and the other side holds its half and no pact in the shadow of it. */
  ghost predicate WarsInOrder(rels: seq<seq<Rel>>, f: int, c: Time) {
    && 0 <= f < |rels|
    && (forall i :: 0 <= i < |rels[f]| && WarDue(rels[f][i], c) ==>
          Answered(rels, f, rels[f][i]) && Clear(rels, f, rels[f][i].other, c))
    && (forall i, j :: 0 <= i < j < |rels[f]| && WarDue(rels[f][i], c) && WarDue(rels[f][j], c) ==>
          rels[f][i].other != rels[f][j].other)
  }

  lemma SoleMeans(rels: seq<seq<Rel>>, f: int, g: int)
    requires Sole(rels, f, g)
    ensures 0 <= f < |rels| && 0 <= g < |rels| && f != g && |About(rels[f], g)| <= 1 && |About(rels[g], f)| <= 1
  {
  }

  lemma {:induction false} Listed(list: seq<Rel>, k: nat)
    requires k < |list| && list[k].kind == NAP
    ensures About(list, list[k].other) != []
  {
    if k > 0 { Listed(list[1..], k - 1); }
  }

  lemma OnlyOne(list: seq<Rel>, i: nat, j: nat)
    requires i < |list| && j < |list| && list[i].kind == list[j].kind == NAP && list[i].other == list[j].other
    requires |About(list, list[i].other)| <= 1
    ensures i == j
  {
    var g, k, l := list[i].other, if i < j then i else j, if i < j then j else i;
    if i != j {
      AboutOnly(list, g, k);
      Listed(list[k+1..], l - k - 1);
    }
  }

  // ---------------------------------------------------------------- removing a record

  lemma SameSmall(a: seq<Rel>, b: seq<Rel>)
    requires multiset(a) == multiset(b) && |b| <= 1
    ensures a == b
  {
    assert |a| == |multiset(a)| == |multiset(b)| == |b|;
    if |b| == 1 { assert a[0] in multiset(b); }
  }

  /** Lists with the same pact records about an empire, up to their order, agree on the pact. */
  lemma SameAbout(list: seq<Rel>, list': seq<Rel>, h: int)
    requires |About(list, h)| <= 1 && forall r :: IsPact(r, h) ==> multiset(list')[r] == multiset(list)[r]
    ensures About(list', h) == About(list, h)
  {
    hide About;
    AboutCount(list, h);
    AboutCount(list', h);
    var a, b := About(list', h), About(list, h);
    assert forall r :: multiset(a)[r] == multiset(b)[r];
    SameSmall(a, b);
  }

  lemma AboutUntouched(list: seq<Rel>, i: nat, h: int)
    requires i < |list| && !IsPact(list[i], h) && |About(list, h)| <= 1
    ensures About(Removed(list, i), h) == About(list, h)
  {
    hide About, Removed;
    RemovedCount(list, i);
    SameAbout(list, Removed(list, i), h);
  }

  lemma RemovedFrom(list: seq<Rel>, i: nat)
    requires i < |list|
    ensures |Removed(list, i)| == |list| - 1
    ensures forall k :: 0 <= k < |list| - 1 ==> Removed(list, i)[k] == list[if k == i then |list| - 1 else k]
  {
  }

  /** The first record about an empire stays the first if a later one goes. */
  lemma FirstStays(list: seq<Rel>, other: int, k: nat)
    requires First(list, other) < k < |list|
    ensures First(Removed(list, k), other) == First(list, other)
    ensures Removed(list, k)[First(list, other)] == list[First(list, other)]
  {
    hide Removed, First;
    RemovedFrom(list, k);
    FirstIs(Removed(list, k), other, First(list, other));
  }

  /** Another empire's list has not changed, and of one's own a record that is not about it has gone. */
  lemma ElsewhereSole(rels: seq<seq<Rel>>, rels': seq<seq<Rel>>, f: int, i: nat, h: int)
    requires 0 <= f < |rels| == |rels'| && i < |rels[f]| && rels'[f] == Removed(rels[f], i)
    requires 0 <= h < |rels| && rels'[h] == rels[h] && !IsPact(rels[f][i], h)
    ensures Sole(rels, f, h) ==> Sole(rels', f, h) && PactOf(rels', f, h) == PactOf(rels, f, h)
    ensures Fair(rels, f, h) ==> Fair(rels', f, h)
  {
    hide About, Removed, PactFirst;
    if Sole(rels, f, h) { AboutUntouched(rels[f], i, h); }
    assert PactFirst(rels', f, h) == PactFirst(rels, f, h) by { assert rels'[h] == rels[h]; PactFirstSame(rels, rels', f, h); }
  }

  lemma PactFirstSame(rels: seq<seq<Rel>>, rels': seq<seq<Rel>>, f: int, h: int)
    requires 0 <= h < |rels| && h < |rels'| && rels'[h] == rels[h]
    ensures PactFirst(rels', f, h) == PactFirst(rels, f, h)
  {
  }

  /** Both halves of a war have gone; the pact between the two empires has not changed. */
  lemma WarGoneSole(rels: seq<seq<Rel>>, f: int, i: nat, g: int, k: nat)
    requires 0 <= f < |rels| && 0 <= g < |rels| && f != g && i < |rels[f]| && k < |rels[g]|
    requires rels[f][i].kind != NAP && rels[g][k].kind != NAP && rels[g][k].other == f
    ensures var n := rels[g := Removed(rels[g], k)][f := Removed(rels[f], i)];
            && (Sole(rels, f, g) ==> Sole(n, f, g) && PactOf(n, f, g) == PactOf(rels, f, g) && About(n[f], g) == About(rels[f], g))
            && (Fair(rels, f, g) ==> Fair(n, f, g))
  {
    hide About, Removed, First;
    if Sole(rels, f, g) {
      AboutUntouched(rels[f], i, g);
      AboutUntouched(rels[g], k, f);
      if PactFirst(rels, f, g) {
        FirstBefore(rels[g], f, k);
        FirstStays(rels[g], f, k);
      }
    }
  }

  lemma FirstBefore(list: seq<Rel>, other: int, k: nat)
    requires k < |list| && list[k].other == other
    ensures First(list, other) <= k
  {
  }

  // ---------------------------------------------------------------- how far the walk has come

  /** Nothing has gone from the other list but the halves of what has gone from one's own. */
  ghost predicate Paid(before: seq<Rel>, after: seq<Rel>, f: int, pact: bool, war: bool) {
    var p := if pact then multiset(About(before, f)) else multiset{};
    if war then exists r :: r in before && IsAnswer(r, WAR, f) && multiset(before) == multiset(after) + p + multiset{r}
    else multiset(before) == multiset(after) + p
  }

  /** What has become of the relations with `g`. */
  ghost predicate GoneWith(was: seq<seq<Rel>>, rels: seq<seq<Rel>>, f: int, g: int, m: nat, c: Time)
    requires 0 <= f < |was| && m <= |was[f]|
  {
    var pact, war := Went(was[f], m, g, NAP, c), Went(was[f], m, g, WAR, c);
    && 0 <= g < |was| == |rels|
    && (!pact && !war ==> rels[g] == was[g])
    && (Sole(was, f, g) ==> About(rels[f], g) == if pact then [] else About(was[f], g))
    && (Fair(was, f, g) ==>
          && Sole(rels, f, g) && PactOf(rels, f, g) == (if pact then NoPact else PactOf(was, f, g))
          && (!pact ==> Fair(rels, f, g)))
    && (Clear(was, f, g, c) ==> Paid(was[g], rels[g], f, pact, war))
  }

  /** So far exactly those records have gone that are due and found, and with them the other halves. */
  ghost predicate Gone(was: seq<seq<Rel>>, rels: seq<seq<Rel>>, f: int, m: nat, c: Time)
    requires 0 <= f < |was| && m <= |was[f]|
  {
    && |rels| == |was|
    && multiset(was[f]) == multiset(rels[f]) + Taken(was[f], m, c)
    && forall g :: 0 <= g < |was| && g != f ==> GoneWith(was, rels, f, g, m, c)
  }

  lemma NoneGone(was: seq<seq<Rel>>, f: int, c: Time)
    requires 0 <= f < |was|
    ensures Gone(was, was, f, 0, c)
  {
    hide Sole, Clear;
    forall g | 0 <= g < |was| && g != f ensures GoneWith(was, was, f, g, 0, c) {
      assert multiset(was[g]) == multiset(was[g]) + multiset{};
    }
  }

  /** A record that is not due, or not found, stays. */
  lemma GoneSame(was: seq<seq<Rel>>, rels: seq<seq<Rel>>, f: int, m: nat, c: Time)
    requires 0 <= f < |was| && m < |was[f]| && Gone(was, rels, f, m, c)
    requires !IsDue(was[f][m], c) || !Reached(was[f], m, c)
    ensures Gone(was, rels, f, m + 1, c)
  {
    hide Sole, Fair, Clear, Paid, PactOf, IsDue, Reached, About, Went;
    var m' := m + 1;
    forall g | 0 <= g < |was| && g != f ensures GoneWith(was, rels, f, g, m', c) {
      assert GoneWith(was, rels, f, g, m, c);
      WentStep(was[f], m, g, NAP, c);
      WentStep(was[f], m, g, WAR, c);
    }
  }

  /** Record `m` is found and goes; empire `g` is another one. */
  lemma GoneElsewhere(was: seq<seq<Rel>>, rels: seq<seq<Rel>>, rels': seq<seq<Rel>>, f: int, g: int, m: nat, c: Time)
    requires 0 <= f < |was| && m < |was[f]| && g != f && GoneWith(was, rels, f, g, m, c)
    requires |rels'| == |rels| && m < |rels[f]| && rels[f][m] == was[f][m] && rels'[f] == Removed(rels[f], m)
    requires g != was[f][m].other && rels'[g] == rels[g]
    ensures GoneWith(was, rels', f, g, m + 1, c)
  {
    hide Clear, Paid, PactOf, IsDue, Reached, About, Went, Removed, PactFirst, Fair, Sole;
    WentStep(was[f], m, g, NAP, c);
    WentStep(was[f], m, g, WAR, c);
    if Sole(was, f, g) {
      SoleMeans(was, f, g);
      AboutUntouched(rels[f], m, g);
    }
    ElsewhereSole(rels, rels', f, m, g);
  }

  /** A war goes: what becomes of the relations with the enemy. */
  lemma WarGone(was: seq<seq<Rel>>, rels: seq<seq<Rel>>, f: int, m: nat, c: Time)
    requires WarsInOrder(was, f, c) && m < |was[f]| && WarDue(was[f][m], c) && Reached(was[f], m, c)
    requires |rels| == |was| && m < |rels[f]| && rels[f][m] == was[f][m]
    requires var g := was[f][m].other; 0 <= g < |was| && g != f && GoneWith(was, rels, f, g, m, c)
    ensures var g := was[f][m].other;
            && Answered(rels, f, was[f][m])
            && GoneWith(was, rels[g := Removed(rels[g], FirstAnswer(rels[g], WAR, f))][f := Removed(rels[f], m)], f, g, m + 1, c)
  {
    hide Clear, PactOf, Reached, About, Went, Removed, PactFirst, Fair, Sole, Paid, Answered;
    var g := was[f][m].other;
    NoWarYet(was, f, m, c);
    var pact := Went(was[f], m, g, NAP, c);
    WentStep(was[f], m, g, NAP, c);
    WentStep(was[f], m, g, WAR, c);
    AnswerThere(was[g], rels[g], f, pact) by { AnsweredMeans(was, f, was[f][m]); }
    AnsweredMeans(rels, f, was[f][m]);
    var k := FirstAnswer(rels[g], WAR, f);
    PaidMore(was[g], rels[g], f, pact, k);
    WarGoneSole(rels, f, m, g, k);
    if Sole(was, f, g) {
      SoleMeans(was, f, g);
      AboutUntouched(rels[f], m, g);
    }
  }

  lemma AnsweredMeans(rels: seq<seq<Rel>>, f: int, r: Rel)
    requires 0 <= r.other < |rels| && r.other != f
    ensures Answered(rels, f, r) <==> FirstAnswer(rels[r.other], r.kind, f) < |rels[r.other]|
  {
  }

  lemma NoWarYet(was: seq<seq<Rel>>, f: int, m: nat, c: Time)
    requires WarsInOrder(was, f, c) && m < |was[f]| && WarDue(was[f][m], c)
    ensures !Went(was[f], m, was[f][m].other, WAR, c) && Clear(was, f, was[f][m].other, c) && Answered(was, f, was[f][m])
  {
    hide Clear, Answered, Reached;
  }

  /** The other half of a war has not gone with that of a pact. */
  lemma AnswerThere(before: seq<Rel>, after: seq<Rel>, f: int, pact: bool)
    requires Paid(before, after, f, pact, false) && FirstAnswer(before, WAR, f) < |before|
    ensures FirstAnswer(after, WAR, f) < |after|
  {
    hide About;
    var r := before[FirstAnswer(before, WAR, f)];
    AboutCount(before, f);
    assert r in before && multiset(before)[r] > 0 && multiset(About(before, f))[r] == 0;
    assert multiset(after)[r] > 0;
    var k :| 0 <= k < |after| && after[k] == r;
    assert IsAnswer(after[k], WAR, f);
  }

  lemma PaidMore(before: seq<Rel>, after: seq<Rel>, f: int, pact: bool, k: nat)
    requires Paid(before, after, f, pact, false) && k < |after| && IsAnswer(after[k], WAR, f)
    ensures Paid(before, Removed(after, k), f, pact, true)
  {
    hide About, Removed;
    RemovedCount(after, k);
    var p := if pact then multiset(About(before, f)) else multiset{};
    assert after[k] in multiset(after) && after[k] in multiset(before);
    assert multiset(before) == multiset(Removed(after, k)) + p + multiset{after[k]};
  }

  /** A pact goes: what becomes of the relations with the partner. */
  lemma PactGone(was: seq<seq<Rel>>, rels: seq<seq<Rel>>, rels': seq<seq<Rel>>, f: int, m: nat, c: Time)
    requires AllSole(was, f) && m < |was[f]| && PactDue(was[f][m], c) && Reached(was[f], m, c)
    requires |rels'| == |rels| == |was| && m < |rels[f]| && rels[f][m] == was[f][m]
    requires var g := was[f][m].other;
             && 0 <= g < |was| && g != f && GoneWith(was, rels, f, g, m, c) && About(rels'[f], g) == []
             && (Fair(was, f, g) ==> Sole(rels, f, g) && Sole(rels', f, g) && PactOf(rels', f, g) == NoPact && OthersKept(rels, rels', f, g))
    ensures GoneWith(was, rels', f, was[f][m].other, m + 1, c)
  {
    hide PactOf, Reached, Period, About, Went, PactFirst, Sole, Paid, OthersKept;
    var g := was[f][m].other;
    WentStep(was[f], m, g, NAP, c);
    WentStep(was[f], m, g, WAR, c);
    if Fair(was, f, g) {
      NoPactYet(was, f, m, c);
      NoPactMeans(rels', f, g);
      SoleMeans(was, f, g);
      PaidPact(was[g], rels, rels', f, g, Went(was[f], m, g, WAR, c));
    }
  }

  lemma NoPactMeans(rels: seq<seq<Rel>>, f: int, g: int)
    requires Sole(rels, f, g) && PactOf(rels, f, g) == NoPact
    ensures About(rels[f], g) == [] && About(rels[g], f) == []
  {
  }

  lemma NoPactYet(was: seq<seq<Rel>>, f: int, m: nat, c: Time)
    requires 0 <= f < |was| && m < |was[f]| && was[f][m].kind == NAP && Sole(was, f, was[f][m].other)
    ensures !Went(was[f], m, was[f][m].other, NAP, c) && About(was[f], was[f][m].other) != []
  {
    hide About, IsDue, Reached;
    Listed(was[f], m);
    forall i | 0 <= i < |was[f]| && IsPact(was[f][i], was[f][m].other) ensures i == m {
      OnlyOne(was[f], i, m);
    }
  }

  lemma PaidPact(before: seq<Rel>, rels: seq<seq<Rel>>, rels': seq<seq<Rel>>, f: int, g: int, war: bool)
    requires 0 <= f < |rels| && 0 <= g < |rels| == |rels'| && f != g && OthersKept(rels, rels', f, g)
    requires Paid(before, rels[g], f, false, war) && About(rels'[g], f) == []
    ensures Paid(before, rels'[g], f, true, war)
  {
    hide About;
    var p := multiset(About(before, f));
    PactsOnly(rels[g], rels'[g], f) by { assert forall r :: !IsPact(r, f) ==> !OfPair(r, g, f, g); }
    if war {
      var r :| r in before && IsAnswer(r, WAR, f) && multiset(before) == multiset(rels[g]) + multiset{} + multiset{r};
      SamePacts(before, rels[g], f, multiset{r});
      assert multiset(before) == multiset(rels'[g]) + p + multiset{r};
    } else {
      SamePacts(before, rels[g], f, multiset{});
    }
  }

  lemma PactsOnly(list: seq<Rel>, list': seq<Rel>, f: int)
    requires About(list', f) == [] && forall r :: !IsPact(r, f) ==> multiset(list')[r] == multiset(list)[r]
    ensures multiset(list) == multiset(list') + multiset(About(list, f))
  {
    hide About;
    AboutCount(list, f);
    AboutCount(list', f);
    assert forall r :: multiset(list)[r] == (multiset(list') + multiset(About(list, f)))[r] by {
      assert multiset(About(list', f)) == multiset{};
    }
  }

  lemma SamePacts(list: seq<Rel>, list': seq<Rel>, f: int, more: multiset<Rel>)
    requires multiset(list) == multiset(list') + more && forall r :: r in more ==> r.kind != NAP
    ensures multiset(About(list, f)) == multiset(About(list', f))
  {
    hide About;
    AboutCount(list, f);
    AboutCount(list', f);
    assert forall r :: multiset(About(list, f))[r] == multiset(About(list', f))[r];
  }

  // ---------------------------------------------------------------- one record of the walk

  lemma TakenMore(was: seq<Rel>, list: seq<Rel>, m: nat, c: Time)
    requires m < |was| && m < |list| && list[m] == was[m] && IsDue(was[m], c) && Reached(was, m, c)
    requires multiset(was) == multiset(list) + Taken(was, m, c)
    ensures multiset(was) == multiset(Removed(list, m)) + Taken(was, m + 1, c)
  {
    hide IsDue, Reached, Removed;
    RemovedCount(list, m);
    assert list[m] in multiset(list);
  }

  /** A war of the walk goes. */
  lemma WarRemoved(was: seq<seq<Rel>>, rels: seq<seq<Rel>>, f: int, m: nat, c: Time)
    requires WarsInOrder(was, f, c) && AllSole(rels, f) && Stateless(rels) && m < |was[f]| && Gone(was, rels, f, m, c)
    requires m < |rels[f]| && rels[f][m] == was[f][m] && WarDue(was[f][m], c) && Reached(was[f], m, c)
    ensures var g := was[f][m].other;
            && 0 <= g < |rels| && Answered(rels, f, was[f][m])
            && var n := rels[g := Removed(rels[g], FirstAnswer(rels[g], WAR, f))][f := Removed(rels[f], m)];
               AllSole(n, f) && Stateless(n) && Gone(was, n, f, m + 1, c)
  {
    hide GoneWith, Removed, Taken, FirstAnswer, Sole, Stateless, WarsInOrder, Reached;
    var g := was[f][m].other;
    WarEnemy(was, f, m, c);
    assert GoneWith(was, rels, f, g, m, c);
    WarGone(was, rels, f, m, c);
    var k := FirstAnswer(rels[g], WAR, f);
    assert IsAnswer(rels[g][k], WAR, f);
    var n := rels[g := Removed(rels[g], k)][f := Removed(rels[f], m)];
    TakenMore(was[f], rels[f], m, c);
    StatelessLess(rels, f, m, g, k);
    var m' := m + 1;
    forall h | 0 <= h < |was| && h != f ensures GoneWith(was, n, f, h, m', c) {
      assert GoneWith(was, rels, f, h, m, c);
      if h != g { GoneElsewhere(was, rels, n, f, h, m, c); }
    }
    RemovedFrom(rels[f], m);
    forall i | 0 <= i < |n[f]| && n[f][i].kind == NAP ensures Sole(n, f, n[f][i].other) {
      var j := if i == m then |rels[f]| - 1 else i;
      assert n[f][i] == rels[f][j];
      var h := rels[f][j].other;
      SoleMeans(rels, f, h);
      if h == g { WarGoneSole(rels, f, m, g, k); } else { ElsewhereSole(rels, n, f, m, h); }
    }
  }

  lemma WarEnemy(was: seq<seq<Rel>>, f: int, m: nat, c: Time)
    requires WarsInOrder(was, f, c) && m < |was[f]| && WarDue(was[f][m], c)
    ensures 0 <= was[f][m].other < |was| && was[f][m].other != f
  {
  }

  lemma SameLists(rels: seq<seq<Rel>>, rels': seq<seq<Rel>>, f: int, g: int)
    requires Beside(rels, rels', f, g)
    ensures 0 <= f < |rels| == |rels'| && forall x :: 0 <= x < |rels| && x != f && x != g ==> rels'[x] == rels[x]
  {
  }

  /** A pact of the walk goes, whichever record of the other empire goes with it. */
  lemma PactRemovedToo(was: seq<seq<Rel>>, rels: seq<seq<Rel>>, rels': seq<seq<Rel>>, f: int, m: nat, c: Time)
    requires AllSole(was, f) && AllSole(rels, f) && m < |was[f]| && m < |rels[f]| && rels[f][m] == was[f][m]
    requires PactDue(was[f][m], c) && Reached(was[f], m, c) && Gone(was, rels, f, m, c)
    requires var g := rels[f][m].other;
             && Beside(rels, rels', f, g)
             && (PactFirst(rels, f, g) ==>
                   && Sole(rels', f, g) && OthersKept(rels, rels', f, g)
                   && PactOf(rels', f, g) == Cancelled(PactOf(rels, f, g), c.now, c.speed)
                   && (PactOf(rels', f, g) == NoPact ==> rels'[f] == Removed(rels[f], m)))
             && (!PactFirst(rels, f, g) ==>
                   First(rels[g], f) < |rels[g]| && rels' == rels[g := Removed(rels[g], First(rels[g], f))][f := Removed(rels[f], m)])
    ensures AllSole(rels', f) && rels'[f] == Removed(rels[f], m) && Gone(was, rels', f, m + 1, c)
  {
    hide GoneWith, Removed, Taken, About, Cancelled, Period, Reached, PactFirst, PactOf, Beside, Sole, Fair, OthersKept;
    var g := rels[f][m].other;
    SameLists(rels, rels', f, g);
    DueEnds(rels, f, g, m, c);
    SoleMeans(rels, f, g);
    StillFair(was, rels, f, m, c);
    TakenMore(was[f], rels[f], m, c);
    AboutRemoved(rels[f], m, g);
    var m' := m + 1;
    forall h | 0 <= h < |was| && h != f ensures GoneWith(was, rels', f, h, m', c) {
      assert GoneWith(was, rels, f, h, m, c);
      if h == g { PactGone(was, rels, rels', f, m, c); } else { GoneElsewhere(was, rels, rels', f, h, m, c); }
    }
    RemovedFrom(rels[f], m);
    forall i | 0 <= i < |rels'[f]| && rels'[f][i].kind == NAP ensures Sole(rels', f, rels'[f][i].other) {
      var j := if i == m then |rels[f]| - 1 else i;
      assert rels'[f][i] == rels[f][j];
      if rels[f][j].other == g { Listed(rels'[f], i); }
      SoleMeans(rels, f, rels[f][j].other);
      ElsewhereSole(rels, rels', f, m, rels[f][j].other);
    }
  }

  lemma DueEnds(rels: seq<seq<Rel>>, f: int, g: int, i: nat, c: Time)
    requires Sole(rels, f, g) && i < |rels[f]| && rels[f][i].other == g && PactDue(rels[f][i], c)
    ensures Cancelled(PactOf(rels, f, g), c.now, c.speed) == Tick(PactOf(rels, f, g), c.now, c.speed) == NoPact
  {
    hide About, Period;
    AboutOnly(rels[f], g, i);
    assert PactOf(rels, f, g).mine == HalfOf(rels[f][i]);
  }

  /** A fair pact whose record has not gone yet is still fair. */
  lemma StillFair(was: seq<seq<Rel>>, rels: seq<seq<Rel>>, f: int, m: nat, c: Time)
    requires AllSole(was, f) && m < |was[f]| && Gone(was, rels, f, m, c) && was[f][m].kind == NAP
    ensures var g := was[f][m].other; Fair(was, f, g) ==> Sole(rels, f, g) && PactFirst(rels, f, g)
  {
    hide About, PactOf, PactFirst, Sole, Paid, Clear, Went, Taken;
    var g := was[f][m].other;
    NoPactYet(was, f, m, c);
    SoleMeans(was, f, g);
    assert GoneWith(was, rels, f, g, m, c);
  }

  // ---------------------------------------------------------------- the whole walk

  /** A fair pact is as it was, or as the tick leaves it. */
  ghost predicate Ticking(was: seq<seq<Rel>>, rels: seq<seq<Rel>>, f: int, c: Time) {
    forall g :: Fair(was, f, g) ==>
      Sole(rels, f, g) && (PactOf(rels, f, g) == PactOf(was, f, g) || PactOf(rels, f, g) == Tick(PactOf(was, f, g), c.now, c.speed))
  }

  lemma GoneMeansTicking(was: seq<seq<Rel>>, rels: seq<seq<Rel>>, f: int, c: Time)
    requires 0 <= f < |was| && Gone(was, rels, f, |was[f]|, c)
    ensures Ticking(was, rels, f, c)
  {
    hide PactFirst, Reached, Sole, PactOf, Tick, Cancelled, PactDue, WarDue, Paid, Clear, About, Taken;
    forall g | Fair(was, f, g)
      ensures Sole(rels, f, g)
      ensures PactOf(rels, f, g) == PactOf(was, f, g) || PactOf(rels, f, g) == Tick(PactOf(was, f, g), c.now, c.speed)
    {
      SoleMeans(was, f, g);
      assert GoneWith(was, rels, f, g, |was[f]|, c);
      if Went(was[f], |was[f]|, g, NAP, c) {
        var i :| 0 <= i < |was[f]| && was[f][i].other == g && was[f][i].kind == NAP && IsDue(was[f][i], c);
        NoWarIsPact(was[f][i], c);
        DueEnds(was, f, g, i, c);
      }
    }
  }

  lemma NoWarIsPact(r: Rel, c: Time)
    requires r.kind == NAP && IsDue(r, c)
    ensures PactDue(r, c)
  {
  }

  /** Every due pact has gone exactly when every due pact is found. */
  lemma AllEndIff(was: seq<seq<Rel>>, rels: seq<seq<Rel>>, f: int, c: Time)
    requires AllSole(was, f) && Gone(was, rels, f, |was[f]|, c)
    ensures (forall i :: 0 <= i < |was[f]| && PactDue(was[f][i], c) ==> About(rels[f], was[f][i].other) == []) <==>
            (forall i :: 0 <= i < |was[f]| && PactDue(was[f][i], c) ==> Reached(was[f], i, c))
  {
    hide Reached, About, Sole, Fair, Clear, Paid, PactOf, Taken;
    var list := was[f];
    forall i | 0 <= i < |list| && PactDue(list[i], c)
      ensures About(rels[f], list[i].other) == [] <==> Reached(list, i, c)
    {
      var g := list[i].other;
      Listed(list, i);
      SoleMeans(was, f, g);
      assert GoneWith(was, rels, f, g, |list|, c);
      forall j | 0 <= j < |list| && IsPact(list[j], g) ensures j == i {
        OnlyOne(list, i, j);
      }
    }
  }

  /** As many are due as there are withdrawn pacts whose time is over, and wars that this empire began, of at least 26
      weeks and old enough. */
  lemma {:induction false} DueAre(list: seq<Rel>, c: Time)
    ensures var pacts := set i: nat | i < |list| && list[i].kind == 1 && list[i].state == 4
                           && list[i].since + list[i].timer * (3600 / c.speed) <= c.now;
            var wars := set i: nat | i < |list| && list[i].kind == 2 && list[i].flag % 2 == 0
                           && list[i].since + 26 <= c.now && list[i].since + c.endWars <= c.now;
            DueCount(list, c) == |pacts| + |wars|
  {
    DueAmong(list, c);
    var pacts := set i: nat | i < |list| && list[i].kind == 1 && list[i].state == 4
                   && list[i].since + list[i].timer * (3600 / c.speed) <= c.now;
    var wars := set i: nat | i < |list| && list[i].kind == 2 && list[i].flag % 2 == 0
                   && list[i].since + 26 <= c.now && list[i].since + c.endWars <= c.now;
    assert (set i: nat | i < |list| && IsDue(list[i], c)) == pacts + wars;
    assert pacts !! wars;
  }

  lemma {:induction false} DueAmong(list: seq<Rel>, c: Time)
    ensures DueCount(list, c) == |set i: nat | i < |list| && IsDue(list[i], c)|
  {
    hide IsDue;
    var here := set i: nat | i < |list| && IsDue(list[i], c);
    if list == [] {
      assert here == {};
    } else {
      var n: nat := |list| - 1;
      DueAmong(list[..n], c);
      var before := set i: nat | i < n && IsDue(list[..n][i], c);
      assert here == before + if IsDue(list[n], c) then {n} else {};
    }
  }

  /** A record goes as often as it stands at a place where it is due and found. */
  lemma {:induction false} TakenAre(list: seq<Rel>, m: nat, c: Time, r: Rel)
    requires m <= |list|
    ensures Taken(list, m, c)[r] == |set i: nat | i < m && list[i] == r && IsDue(r, c) && Reached(list, i, c)|
  {
    hide IsDue, Reached, Taken;
    TakenStep(list, m, c, r);
    if m > 0 {
      TakenAre(list, m - 1, c, r);
      PlacesStep(list, m - 1, c, r);
    }
  }

  lemma TakenStep(list: seq<Rel>, m: nat, c: Time, r: Rel)
    requires m <= |list|
    ensures m == 0 ==> Taken(list, m, c)[r] == 0
    ensures m > 0 ==>
              var goes := list[m-1] == r && IsDue(r, c) && Reached(list, m - 1, c);
              Taken(list, m, c)[r] == Taken(list, m - 1, c)[r] + if goes then 1 else 0
  {
    hide IsDue, Reached;
  }

  lemma PlacesStep(list: seq<Rel>, n: nat, c: Time, r: Rel)
    requires n < |list|
    ensures var goes := list[n] == r && IsDue(r, c) && Reached(list, n, c);
            |set i: nat | i < n + 1 && list[i] == r && IsDue(r, c) && Reached(list, i, c)|
            == |set i: nat | i < n && list[i] == r && IsDue(r, c) && Reached(list, i, c)| + if goes then 1 else 0
  {
    hide IsDue, Reached;
    var before := set i: nat | i < n && list[i] == r && IsDue(r, c) && Reached(list, i, c);
    var here := set i: nat | i < n + 1 && list[i] == r && IsDue(r, c) && Reached(list, i, c);
    var goes := list[n] == r && IsDue(r, c) && Reached(list, n, c);
    assert here == before + if goes then {n} else {};
  }

  /** Two pacts in a list of two, both due: the second one is missed. */
  lemma SecondOfTwoIsMissed(a: int, b: int, c: Time)
    ensures var list := [Rel(c.now, NAP, a, 0, 4, 0), Rel(c.now, NAP, b, 0, 4, 0)];
            IsDue(list[0], c) && Reached(list, 0, c) && IsDue(list[1], c) && !Reached(list, 1, c)
  {
    var list := [Rel(c.now, NAP, a, 0, 4, 0), Rel(c.now, NAP, b, 0, 4, 0)];
    assert 0 * (3600 / c.speed) == 0;
    DueStep(list, 0, c);
    assert list[..0] == [];
  }

  /** One record of the copy. */
  method Visit(db: RelationStore, fam: int, wa: nat, rel: Rel, c: Time, ghost was: seq<seq<Rel>>)
    requires AllSole(db.rels, fam) && Stateless(db.rels) && AllSole(was, fam) && WarsInOrder(was, fam, c)
    requires wa < |was[fam]| && rel == was[fam][wa] && Gone(was, db.rels, fam, wa, c)
    requires wa < |db.rels[fam]| <==> Reached(was[fam], wa, c)
    requires wa < |db.rels[fam]| ==> db.rels[fam][wa] == rel
    modifies db
    ensures AllSole(db.rels, fam) && Stateless(db.rels) && Gone(was, db.rels, fam, wa + 1, c)
    ensures db.rels[fam] == if IsDue(rel, c) && wa < |old(db.rels)[fam]| then Removed(old(db.rels)[fam], wa) else old(db.rels)[fam]
  {
    hide Sole, About, PactOf, OthersKept, Cancelled, Removed, Gone, Beside, PactFirst, First, Stateless, Fair, WarsInOrder,
         Answered, FirstAnswer, Period, Reached, Taken;
    ghost var before := db.rels;
    if !IsDue(rel, c) || wa >= |before[fam]| { GoneSame(was, db.rels, fam, wa, c); }
    if rel.kind == WAR && rel.since + c.endWars <= c.now {
      if wa < |before[fam]| && WarDue(rel, c) { WarRemoved(was, before, fam, wa, c); }
      var code := db.DelWar(fam, wa, c.now);
    }
    if rel.kind == NAP && rel.state == 4 && rel.since + Period(rel.timer, c.speed) <= c.now {
      var code := db.DelNap(fam, wa, c.now, c.speed);
      if wa < |before[fam]| { PactRemovedToo(was, before, db.rels, fam, wa, c); }
    }
  }

  /** Exactly the records go that are due and found, with their other halves. The indices of the copy grow stale as
      records move, but never name another relation; they only miss records at the end of the list. A due record is
      missed exactly when fewer records follow it than were due before it; at least half go. */
  method TickRelations(db: RelationStore, fam: int, c: Time)
    requires AllSole(db.rels, fam) && Stateless(db.rels) && WarsInOrder(db.rels, fam, c)
    modifies db
    ensures AllSole(db.rels, fam) && Stateless(db.rels)
    ensures Ticking(old(db.rels), db.rels, fam, c)
    ensures Gone(old(db.rels), db.rels, fam, |old(db.rels)[fam]|, c)
    ensures var list := old(db.rels)[fam];
            (forall i :: 0 <= i < |list| && PactDue(list[i], c) ==> About(db.rels[fam], list[i].other) == []) <==>
            (forall i :: 0 <= i < |list| && PactDue(list[i], c) ==> i + DueCount(list[..i], c) < |list|)
    ensures var list := old(db.rels)[fam];
            |list| - |db.rels[fam]| == DueCount(list, c) <==>
            (forall i :: 0 <= i < |list| && IsDue(list[i], c) ==> i + DueCount(list[..i], c) < |list|)
    ensures 2 * (|old(db.rels)[fam]| - |db.rels[fam]|) >= DueCount(old(db.rels)[fam], c)
  {
    hide Sole, About, PactOf, OthersKept, Tick, Cancelled, Removed, Gone, Beside, PactFirst, First, Stateless, Fair, Ticking,
         WarsInOrder, Answered, FirstAnswer, Period;
    ghost var was := db.rels;
    var rels := db.rels[fam];
    ghost var removed, m := 0, 0;
    assert rels[..0] == [];
    NoneGone(was, fam, c);
    var wa := 0;
    while wa < |rels|
      invariant 0 <= wa <= |rels| && 0 <= m <= wa && removed >= 0
      invariant AllSole(db.rels, fam) && Stateless(db.rels) && Gone(was, db.rels, fam, wa, c)
      invariant |db.rels[fam]| == |rels| - removed && removed == DueCount(rels[..m], c)
      invariant m == wa || m >= |db.rels[fam]|
      invariant forall i :: 0 <= i < m ==> Reached(rels, i, c)
      invariant forall i :: wa <= i < |db.rels[fam]| ==> db.rels[fam][i] == rels[i]
    {
      ghost var before := db.rels[fam];
      if wa < |before| { DueStep(rels, wa, c); }
      DueGrows(rels, m, wa, c);
      Visit(db, fam, wa, rels[wa], c, was);
      if wa < |before| {
        RemovedFrom(before, wa);
        if IsDue(rels[wa], c) { removed := removed + 1; }
        m := wa + 1;
      }
      wa := wa + 1;
    }
    DueTail(rels, m, c);
    AllGoIff(rels, m, c);
    AllEndIff(was, db.rels, fam, c);
    GoneMeansTicking(was, db.rels, fam, c);
  }
}
