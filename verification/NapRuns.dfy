/** Pacts over whole runs: what both empires and the tick do, in any order. */
module NapRuns {
  import opened Nap

  datatype Event =
    | Offered(byA: bool, transition: nat, napTime: int, now: int)
    | Withdrawn(byA: bool, now: int)
    | Ticked(byA: bool, now: int)

  function Seen(p: Pact, byA: bool): Pact {
    if byA then p else Swap(p)
  }

  /** The tick withdraws a cancelled pact once its time is over. */
  function Tick(p: Pact, now: int, speed: int): Pact
    requires Proper(p) && speed > 0
  {
    if p.Pact? && p.mine.state == 4 && p.mine.since + Period(p.mine.timer, speed) <= now then Cancelled(p, now, speed) else p
  }

  ghost predicate Possible(p: Pact, e: Event) {
    Proper(p) && (e.Offered? ==> e.transition < 3)
  }

  /** An empire does not outbid itself. */
  ghost predicate Allowed(p: Pact, e: Event) {
    Possible(p, e) && (e.Offered? ==> !Outbids(Seen(p, e.byA), e.transition))
  }

  function Step(p: Pact, e: Event, speed: int): Pact
    requires Possible(p, e) && speed > 0
  {
    var q := Seen(p, e.byA);
    var r := match e
             case Offered(_, t, napTime, now) => Offer(q, t, napTime, now)
             case Withdrawn(_, now) => Cancelled(q, now, speed)
             case Ticked(_, now) => Tick(q, now, speed);
    Seen(r, e.byA)
  }

  /** Empire A's view of the pact before and after each event, whatever the empires do. */
  ghost predicate IsAnyRun(ps: seq<Pact>, es: seq<Event>, speed: int) {
    && speed > 0 && |ps| == |es| + 1 && ps[0] == NoPact
    && forall i :: 0 <= i < |es| ==> Possible(ps[i], es[i]) && ps[i+1] == Step(ps[i], es[i], speed)
  }

  /** The same without an empire that outbids itself. */
  ghost predicate IsRun(ps: seq<Pact>, es: seq<Event>, speed: int) {
    && speed > 0 && |ps| == |es| + 1 && ps[0] == NoPact
    && forall i :: 0 <= i < |es| ==> Allowed(ps[i], es[i]) && ps[i+1] == Step(ps[i], es[i], speed)
  }

  // ---------------------------------------------------------------- the two copies

  /** Both records have one timer and one date. */
  ghost predicate SameTimes(p: Pact) {
    p.Pact? ==> p.mine.timer == p.theirs.timer && p.mine.since == p.theirs.since
  }

  /** In every run, also when an empire outbids itself, the two records agree on the timer and on the date. */
  lemma {:induction false} TimersAgree(ps: seq<Pact>, es: seq<Event>, speed: int, i: nat)
    requires IsAnyRun(ps, es, speed) && i < |ps|
    ensures Proper(ps[i]) && SameTimes(ps[i])
  {
    hide Step;
    if i > 0 {
      TimersAgree(ps, es, speed, i - 1);
      StepKeepsTimes(ps[i-1], es[i-1], speed);
    }
  }

  lemma StepKeepsTimes(p: Pact, e: Event, speed: int)
    requires Possible(p, e) && SameTimes(p) && speed > 0
    ensures Proper(Step(p, e, speed)) && SameTimes(Step(p, e, speed))
  {
    hide Next, Period;
  }

  lemma MirrorIsSymmetric(p: Pact)
    requires Proper(p)
    ensures Mirrored(p) <==> Mirrored(Swap(p))
  {
    if p.Pact? {
      var s, t := p.mine.state, p.theirs.state;
      assert s == 0 || s == 1 || s == 2 || s == 3 || s == 4 || s == 5 || s == 6 || s == 7 || s == 8 || s == 9;
      assert t == 0 || t == 1 || t == 2 || t == 3 || t == 4 || t == 5 || t == 6 || t == 7 || t == 8 || t == 9;
    }
  }

  lemma StepMirrors(p: Pact, e: Event, speed: int)
    requires Allowed(p, e) && Mirrored(p) && speed > 0
    ensures Proper(Step(p, e, speed)) && Mirrored(Step(p, e, speed))
  {
    hide Offer, Cancelled, Mirror;
    var q := Seen(p, e.byA);
    MirrorIsSymmetric(p);
    match e
    case Offered(_, t, napTime, now) =>
      OfferMirrorsIff(q, t, napTime, now);
      MirrorIsSymmetric(Offer(q, t, napTime, now));
    case Withdrawn(_, now) =>
      CancelMirrors(q, now, speed);
      MirrorIsSymmetric(Cancelled(q, now, speed));
    case Ticked(_, now) =>
      CancelMirrors(q, now, speed);
      MirrorIsSymmetric(Cancelled(q, now, speed));
  }

  /** In every run the two records are mirror images, with equal timers and dates. */
  lemma {:induction false} RunMirrors(ps: seq<Pact>, es: seq<Event>, speed: int, i: nat)
    requires IsRun(ps, es, speed) && i < |ps|
    ensures Proper(ps[i]) && Mirrored(ps[i])
  {
    if i > 0 {
      RunMirrors(ps, es, speed, i - 1);
      StepMirrors(ps[i-1], es[i-1], speed);
    }
  }

  // ---------------------------------------------------------------- the end of a timed pact

  predicate In(p: Pact, s: nat) {
    p.Pact? && p.mine.state == s
  }

  /** A timed pact stays until it is withdrawn, a withdrawn one until its time is over. */
  lemma TimedStep(p: Pact, e: Event, speed: int)
    requires Allowed(p, e) && Mirrored(p) && speed > 0
    ensures var q := Step(p, e, speed);
            && (In(p, 3) ==> q == p || (e.Withdrawn? && q == Pact(Half(4, p.mine.timer, e.now), Half(4, p.mine.timer, e.now))))
            && (In(p, 4) ==> q == p || (q == NoPact && p.mine.since + Period(p.mine.timer, speed) <= e.now))
  {
  }

  /** An agreed timed pact that is gone has been withdrawn by someone, and its full time has run since. */
  lemma {:induction false} TimedPactEnds(ps: seq<Pact>, es: seq<Event>, speed: int, i: nat, j: nat) returns (k: nat, m: nat)
    requires IsRun(ps, es, speed) && i < j < |ps| && In(ps[i], 3) && !In(ps[j], 3) && !In(ps[j], 4)
    ensures i <= k < m < j && es[k].Withdrawn? && ps[m+1] == NoPact
    ensures es[k].now + Period(ps[i].mine.timer, speed) <= es[m].now
    ensures forall x :: i <= x <= m ==> In(ps[x], 3) || In(ps[x], 4)
  {
    hide Step, Period, Mirrored, Proper, Allowed;
    var timer := ps[i].mine.timer;
    k, m := i, i;
    while In(ps[m], 3) || In(ps[m], 4)
      invariant i <= k <= m < j || (i <= k <= m == j)
      invariant forall x :: i <= x < m ==> In(ps[x], 3) || In(ps[x], 4)
      invariant In(ps[m], 3) ==> ps[m] == ps[i] && k == m
      invariant In(ps[m], 4) ==> k < m && es[k].Withdrawn? && ps[m].mine.timer == timer && ps[m].mine.since == es[k].now
      invariant In(ps[m], 3) || In(ps[m], 4)
                || (ps[m] == NoPact && k + 1 < m && es[k].Withdrawn? && es[k].now + Period(timer, speed) <= es[m-1].now)
      decreases j - m
    {
      RunMirrors(ps, es, speed, m);
      TimedStep(ps[m], es[m], speed);
      m := m + 1;
      if In(ps[m], 3) { k := m; }
    }
    m := m - 1;
  }

  // ---------------------------------------------------------------- the end of an infinite pact

  lemma InfiniteStep(p: Pact, e: Event, speed: int)
    requires Allowed(p, e) && Mirrored(p) && speed > 0
    ensures var q := Step(p, e, speed);
            && (In(p, 7) ==> q == p || (e.Withdrawn? && In(q, if e.byA then 8 else 9)))
            && (In(p, 8) ==> q == p || (e.Withdrawn? && !e.byA && q == NoPact))
            && (In(p, 9) ==> q == p || (e.Withdrawn? && e.byA && q == NoPact))
  {
  }

  /** An infinite pact that is gone has been withdrawn by both empires. */
  lemma {:induction false} InfinitePactEnds(ps: seq<Pact>, es: seq<Event>, speed: int, i: nat, j: nat) returns (k: nat, m: nat)
    requires IsRun(ps, es, speed) && i < j < |ps| && In(ps[i], 7) && !(ps[j].Pact? && 7 <= ps[j].mine.state <= 9)
    ensures i <= k < m < j && es[k].Withdrawn? && es[m].Withdrawn? && es[k].byA != es[m].byA && ps[m+1] == NoPact
    ensures forall x :: i <= x <= m ==> ps[x].Pact? && 7 <= ps[x].mine.state <= 9
  {
    hide Step, Mirrored, Proper, Allowed;
    k, m := i, i;
    while ps[m].Pact? && 7 <= ps[m].mine.state <= 9
      invariant i <= k <= m <= j
      invariant forall x :: i <= x < m ==> ps[x].Pact? && 7 <= ps[x].mine.state <= 9
      invariant In(ps[m], 7) ==> k == m
      invariant In(ps[m], 8) ==> k < m && es[k].Withdrawn? && es[k].byA
      invariant In(ps[m], 9) ==> k < m && es[k].Withdrawn? && !es[k].byA
      invariant In(ps[m], 7) || In(ps[m], 8) || In(ps[m], 9)
                || (ps[m] == NoPact && k + 1 < m && es[k].Withdrawn? && es[m-1].Withdrawn? && es[k].byA != es[m-1].byA)
      decreases j - m
    {
      RunMirrors(ps, es, speed, m);
      InfiniteStep(ps[m], es[m], speed);
      m := m + 1;
      if In(ps[m], 7) { k := m; }
    }
    m := m - 1;
  }

  // ---------------------------------------------------------------- the beginning of a pact

  ghost predicate HasOffered(es: seq<Event>, i: nat, j: nat, byA: bool) {
    exists x :: i <= x < j <= |es| && es[x].Offered? && es[x].byA == byA
  }

  lemma AgreementStep(p: Pact, e: Event, speed: int)
    requires Allowed(p, e) && Mirrored(p) && speed > 0
    ensures var q := Step(p, e, speed);
            && (q.Pact? && (q.mine.state == 1 || q.mine.state == 5) ==> In(p, q.mine.state) || (e.Offered? && e.byA))
            && (q.Pact? && (q.mine.state == 2 || q.mine.state == 6) ==> In(p, q.mine.state) || (e.Offered? && !e.byA))
            && (q.Pact? && Agreed(q.mine.state) ==>
                  (p.Pact? && Agreed(p.mine.state))
                  || (e.Offered? && p.Pact? && (if e.byA then In(p, 2) || In(p, 6) else In(p, 1) || In(p, 5))))
  {
    if p.Pact? {
      var s := p.mine.state;
      assert s == 0 || s == 1 || s == 2 || s == 3 || s == 4 || s == 5 || s == 6 || s == 7 || s == 8 || s == 9;
    }
  }

  /** No pact without both: while it is in force both empires have made an offer since there was none. */
  lemma {:induction false} BothHaveAgreed(ps: seq<Pact>, es: seq<Event>, speed: int, i: nat, j: nat)
    requires IsRun(ps, es, speed) && i <= j < |ps| && ps[i] == NoPact
    ensures ps[j].Pact? && (ps[j].mine.state == 1 || ps[j].mine.state == 5) ==> HasOffered(es, i, j, true)
    ensures ps[j].Pact? && (ps[j].mine.state == 2 || ps[j].mine.state == 6) ==> HasOffered(es, i, j, false)
    ensures ps[j].Pact? && Agreed(ps[j].mine.state) ==> HasOffered(es, i, j, true) && HasOffered(es, i, j, false)
    decreases j
  {
    if i < j {
      BothHaveAgreed(ps, es, speed, i, j - 1);
      RunMirrors(ps, es, speed, j - 1);
      AgreementStep(ps[j-1], es[j-1], speed);
      OfferedLater(es, i, j, true);
      OfferedLater(es, i, j, false);
    }
  }

  lemma OfferedLater(es: seq<Event>, i: nat, j: nat, byA: bool)
    requires i < j <= |es|
    ensures HasOffered(es, i, j - 1, byA) || (es[j-1].Offered? && es[j-1].byA == byA) ==> HasOffered(es, i, j, byA)
  {
  }
}
