/** Non-aggression pacts: two records, one in each empire's list, driven by two tables. */
module Nap {
  const TIMED := 0
  const INFINITE := 1
  const CANCEL := 2

  /** Columns 0 to 2: what the empire itself does; columns 3 to 5: what the other one does. */
  const EQUAL_TIMER: seq<seq<nat>> := [
    [1, 5, 0, 2, 6, 0],
    [1, 5, 0, 3, 6, 0],
    [3, 5, 0, 2, 7, 0],
    [3, 3, 4, 3, 3, 4],
    [4, 4, 4, 4, 4, 4],
    [1, 5, 0, 2, 7, 0],
    [1, 7, 0, 2, 6, 0],
    [7, 7, 8, 7, 7, 9],
    [8, 7, 8, 8, 8, 0],
    [9, 9, 0, 9, 7, 9]]

  const DIFFERENT_TIMER: seq<seq<nat>> := [
    [1, 5, 0, 2, 6, 0],
    [1, 5, 0, 2, 6, 0],
    [1, 5, 0, 2, 7, 0],
    [3, 3, 4, 3, 3, 4],
    [4, 4, 4, 4, 4, 4],
    [1, 5, 0, 2, 7, 0],
    [1, 7, 0, 2, 6, 0],
    [7, 7, 8, 7, 7, 9],
    [8, 7, 8, 8, 8, 0],
    [9, 9, 0, 9, 7, 9]]

  function Next(same: bool, s: nat, column: nat): (n: nat)
    requires s < 10 && column < 6
    ensures n < 10
  {
    if same then EQUAL_TIMER[s][column] else DIFFERENT_TIMER[s][column]
  }

  /** A pact is in force. */
  predicate Agreed(s: nat) { s == 3 || s == 4 || s == 7 || s == 8 || s == 9 }

  /** What the other empire's record says when one's own says `s`. */
  function Mirror(s: nat): nat {
    if s == 1 then 2 else if s == 2 then 1 else if s == 5 then 6 else if s == 6 then 5
    else if s == 8 then 9 else if s == 9 then 8 else s
  }

  /** The pact as one of the two empires sees it. */
  datatype Half = Half(state: nat, timer: int, since: int)
  datatype Pact = NoPact | Pact(mine: Half, theirs: Half)

  /** States in range; the rest of the protocol may still be out of joint. */
  ghost predicate Proper(p: Pact) {
    p.Pact? ==> p.mine.state < 10 && p.theirs.state < 10
  }

  ghost predicate Mirrored(p: Pact) {
    p.Pact? ==> p.theirs == p.mine.(state := Mirror(p.mine.state))
  }

  function Swap(p: Pact): Pact {
    if p.NoPact? then p else Pact(p.theirs, p.mine)
  }

  // ---------------------------------------------------------------- the two operations

  /** cmdExecAddRelation for a pact: refused while one is in force. */
  function Offer(p: Pact, transition: nat, napTime: int, now: int): Pact
    requires Proper(p) && transition < 3
  {
    if p.Pact? && Agreed(p.mine.state) then p
    else
      var mine := if p.Pact? then p.mine else Half(0, napTime, now);
      var theirs := if p.Pact? then p.theirs else Half(0, napTime, now);
      var same := napTime == theirs.timer;
      var s := Next(same, mine.state, transition);
      var timer := !same && !Agreed(s);
      Pact(Half(s, if timer then napTime else mine.timer, mine.since),
           Half(Next(same, theirs.state, transition + 3), if timer then napTime else theirs.timer, theirs.since))
  }

  /** How long a timed pact lasts after it has been cancelled. */
  function Period(timer: int, speed: int): int
    requires speed > 0
  {
    timer * (3600 / speed)
  }

  /** cmdExecDelRelation for a pact. */
  function Cancelled(p: Pact, now: int, speed: int): Pact
    requires Proper(p) && speed > 0
  {
    if p.NoPact? then p
    else if p.mine.state == 4 || p.theirs.state == 4 then
      if p.mine.since + Period(p.mine.timer, speed) <= now then NoPact
      else if p.mine.state == 0 || p.theirs.state == 0 then NoPact
      else p
    else
      var s, t := Next(true, p.mine.state, CANCEL), Next(true, p.theirs.state, CANCEL + 3);
      if s == 0 || t == 0 then NoPact
      else if s == 4 && t == 4 then Pact(Half(4, p.mine.timer, now), Half(4, p.theirs.timer, now))
      else Pact(p.mine.(state := s), p.theirs.(state := t))
  }

  // ---------------------------------------------------------------- one step

  /** An empire replaces its own pending timed offer by an infinite one. */
  predicate Outbids(p: Pact, transition: nat) {
    p.Pact? && p.mine.state == 1 && transition == INFINITE
  }

  /** An offer keeps the two records mirror images unless it outbids itself. */
  lemma OfferMirrorsIff(p: Pact, transition: nat, napTime: int, now: int)
    requires Proper(p) && Mirrored(p) && transition < 3
    ensures Proper(Offer(p, transition, napTime, now))
    ensures Mirrored(Offer(p, transition, napTime, now)) <==> !Outbids(p, transition)
  {
    if p.Pact? && !Agreed(p.mine.state) {
      var s := p.mine.state;
      assert s == 0 || s == 1 || s == 2 || s == 5 || s == 6;
      assert transition == 0 || transition == 1 || transition == 2;
    } else if p.NoPact? {
      assert transition == 0 || transition == 1 || transition == 2;
    }
  }

  /** A timed offer where there was nothing, and then an infinite one by the same empire: its own record
      says 5, the other one 7. */
  lemma OutbidsItself(napTime: int, now: int, napTime': int, now': int)
    ensures var p := Offer(NoPact, TIMED, napTime, now);
            var q := Offer(p, INFINITE, napTime', now');
            && p == Pact(Half(1, napTime, now), Half(2, napTime, now))
            && q == Pact(Half(5, napTime', now), Half(7, napTime', now)) && !Mirrored(q)
  {
  }

  /** Either of them ends that by cancelling, as do records one of which is blank and the other one withdrawn. */
  lemma OutbidCancelled(napTime: int, since: int, now: int, speed: int)
    requires speed > 0
    ensures var a, b := Half(5, napTime, since), Half(7, napTime, since);
            Cancelled(Pact(a, b), now, speed) == NoPact && Cancelled(Pact(b, a), now, speed) == NoPact
    ensures var a, b := Half(4, napTime, since), Half(0, napTime, since);
            Cancelled(Pact(a, b), now, speed) == NoPact && Cancelled(Pact(b, a), now, speed) == NoPact
  {
    hide Period;
  }

  lemma CancelMirrors(p: Pact, now: int, speed: int)
    requires Proper(p) && Mirrored(p) && speed > 0
    ensures Proper(Cancelled(p, now, speed)) && Mirrored(Cancelled(p, now, speed))
  {
    if p.Pact? {
      var s := p.mine.state;
      assert s == 0 || s == 1 || s == 2 || s == 3 || s == 4 || s == 5 || s == 6 || s == 7 || s == 8 || s == 9;
    }
  }

  // ---------------------------------------------------------------- what the states mean

  /** What there is between two empires, as one of them sees it; `mine` is its own doing. */
  datatype Status =
    | Nothing
    | Blank(timer: int, since: int)
    | Offered(mine: bool, infinite: bool, timer: int, since: int)
    | Timed(timer: int, since: int)
    | Ending(timer: int, since: int)
    | Forever(timer: int, since: int)
    | Leaving(mine: bool, timer: int, since: int)

  ghost function View(p: Pact): Status
    requires Proper(p)
  {
    if p.NoPact? then Nothing
    else
      var h := p.mine;
      match h.state
      case 0 => Blank(h.timer, h.since)
      case 1 => Offered(true, false, h.timer, h.since)
      case 2 => Offered(false, false, h.timer, h.since)
      case 3 => Timed(h.timer, h.since)
      case 4 => Ending(h.timer, h.since)
      case 5 => Offered(true, true, h.timer, h.since)
      case 6 => Offered(false, true, h.timer, h.since)
      case 7 => Forever(h.timer, h.since)
      case 8 => Leaving(true, h.timer, h.since)
      case _ => Leaving(false, h.timer, h.since)
  }

  /** An offer: it meets an offer of the other empire of the same kind, and if it is timed of the same time, or it takes
      the place of whatever was offered before. The date is that of the first of them. */
  ghost function Answer(s: Status, infinite: bool, napTime: int, now: int): Status {
    match s
    case Nothing => Offered(true, infinite, napTime, now)
    case Blank(_, since) => Offered(true, infinite, napTime, since)
    case Offered(mine, forever, timer, since) =>
      if !mine && forever && infinite then Forever(timer, since)
      else if !mine && !forever && !infinite && napTime == timer then Timed(timer, since)
      else Offered(true, infinite, napTime, since)
    case _ => s
  }

  /** A cancellation: offers disappear, a timed pact runs for its time from now on, an infinite one until the other
      empire cancels too. */
  ghost function Withdrawal(s: Status, now: int, speed: int): Status
    requires speed > 0
  {
    match s
    case Timed(timer, _) => Ending(timer, now)
    case Ending(timer, since) => if since + timer * (3600 / speed) <= now then Nothing else s
    case Forever(timer, since) => Leaving(true, timer, since)
    case Leaving(mine, _, _) => if mine then s else Nothing
    case _ => Nothing
  }

  /** The tables say just that. */
  lemma OfferMeans(p: Pact, transition: nat, napTime: int, now: int)
    requires Proper(p) && Mirrored(p) && transition < 2 && !Outbids(p, transition)
    ensures View(Offer(p, transition, napTime, now)) == Answer(View(p), transition == INFINITE, napTime, now)
  {
    assert transition == 0 || transition == 1;
    if p.Pact? { TenStates(p.mine.state); }
  }

  lemma CancelMeans(p: Pact, now: int, speed: int)
    requires Proper(p) && Mirrored(p) && speed > 0
    ensures View(Cancelled(p, now, speed)) == Withdrawal(View(p), now, speed)
  {
    if p.Pact? { TenStates(p.mine.state); }
  }

  lemma TenStates(s: nat)
    requires s < 10
    ensures s == 0 || s == 1 || s == 2 || s == 3 || s == 4 || s == 5 || s == 6 || s == 7 || s == 8 || s == 9
  {
  }

  /** The other empire sees the same, with the roles exchanged. */
  lemma OtherView(p: Pact)
    requires Proper(p) && Mirrored(p)
    ensures View(Swap(p)) == match View(p)
                             case Offered(mine, infinite, timer, since) => Offered(!mine, infinite, timer, since)
                             case Leaving(mine, timer, since) => Leaving(!mine, timer, since)
                             case other => other
  {
    if p.Pact? { TenStates(p.mine.state); }
  }
}
