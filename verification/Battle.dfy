/** The bookkeeping of a battle: what each phase takes from each kind of unit, and who owns the
    survivors. How hard each side hits is left open. */
module Battle {
  const BOMBER := 0
  const FIGHTER := 1
  const TRANSPORT := 2
  const CRUISER := 3
  const CARRIER := 4
  const SOLDIER := 5
  const DROID := 6
  const GOLIATH := 7
  const PHANTOM := 8
  const FLEET := 9
  const KINDS := 13

  ghost predicate NonNegative(u: seq<int>) {
    forall a :: 0 <= a < |u| ==> u[a] >= 0
  }

  // ---------------------------------------------------------------- one phase

  function Trunc(x: real): int { if x >= 0.0 then x.Floor else -((-x).Floor) }

  /** The cargo that goes down with `lost` carriers out of `all`; if there are none, whatever `stray` says. */
  function Share(lost: int, all: int, cargo: int, stray: int): int {
    if all == 0 then stray else Trunc(lost as real / all as real * cargo as real)
  }

  /** The losses asked of a fleet: direct hits, and what the lost carriers and then the lost
      transports had aboard. */
  function WithCarriers(u: seq<int>, r: seq<int>, stray: seq<int>): (h: seq<int>)
    requires |u| >= FLEET && |r| == |stray| == FLEET
    ensures |h| == FLEET
  {
    if r[CARRIER] == 0 then r
    else r[BOMBER := r[BOMBER] + Share(r[CARRIER], u[CARRIER], u[BOMBER], stray[BOMBER])]
          [FIGHTER := r[FIGHTER] + Share(r[CARRIER], u[CARRIER], u[FIGHTER], stray[FIGHTER])]
          [TRANSPORT := r[TRANSPORT] + Share(r[CARRIER], u[CARRIER], u[TRANSPORT], stray[TRANSPORT])]
  }

  function Hits(u: seq<int>, r: seq<int>, stray: seq<int>): (h: seq<int>)
    requires |u| >= FLEET && |r| == |stray| == FLEET
    ensures |h| == FLEET
  {
    var h := WithCarriers(u, r, stray);
    if h[TRANSPORT] == 0 then h
    else h[SOLDIER := h[SOLDIER] + Share(h[TRANSPORT], u[TRANSPORT], u[SOLDIER], stray[SOLDIER])]
          [DROID := h[DROID] + Share(h[TRANSPORT], u[TRANSPORT], u[DROID], stray[DROID])]
          [GOLIATH := h[GOLIATH] + Share(h[TRANSPORT], u[TRANSPORT], u[GOLIATH], stray[GOLIATH])]
  }

  /** What is really lost: no more than there is, and all of it if the hit went wrong. */
  function Loss(have: int, hit: int): (l: int)
    ensures have >= 0 ==> 0 <= l <= have
  {
    if hit < 0 || hit > have then have else hit
  }

  /** `part` whole units out of `cargo` go down with `lost` carriers out of `all`, rounded down. */
  predicate IsPart(part: int, lost: int, all: int, cargo: int) {
    part * all <= lost * cargo < (part + 1) * all
  }

  /** A hit `r` on a kind of unit that carriers or transports carry has become `h`. */
  predicate Aboard(h: int, r: int, lost: int, all: int, cargo: int) {
    (lost == 0 ==> h == r) && (lost > 0 && all > 0 ==> IsPart(h - r, lost, all, cargo))
  }

  /** What hits `r` ask of a fleet of `u` units in all: also of what lost carriers carry their part, and then, of what
      lost transports carry, theirs. */
  ghost predicate Asked(u: seq<int>, r: seq<int>, h: seq<int>)
    requires |u| >= FLEET && |r| == FLEET
  {
    && |h| == FLEET && h[CRUISER] == r[CRUISER] && h[CARRIER] == r[CARRIER] && h[PHANTOM] == r[PHANTOM]
    && Aboard(h[BOMBER], r[BOMBER], r[CARRIER], u[CARRIER], u[BOMBER])
    && Aboard(h[FIGHTER], r[FIGHTER], r[CARRIER], u[CARRIER], u[FIGHTER])
    && Aboard(h[TRANSPORT], r[TRANSPORT], r[CARRIER], u[CARRIER], u[TRANSPORT])
    && Aboard(h[SOLDIER], r[SOLDIER], h[TRANSPORT], u[TRANSPORT], u[SOLDIER])
    && Aboard(h[DROID], r[DROID], h[TRANSPORT], u[TRANSPORT], u[DROID])
    && Aboard(h[GOLIATH], r[GOLIATH], h[TRANSPORT], u[TRANSPORT], u[GOLIATH])
  }

  /** Hits `r` make `v` of the fleet `u`: what is asked is lost, as far as there is any; if that went wrong, all. */
  ghost predicate Phase(u: seq<int>, r: seq<int>, v: seq<int>, lost: seq<int>)
    requires |u| >= FLEET && |r| == |lost| == FLEET
  {
    && |v| == |u| && v[FLEET..] == u[FLEET..]
    && exists h :: Asked(u, r, h) && forall a :: 0 <= a < FLEET ==>
         lost[a] == (if 0 <= h[a] <= u[a] then h[a] else u[a]) && v[a] == u[a] - lost[a]
  }

  /** Add to three figures what went down with the carriers or transports. */
  method AddCargo(results: array<int>, off: nat, a: nat, b: nat, c: nat, x: int, y: int, z: int)
    requires off + FLEET <= results.Length && a < b < c < FLEET
    modifies results
    ensures var r := old(results[off..off+FLEET]);
            results[off..off+FLEET] == r[a := r[a] + x][b := r[b] + y][c := r[c] + z]
    ensures forall i :: 0 <= i < results.Length && !(off <= i < off + FLEET) ==> results[i] == old(results[i])
  {
    results[off+a] := results[off+a] + x;
    results[off+b] := results[off+b] + y;
    results[off+c] := results[off+c] + z;
  }

  lemma ShareIs(lost: int, all: int, cargo: int, stray: int)
    requires 0 <= lost && 0 < all && 0 <= cargo
    ensures var n := Share(lost, all, cargo, stray);
            n * all <= lost * cargo < (n + 1) * all && IsPart(n, lost, all, cargo) && n >= 0
  {
    var n, y := Share(lost, all, cargo, stray), lost as real / all as real * cargo as real;
    Quotient(lost as real, all as real, cargo as real);
    assert y >= 0.0 && n == y.Floor;
    Scaled(n as real, y, all as real);
    Scaled(y, (n + 1) as real, all as real);
    NotAll(y, (n + 1) as real, all as real);
    Whole(n, all, lost, cargo);
  }

  lemma Quotient(a: real, b: real, c: real)
    requires a >= 0.0 && b > 0.0 && c >= 0.0
    ensures a / b * c >= 0.0 && a / b * c * b == a * c
  {
    var x := a / b;
    assert x * b == a;
    assert x >= 0.0;
    assert x * c * b == x * b * c;
  }

  lemma Scaled(x: real, y: real, b: real)
    requires x <= y && b > 0.0
    ensures x * b <= y * b
  {
  }

  lemma NotAll(x: real, y: real, b: real)
    requires x < y && b > 0.0
    ensures x * b < y * b
  {
  }

  lemma Whole(n: int, all: int, lost: int, cargo: int)
    requires n as real * all as real <= lost as real * cargo as real < (n + 1) as real * all as real
    ensures n * all <= lost * cargo < (n + 1) * all
  {
    assert (n * all) as real == n as real * all as real;
    assert (lost * cargo) as real == lost as real * cargo as real;
    assert ((n + 1) * all) as real == (n + 1) as real * all as real;
  }

  lemma HitsAsked(u: seq<int>, r: seq<int>, stray: seq<int>)
    requires |u| >= FLEET && |r| == |stray| == FLEET && NonNegative(u)
    ensures Asked(u, r, Hits(u, r, stray))
  {
    hide Share;
    var h := Hits(u, r, stray);
    CargoAsked(u, r[CARRIER], CARRIER, BOMBER, stray);
    CargoAsked(u, r[CARRIER], CARRIER, FIGHTER, stray);
    CargoAsked(u, r[CARRIER], CARRIER, TRANSPORT, stray);
    CargoAsked(u, h[TRANSPORT], TRANSPORT, SOLDIER, stray);
    CargoAsked(u, h[TRANSPORT], TRANSPORT, DROID, stray);
    CargoAsked(u, h[TRANSPORT], TRANSPORT, GOLIATH, stray);
  }

  lemma CargoAsked(u: seq<int>, lost: int, ship: nat, a: nat, stray: seq<int>)
    requires |u| >= FLEET && |stray| == FLEET && NonNegative(u) && ship < FLEET && a < FLEET
    ensures lost > 0 && u[ship] > 0 ==> IsPart(Share(lost, u[ship], u[a], stray[a]), lost, u[ship], u[a])
  {
    if lost > 0 && u[ship] > 0 { ShareIs(lost, u[ship], u[a], stray[a]); }
  }

  /** battlePhaseUpdate, `results` being read and written from `off` on. */
  method PhaseUpdate(unit: array<int>, results: array<int>, off: nat, stray: seq<int>)
    requires unit != results && unit.Length >= FLEET && off + FLEET <= results.Length && |stray| == FLEET
    requires NonNegative(unit[..])
    modifies unit, results
    ensures var h := Hits(old(unit[..]), old(results[off..off+FLEET]), stray);
            forall a :: 0 <= a < FLEET ==>
              results[off+a] == Loss(old(unit[a]), h[a]) && unit[a] == old(unit[a]) - results[off+a]
    ensures Phase(old(unit[..]), old(results[off..off+FLEET]), unit[..], results[off..off+FLEET])
    ensures NonNegative(unit[..])
    ensures forall a :: FLEET <= a < unit.Length ==> unit[a] == old(unit[a])
    ensures forall i :: 0 <= i < results.Length && !(off <= i < off + FLEET) ==> results[i] == old(results[i])
  {
    hide Share, Loss;
    ghost var u, r := unit[..], results[off..off+FLEET];
    assert results[off+CARRIER] == r[CARRIER];
    if results[off+CARRIER] != 0 {
      var lost, all := results[off+CARRIER], unit[CARRIER];
      AddCargo(results, off, BOMBER, FIGHTER, TRANSPORT, Share(lost, all, unit[BOMBER], stray[BOMBER]),
               Share(lost, all, unit[FIGHTER], stray[FIGHTER]), Share(lost, all, unit[TRANSPORT], stray[TRANSPORT]));
    }
    ghost var h := WithCarriers(u, r, stray);
    assert results[off..off+FLEET] == h;
    assert results[off+TRANSPORT] == results[off..off+FLEET][TRANSPORT] == h[TRANSPORT];
    if results[off+TRANSPORT] != 0 {
      var lost, all := results[off+TRANSPORT], unit[TRANSPORT];
      AddCargo(results, off, SOLDIER, DROID, GOLIATH, Share(lost, all, unit[SOLDIER], stray[SOLDIER]),
               Share(lost, all, unit[DROID], stray[DROID]), Share(lost, all, unit[GOLIATH], stray[GOLIATH]));
    }
    TakeLosses(unit, results, off, Hits(u, r, stray));
    HitsPhase(u, r, stray, unit[..], results[off..off+FLEET]);
  }

  lemma HitsPhase(u: seq<int>, r: seq<int>, stray: seq<int>, v: seq<int>, lost: seq<int>)
    requires |v| == |u| >= FLEET && |r| == |stray| == |lost| == FLEET && NonNegative(u)
    requires forall a :: 0 <= a < FLEET ==> lost[a] == Loss(u[a], Hits(u, r, stray)[a]) && v[a] == u[a] - lost[a]
    requires forall a :: FLEET <= a < |u| ==> v[a] == u[a]
    ensures Phase(u, r, v, lost)
  {
    hide Hits, Asked;
    HitsAsked(u, r, stray);
  }

  /** The loop that takes the losses and trims the figures to what was there. */
  method TakeLosses(unit: array<int>, results: array<int>, off: nat, ghost h: seq<int>)
    requires unit != results && unit.Length >= FLEET && off + FLEET <= results.Length && |h| == FLEET
    requires NonNegative(unit[..]) && results[off..off+FLEET] == h
    modifies unit, results
    ensures forall a :: 0 <= a < FLEET ==>
              results[off+a] == Loss(old(unit[a]), h[a]) && unit[a] == old(unit[a]) - results[off+a]
    ensures NonNegative(unit[..])
    ensures forall a :: FLEET <= a < unit.Length ==> unit[a] == old(unit[a])
    ensures forall i :: 0 <= i < results.Length && !(off <= i < off + FLEET) ==> results[i] == old(results[i])
  {
    assert forall k :: 0 <= k < FLEET ==> results[off+k] == h[k];
    var a := 0;
    while a < FLEET
      invariant 0 <= a <= FLEET
      invariant forall k :: 0 <= k < a ==> results[off+k] == Loss(old(unit[k]), h[k]) && unit[k] == old(unit[k]) - results[off+k]
      invariant forall k :: a <= k < unit.Length ==> unit[k] == old(unit[k])
      invariant forall k :: a <= k < FLEET ==> results[off+k] == h[k]
      invariant forall i :: 0 <= i < results.Length && !(off <= i < off + FLEET) ==> results[i] == old(results[i])
    {
      if results[off+a] < 0 { results[off+a] := unit[a]; }
      unit[a] := unit[a] - results[off+a];
      if unit[a] < 0 {
        results[off+a] := results[off+a] + unit[a];
        unit[a] := 0;
      }
      a := a + 1;
    }
  }

  // ---------------------------------------------------------------- carriers and their cargo

  lemma AllAboardLost(lost: int, all: int, cargo: int, stray: int)
    requires 0 < all <= lost && cargo >= 0
    ensures Share(lost, all, cargo, stray) >= cargo
  {
    var x, c := lost as real / all as real, cargo as real;
    assert x >= 1.0;
    assert (x - 1.0) * c >= 0.0;
    assert x * c >= c;
  }

  lemma PartAboardSurvives(lost: int, all: int, cargo: int, stray: int)
    requires 0 <= lost < all && cargo > 0
    ensures 0 <= Share(lost, all, cargo, stray) < cargo
  {
    var x, c := lost as real / all as real, cargo as real;
    assert 0.0 <= x < 1.0;
    assert (1.0 - x) * c > 0.0;
    assert 0.0 <= x * c < c;
    TruncBelow(x * c, cargo);
  }

  lemma TruncBelow(y: real, n: int)
    requires 0.0 <= y < n as real
    ensures 0 <= Trunc(y) < n
  {
  }

  /** When the last carriers go, so does everything they carry, and with the last transports every
      soldier, droid and goliath. */
  lemma NothingSurvivesAboard(u: seq<int>, r: seq<int>, stray: seq<int>)
    requires |u| >= FLEET && |r| == |stray| == FLEET && NonNegative(u) && NonNegative(r)
    requires 0 < u[CARRIER] <= r[CARRIER]
    ensures var h := Hits(u, r, stray);
            && Loss(u[BOMBER], h[BOMBER]) == u[BOMBER] && Loss(u[FIGHTER], h[FIGHTER]) == u[FIGHTER]
            && Loss(u[TRANSPORT], h[TRANSPORT]) == u[TRANSPORT]
            && (u[TRANSPORT] > 0 ==> Loss(u[SOLDIER], h[SOLDIER]) == u[SOLDIER] && Loss(u[DROID], h[DROID]) == u[DROID]
                                     && Loss(u[GOLIATH], h[GOLIATH]) == u[GOLIATH])
  {
    hide Share;
    AllAboardLost(r[CARRIER], u[CARRIER], u[BOMBER], stray[BOMBER]);
    AllAboardLost(r[CARRIER], u[CARRIER], u[FIGHTER], stray[FIGHTER]);
    AllAboardLost(r[CARRIER], u[CARRIER], u[TRANSPORT], stray[TRANSPORT]);
    var t := WithCarriers(u, r, stray)[TRANSPORT];
    if u[TRANSPORT] > 0 {
      AllAboardLost(t, u[TRANSPORT], u[SOLDIER], stray[SOLDIER]);
      AllAboardLost(t, u[TRANSPORT], u[DROID], stray[DROID]);
      AllAboardLost(t, u[TRANSPORT], u[GOLIATH], stray[GOLIATH]);
    }
  }

  /** What flies inside carriers and is not hit itself goes down whole exactly if the last carrier does, and
      likewise what transports carry. */
  lemma CargoGoesIff(u: seq<int>, r: seq<int>, stray: seq<int>, a: nat)
    requires |u| >= FLEET && |r| == |stray| == FLEET && NonNegative(u) && NonNegative(r)
    requires a < FLEET && u[a] > 0 && r[a] == 0
    ensures var h := Hits(u, r, stray);
            && (a in {BOMBER, FIGHTER, TRANSPORT} && u[CARRIER] > 0 ==>
                  (Loss(u[a], h[a]) == u[a] <==> u[CARRIER] <= h[CARRIER]))
            && (a in {SOLDIER, DROID, GOLIATH} && u[TRANSPORT] > 0 && h[TRANSPORT] >= 0 ==>
                  (Loss(u[a], h[a]) == u[a] <==> u[TRANSPORT] <= h[TRANSPORT]))
  {
    hide Share;
    var h := Hits(u, r, stray);
    if a in {BOMBER, FIGHTER, TRANSPORT} && u[CARRIER] > 0 {
      if u[CARRIER] <= h[CARRIER] { AllAboardLost(h[CARRIER], u[CARRIER], u[a], stray[a]); }
      else { PartAboardSurvives(h[CARRIER], u[CARRIER], u[a], stray[a]); }
    }
    if a in {SOLDIER, DROID, GOLIATH} && u[TRANSPORT] > 0 && h[TRANSPORT] >= 0 {
      if u[TRANSPORT] <= h[TRANSPORT] { AllAboardLost(h[TRANSPORT], u[TRANSPORT], u[a], stray[a]); }
      else { PartAboardSurvives(h[TRANSPORT], u[TRANSPORT], u[a], stray[a]); }
    }
  }

  // ---------------------------------------------------------------- four phases

  /** A fleet after one blow. */
  function After(u: seq<int>, hits: seq<int>, stray: seq<int>): (v: seq<int>)
    requires |u| >= FLEET && |hits| == |stray| == FLEET
    ensures |v| == |u|
  {
    var h := Hits(u, hits, stray);
    seq(|u|, a requires 0 <= a < |u| => if a < FLEET then u[a] - Loss(u[a], h[a]) else u[a])
  }

  /** What a phase does: the defender avoids it, or both sides ask losses of the other; the attacker
      may leave afterwards. */
  datatype Blow = Avoided | Struck(att: seq<int>, def: seq<int>, strayAtt: seq<int>, strayDef: seq<int>, flee: bool)

  predicate BlowFits(b: Blow) {
    b.Struck? ==> |b.att| == |b.def| == |b.strayAtt| == |b.strayDef| == FLEET
  }

  /** A fleet of side 0, the attacker, or 1 after the blows, up to the attacker's flight. */
  function Survivors(u: seq<int>, blows: seq<Blow>, side: nat): (v: seq<int>)
    requires |u| >= FLEET && forall i :: 0 <= i < |blows| ==> BlowFits(blows[i])
    ensures |v| == |u|
    decreases |blows|
  {
    if blows == [] then u
    else
      assert BlowFits(blows[0]);
      match blows[0]
      case Avoided => Survivors(u, blows[1..], side)
      case Struck(att, def, strayAtt, strayDef, flee) =>
        var v := if side == 0 then After(u, att, strayAtt) else After(u, def, strayDef);
        if flee then v else Survivors(v, blows[1..], side)
  }

  /** The attacker flees in one of the phases. */
  function Flees(blows: seq<Blow>): bool {
    exists i :: 0 <= i < |blows| && blows[i].Struck? && blows[i].flee
  }

  const PHASES := 4
  const REPORT := 4

  /** Where the losses of side 0, the attacker, or 1 in phase `p` are reported. */
  function Segment(p: nat, side: nat): nat { REPORT + (2 * p + side) * FLEET }

  /** The losses of a kind of unit over all phases. */
  function Told(r: seq<int>, side: nat, a: nat): int
    requires side < 2 && a < FLEET && |r| >= REPORT + 8 * FLEET
  {
    r[Segment(0, side) + a] + r[Segment(1, side) + a] + r[Segment(2, side) + a] + r[Segment(3, side) + a]
  }

  ghost predicate Blank(r: seq<int>, from: nat) {
    forall i :: from <= i < REPORT + 8 * FLEET && i < |r| ==> r[i] == 0
  }

  /** So far the losses told are the losses suffered. */
  ghost predicate Accounted(base: seq<int>, unit: seq<int>, r: seq<int>, side: nat) {
    && side < 2 && |r| >= REPORT + 8 * FLEET && |unit| == |base| >= FLEET && NonNegative(unit) && unit[FLEET..] == base[FLEET..]
    && forall a :: 0 <= a < FLEET ==> unit[a] == base[a] - Told(r, side, a) && Told(r, side, a) >= 0
  }

  method SetHits(results: array<int>, off: nat, hits: seq<int>)
    requires |hits| == FLEET && off + FLEET <= results.Length
    modifies results
    ensures results[off..off+FLEET] == hits
    ensures forall i :: 0 <= i < results.Length && !(off <= i < off + FLEET) ==> results[i] == old(results[i])
  {
    var a := 0;
    while a < FLEET
      invariant 0 <= a <= FLEET && results[off..off+a] == hits[..a]
      invariant forall i :: 0 <= i < results.Length && !(off <= i < off + FLEET) ==> results[i] == old(results[i])
    {
      results[off+a] := hits[a];
      a := a + 1;
    }
  }

  /** One side's losses of one phase. */
  method Strike(unit: array<int>, results: array<int>, p: nat, side: nat, hits: seq<int>, stray: seq<int>, ghost base: seq<int>)
    requires unit != results && p < PHASES && side < 2 && |hits| == |stray| == FLEET
    requires Accounted(base, unit[..], results[..], side) && (forall i :: Segment(p, side) <= i < Segment(p, side) + FLEET ==> results[i] == 0)
    modifies unit, results
    ensures Accounted(base, unit[..], results[..], side) && unit[..] == After(old(unit[..]), hits, stray)
    ensures forall a :: 0 <= a < FLEET ==> results[Segment(p, side)+a] == old(unit[a]) - unit[a]
    ensures forall i :: 0 <= i < results.Length && !(Segment(p, side) <= i < Segment(p, side) + FLEET) ==> results[i] == old(results[i])
  {
    hide Hits, Loss, Phase;
    var off := Segment(p, side);
    ghost var u, r := unit[..], results[..];
    SetHits(results, off, hits);
    PhaseUpdate(unit, results, off, stray);
    forall a | 0 <= a < FLEET
      ensures unit[a] == base[a] - Told(results[..], side, a) && Told(results[..], side, a) >= 0
    {
      ToldOne(r, results[..], p, side, a);
      LossBounds(u[a], Hits(u, hits, stray)[a]);
    }
    assert unit[FLEET..] == u[FLEET..];
  }

  lemma LossBounds(have: int, hit: int)
    requires have >= 0
    ensures 0 <= Loss(have, hit) <= have
  {
  }

  /** Only the term of phase `p` changes. */
  lemma ToldOne(r: seq<int>, s: seq<int>, p: nat, side: nat, a: nat)
    requires |r| == |s| >= REPORT + 8 * FLEET && p < PHASES && side < 2 && a < FLEET && r[Segment(p, side)+a] == 0
    requires forall i :: 0 <= i < |r| && !(Segment(p, side) <= i < Segment(p, side) + FLEET) ==> s[i] == r[i]
    ensures Told(s, side, a) == Told(r, side, a) + s[Segment(p, side)+a]
  {
  }

  /** The other side's losses stand elsewhere. */
  lemma OtherSide(base: seq<int>, unit: seq<int>, r: seq<int>, s: seq<int>, p: nat, side: nat)
    requires side < 2 && p < PHASES && |r| == |s| && Accounted(base, unit, r, 1 - side)
    requires forall i :: 0 <= i < |r| && !(Segment(p, side) <= i < Segment(p, side) + FLEET) ==> s[i] == r[i]
    ensures Accounted(base, unit, s, 1 - side)
  {
    var other: nat := 1 - side;
    forall a: nat | a < FLEET ensures Told(s, other, a) == Told(r, other, a) { }
  }

  /** Both sides' losses of one phase. */
  method StrikeBoth(att: array<int>, def: array<int>, results: array<int>, p: nat, blow: Blow, ghost att0: seq<int>, ghost def0: seq<int>)
    requires att != def && att != results && def != results && p < PHASES && blow.Struck? && BlowFits(blow)
    requires Accounted(att0, att[..], results[..], 0) && Accounted(def0, def[..], results[..], 1) && Blank(results[..], Segment(p, 0))
    modifies att, def, results
    ensures Accounted(att0, att[..], results[..], 0) && Accounted(def0, def[..], results[..], 1)
    ensures Blank(results[..], Segment(p + 1, 0))
    ensures att[..] == After(old(att[..]), blow.att, blow.strayAtt) && def[..] == After(old(def[..]), blow.def, blow.strayDef)
    ensures forall a :: 0 <= a < FLEET ==> results[Segment(p, 0)+a] == old(att[a]) - att[a]
    ensures forall a :: 0 <= a < FLEET ==> results[Segment(p, 1)+a] == old(def[a]) - def[a]
    ensures forall i :: 0 <= i < Segment(p, 0) && i < results.Length ==> results[i] == old(results[i])
  {
    hide After, Told, Accounted;
    AccountedMeans(att0, att[..], results[..], 0);
    AccountedMeans(def0, def[..], results[..], 1);
    ghost var r := results[..];
    Strike(att, results, p, 0, blow.att, blow.strayAtt, att0);
    OtherSide(def0, def[..], r, results[..], p, 0);
    r := results[..];
    Strike(def, results, p, 1, blow.def, blow.strayDef, def0);
    OtherSide(att0, att[..], r, results[..], p, 1);
  }

  /** The phases of a battle, to the end or to the attacker's flight. */
  method FightPhases(att: array<int>, def: array<int>, results: array<int>, blows: seq<Blow>) returns (flee: bool)
    requires att != def && att != results && def != results && results.Length >= REPORT + 8 * FLEET
    requires att.Length >= FLEET && def.Length >= FLEET && NonNegative(att[..]) && NonNegative(def[..])
    requires |blows| == PHASES && (forall i :: 0 <= i < PHASES ==> BlowFits(blows[i])) && Blank(results[..], REPORT)
    modifies att, def, results
    ensures Accounted(old(att[..]), att[..], results[..], 0) && Accounted(old(def[..]), def[..], results[..], 1)
    ensures att[..] == Survivors(old(att[..]), blows, 0) && def[..] == Survivors(old(def[..]), blows, 1)
    ensures flee == Flees(blows)
    ensures Reported(results[..], old(att[..]), blows, 0, PHASES) && Reported(results[..], old(def[..]), blows, 1, PHASES)
    ensures forall i :: 0 <= i < REPORT ==> results[i] == old(results[i])
  {
    hide Accounted, Told, After, Survivors, Flees, Reported;
    ghost var att0, def0 := att[..], def[..];
    NothingTold(att0, results[..], 0);
    NothingTold(def0, results[..], 1);
    NothingReported(results[..], att0, blows, 0);
    NothingReported(results[..], def0, blows, 1);
    flee := false;
    var p := 0;
    assert blows[..0] == [];
    while p < PHASES
      invariant 0 <= p <= PHASES && Blank(results[..], Segment(p, 0)) && flee == false
      invariant Accounted(att0, att[..], results[..], 0) && Accounted(def0, def[..], results[..], 1)
      invariant att[..] == Survivors(att0, blows[..p], 0) && def[..] == Survivors(def0, blows[..p], 1)
      invariant !Flees(blows[..p])
      invariant Reported(results[..], att0, blows, 0, p) && Reported(results[..], def0, blows, 1, p)
      invariant forall i :: 0 <= i < REPORT ==> results[i] == old(results[i])
    {
      flee := false;
      var blow := blows[p];
      OneMoreBlow(att0, blows, p, 0);
      OneMoreBlow(def0, blows, p, 1);
      ghost var r := results[..];
      if blow.Struck? {
        StrikeBoth(att, def, results, p, blow, att0, def0);
        flee := blow.flee;
      }
      OneMoreReported(r, results[..], att0, blows, p, 0);
      OneMoreReported(r, results[..], def0, blows, p, 1);
      if flee { break; }
      p := p + 1;
    }
    Ended(results[..], att0, blows, p, flee, 0);
    Ended(results[..], def0, blows, p, flee, 1);
  }

  /** The report of phase `p` on a kind of unit: what there was before it minus what there was after it. */
  function PhaseLoss(u: seq<int>, blows: seq<Blow>, side: nat, p: nat, a: nat): int
    requires |u| >= FLEET && (forall i :: 0 <= i < |blows| ==> BlowFits(blows[i])) && p < |blows| && a < FLEET
  {
    Survivors(u, blows[..p], side)[a] - Survivors(u, blows[..p+1], side)[a]
  }

  /** The first `n` phases are reported one by one as they happened. */
  ghost predicate Reported(r: seq<int>, u: seq<int>, blows: seq<Blow>, side: nat, n: nat)
    requires |u| >= FLEET && (forall i :: 0 <= i < |blows| ==> BlowFits(blows[i])) && side < 2
  {
    && n <= PHASES == |blows| && |r| >= REPORT + 8 * FLEET
    && forall q: nat, a: nat :: q < n && a < FLEET ==> r[Segment(q, side) + a] == PhaseLoss(u, blows, side, q, a)
  }

  lemma NothingReported(r: seq<int>, u: seq<int>, blows: seq<Blow>, side: nat)
    requires |u| >= FLEET && |blows| == PHASES && side < 2 && |r| >= REPORT + 8 * FLEET
    requires forall i :: 0 <= i < |blows| ==> BlowFits(blows[i])
    ensures Reported(r, u, blows, side, 0) && Survivors(u, [], side) == u && !Flees([])
  {
  }

  lemma {:induction false} SurvivorsSplit(u: seq<int>, x: seq<Blow>, y: seq<Blow>, side: nat)
    requires |u| >= FLEET && (forall i :: 0 <= i < |x| ==> BlowFits(x[i])) && forall i :: 0 <= i < |y| ==> BlowFits(y[i])
    ensures Survivors(u, x + y, side) == if Flees(x) then Survivors(u, x, side) else Survivors(Survivors(u, x, side), y, side)
    decreases |x|
  {
    hide After, Hits;
    if x == [] {
      assert x + y == y;
    } else {
      assert (x + y)[1..] == x[1..] + y && (x + y)[0] == x[0];
      assert x == [x[0]] + x[1..];
      FleesSplit([x[0]], x[1..]);
      SurvivorsStep(u, x, side);
      SurvivorsStep(u, x + y, side);
      var b := x[0];
      if b.Avoided? {
        SurvivorsSplit(u, x[1..], y, side);
      } else if !b.flee {
        SurvivorsSplit(if side == 0 then After(u, b.att, b.strayAtt) else After(u, b.def, b.strayDef), x[1..], y, side);
      }
    }
  }

  lemma FleesSplit(x: seq<Blow>, y: seq<Blow>)
    ensures Flees(x + y) <==> Flees(x) || Flees(y)
    ensures |x| == 1 ==> (Flees(x) <==> x[0].Struck? && x[0].flee)
  {
    if Flees(x) {
      var i :| 0 <= i < |x| && x[i].Struck? && x[i].flee;
      assert (x + y)[i] == x[i];
    }
    if Flees(y) {
      var i :| 0 <= i < |y| && y[i].Struck? && y[i].flee;
      assert (x + y)[|x| + i] == y[i];
    }
  }

  lemma OneMoreBlow(u: seq<int>, blows: seq<Blow>, p: nat, side: nat)
    requires |u| >= FLEET && (forall i :: 0 <= i < |blows| ==> BlowFits(blows[i])) && p < |blows| && !Flees(blows[..p])
    ensures var b, v := blows[p], Survivors(u, blows[..p], side);
            && BlowFits(b) && (Flees(blows[..p+1]) <==> b.Struck? && b.flee)
            && Survivors(u, blows[..p+1], side) ==
               if b.Avoided? then v else if side == 0 then After(v, b.att, b.strayAtt) else After(v, b.def, b.strayDef)
  {
    hide After;
    assert blows[..p+1] == blows[..p] + [blows[p]];
    FleesSplit(blows[..p], [blows[p]]);
    FleesSplit([blows[p]], []);
    SurvivorsSplit(u, blows[..p], [blows[p]], side);
    var v := Survivors(u, blows[..p], side);
    SurvivorsStep(v, [blows[p]], side);
  }

  /** What phase `p` wrote is what it cost; the earlier reports stay. */
  lemma OneMoreReported(r: seq<int>, s: seq<int>, u: seq<int>, blows: seq<Blow>, p: nat, side: nat)
    requires |u| >= FLEET && |blows| == PHASES && (forall i :: 0 <= i < |blows| ==> BlowFits(blows[i])) && p < PHASES && side < 2
    requires Reported(r, u, blows, side, p) && |s| == |r|
    requires forall i :: 0 <= i < Segment(p, 0) ==> s[i] == r[i]
    requires forall a: nat :: a < FLEET ==> s[Segment(p, side) + a] == PhaseLoss(u, blows, side, p, a)
    ensures Reported(s, u, blows, side, p + 1)
  {
    hide PhaseLoss;
  }

  /** After the last phase, or after the attacker's flight, nothing more is lost. */
  lemma Ended(r: seq<int>, u: seq<int>, blows: seq<Blow>, p: nat, flee: bool, side: nat)
    requires |u| >= FLEET && |blows| == PHASES && (forall i :: 0 <= i < |blows| ==> BlowFits(blows[i])) && side < 2
    requires if flee then p < PHASES && Flees(blows[..p+1]) && Reported(r, u, blows, side, p + 1) && Blank(r, Segment(p + 1, 0))
             else p == PHASES && !Flees(blows[..p]) && Reported(r, u, blows, side, p)
    ensures flee == Flees(blows) && Reported(r, u, blows, side, PHASES)
    ensures Survivors(u, blows, side) == Survivors(u, blows[..if flee then p + 1 else p], side)
  {
    assert blows[..PHASES] == blows;
    if flee {
      var x := blows[..p+1];
      forall q: nat | p + 1 <= q <= PHASES
        ensures Survivors(u, blows[..q], side) == Survivors(u, x, side) && Flees(blows[..q])
      {
        assert blows[..q] == x + blows[p+1..q];
        SurvivorsSplit(u, x, blows[p+1..q], side);
        FleesSplit(x, blows[p+1..q]);
      }
    }
  }

  lemma SurvivorsStep(u: seq<int>, blows: seq<Blow>, side: nat)
    requires |u| >= FLEET && blows != [] && forall i :: 0 <= i < |blows| ==> BlowFits(blows[i])
    ensures var b := blows[0];
            Survivors(u, blows, side) ==
            if b.Avoided? then Survivors(u, blows[1..], side)
            else var v := if side == 0 then After(u, b.att, b.strayAtt) else After(u, b.def, b.strayDef);
                 if b.flee then v else Survivors(v, blows[1..], side)
  {
  }

  lemma NothingTold(base: seq<int>, r: seq<int>, side: nat)
    requires side < 2 && |r| >= REPORT + 8 * FLEET && |base| >= FLEET && NonNegative(base) && Blank(r, REPORT)
    ensures Accounted(base, base, r, side)
  {
  }

  // ---------------------------------------------------------------- the phases one by one

  /** `v[p]` is what is left of the fleet `u` before phase `p`. What a phase costs a side stands in the report: nothing
      if it is avoided or the attacker has fled before. */
  ghost predicate Course(u: seq<int>, v: seq<seq<int>>, blows: seq<Blow>, side: nat, r: seq<int>)
    requires |u| >= FLEET && |blows| == PHASES && (forall i :: 0 <= i < PHASES ==> BlowFits(blows[i])) && side < 2
  {
    && |v| == PHASES + 1 && v[0] == u && |r| >= 76
    && forall p: nat :: p < PHASES ==> CoursePhase(v[p], v[p+1], blows, p, side, r)
  }

  ghost predicate CoursePhase(u: seq<int>, v: seq<int>, blows: seq<Blow>, p: nat, side: nat, r: seq<int>)
    requires |blows| == PHASES && (forall i :: 0 <= i < PHASES ==> BlowFits(blows[i])) && p < PHASES && side < 2 && |r| >= 76
  {
    var at := 4 + 18 * p + 9 * side;
    && |u| >= FLEET && BlowFits(blows[p])
    && if blows[p].Avoided? || exists q :: 0 <= q < p && blows[q].Struck? && blows[q].flee
       then v == u && r[at..at+9] == [0, 0, 0, 0, 0, 0, 0, 0, 0]
       else Phase(u, if side == 0 then blows[p].att else blows[p].def, v, r[at..at+9])
  }

  lemma {:induction false} SurvivorsNonNegative(u: seq<int>, blows: seq<Blow>, side: nat)
    requires |u| >= FLEET && NonNegative(u) && forall i :: 0 <= i < |blows| ==> BlowFits(blows[i])
    ensures NonNegative(Survivors(u, blows, side))
    decreases |blows|
  {
    hide Hits, Loss;
    if blows != [] {
      SurvivorsStep(u, blows, side);
      var b := blows[0];
      if b.Avoided? {
        SurvivorsNonNegative(u, blows[1..], side);
      } else {
        var hits, stray := if side == 0 then b.att else b.def, if side == 0 then b.strayAtt else b.strayDef;
        var v := After(u, hits, stray);
        forall a | 0 <= a < FLEET ensures v[a] >= 0 { LossBounds(u[a], Hits(u, hits, stray)[a]); }
        SurvivorsNonNegative(v, blows[1..], side);
      }
    }
  }

  lemma SurvivorsCourse(u: seq<int>, blows: seq<Blow>, side: nat, r: seq<int>)
    requires |u| >= FLEET && NonNegative(u) && (forall i :: 0 <= i < |blows| ==> BlowFits(blows[i])) && side < 2
    requires Reported(r, u, blows, side, PHASES)
    ensures exists v :: Course(u, v, blows, side, r) && |v| == PHASES + 1 && v[PHASES] == Survivors(u, blows, side)
  {
    hide Survivors, Reported, CoursePhase;
    NothingSuffered(u, side);
    assert blows[..0] == [] && blows[..PHASES] == blows && |r| >= 76 by { PhaseReport(r, u, blows, side, 0); }
    var v := seq(PHASES + 1, p requires 0 <= p <= PHASES => Survivors(u, blows[..p], side));
    forall p: nat | p < PHASES ensures CoursePhase(v[p], v[p+1], blows, p, side, r) {
      SurvivorsPhase(u, blows, side, r, p);
    }
    assert Course(u, v, blows, side, r);
  }

  lemma NothingSuffered(u: seq<int>, side: nat)
    requires |u| >= FLEET
    ensures Survivors(u, [], side) == u
  {
  }

  lemma PhaseReport(r: seq<int>, u: seq<int>, blows: seq<Blow>, side: nat, p: nat)
    requires |u| >= FLEET && (forall i :: 0 <= i < |blows| ==> BlowFits(blows[i])) && side < 2 && p < PHASES
    requires Reported(r, u, blows, side, PHASES)
    ensures |blows| == PHASES && |r| >= 76
    ensures var lost := r[4+18*p+9*side..4+18*p+9*side+9];
            forall a :: 0 <= a < FLEET ==> lost[a] == Survivors(u, blows[..p], side)[a] - Survivors(u, blows[..p+1], side)[a]
  {
    hide Survivors;
    var lost := r[4+18*p+9*side..4+18*p+9*side+9];
    forall a | 0 <= a < FLEET
      ensures lost[a] == Survivors(u, blows[..p], side)[a] - Survivors(u, blows[..p+1], side)[a]
    {
      assert r[Segment(p, side) + a] == PhaseLoss(u, blows, side, p, a);
    }
  }

  lemma SurvivorsPhase(u: seq<int>, blows: seq<Blow>, side: nat, r: seq<int>, p: nat)
    requires |u| >= FLEET && NonNegative(u) && (forall i :: 0 <= i < |blows| ==> BlowFits(blows[i])) && side < 2 && p < PHASES
    requires |blows| == PHASES && Reported(r, u, blows, side, PHASES)
    ensures |r| >= 76 && CoursePhase(Survivors(u, blows[..p], side), Survivors(u, blows[..p+1], side), blows, p, side, r)
  {
    hide Survivors, Reported, Hits, Loss, Phase, After, Flees, NonNegative;
    PhaseReport(r, u, blows, side, p);
    SurvivorsNonNegative(u, blows[..p], side);
    var x, v, lost := Survivors(u, blows[..p], side), Survivors(u, blows[..p+1], side), r[4+18*p+9*side..4+18*p+9*side+9];
    FledBefore(blows, p);
    if Flees(blows[..p]) {
      assert blows[..p+1] == blows[..p] + [blows[p]];
      SurvivorsSplit(u, blows[..p], [blows[p]], side);
      assert lost == [0, 0, 0, 0, 0, 0, 0, 0, 0];
    } else {
      OneMoreBlow(u, blows, p, side);
      var b := blows[p];
      if b.Struck? {
        var hits, stray := if side == 0 then b.att else b.def, if side == 0 then b.strayAtt else b.strayDef;
        AfterPhase(x, hits, stray, v, lost);
      } else {
        assert lost == [0, 0, 0, 0, 0, 0, 0, 0, 0];
      }
    }
  }

  lemma FledBefore(blows: seq<Blow>, p: nat)
    requires p <= |blows|
    ensures Flees(blows[..p]) <==> exists q :: 0 <= q < p && blows[q].Struck? && blows[q].flee
  {
    assert forall q :: 0 <= q < p ==> blows[..p][q] == blows[q];
  }

  lemma AfterPhase(u: seq<int>, hits: seq<int>, stray: seq<int>, v: seq<int>, lost: seq<int>)
    requires |u| >= FLEET && |hits| == |stray| == |lost| == FLEET && NonNegative(u) && v == After(u, hits, stray)
    requires forall a :: 0 <= a < FLEET ==> lost[a] == u[a] - v[a]
    ensures Phase(u, hits, v, lost)
  {
    hide Hits, Loss;
    HitsPhase(u, hits, stray, v, lost);
  }

  // ---------------------------------------------------------------- the aftermath

  /** The low 32 bits of a count. */
  function Low(n: int): bv32 { (n % 0x1_0000_0000) as bv32 }

  lemma LowIsZero(n: int)
    ensures Low(n) == 0 <==> n % 0x1_0000_0000 == 0
  {
  }

  lemma OrIsZero(x: bv32, y: bv32)
    ensures x | y == 0 <==> x == 0 && y == 0
  {
  }

  /** Some count is not a multiple of 2^32. */
  predicate Noticed(u: seq<int>) {
    exists a :: 0 <= a < FLEET && a < |u| && u[a] % 0x1_0000_0000 != 0
  }

  /** The defender's units are lost from the garrison first; what it cannot cover, from the main fleet. */
  function Garrison(planet: int, lost: int): int { if planet - lost < 0 then 0 else planet - lost }
  function Main(planet: int, main: int, lost: int): int { if planet - lost < 0 then main + (planet - lost) else main }

  /** The part of the main fleet that the portals bring to the defence. */
  function Covered(cover: real, main: int): int { Trunc(cover * main as real) }

  lemma CoverBounds(cover: real, main: int)
    requires 0.0 <= cover <= 1.0 && main >= 0
    ensures 0 <= Covered(cover, main) <= main
  {
    var m := main as real;
    assert 0.0 <= cover * m;
    assert (1.0 - cover) * m >= 0.0;
    assert cover * m <= m;
  }

  /** Nothing is lost twice and nothing is left out. */
  lemma DefenceAddsUp(planet: int, main: int, cover: real, lost: int)
    requires planet >= 0 && main >= 0 && 0.0 <= cover <= 1.0 && 0 <= lost <= planet + Covered(cover, main)
    ensures Garrison(planet, lost) + Main(planet, main, lost) == planet + main - lost
    ensures Garrison(planet, lost) >= 0 && Main(planet, main, lost) >= main - Covered(cover, main) >= 0
  {
    CoverBounds(cover, main);
  }

  /** The defence: the garrison, and of the main fleet what the portals cover. */
  function Mustered(planet: seq<int>, main: seq<int>, cover: real): (u: seq<int>)
    requires |planet| == |main| == KINDS
    ensures |u| == FLEET
  {
    seq(FLEET, a requires 0 <= a < FLEET => planet[a] + Covered(cover, main[a]))
  }

  method Muster(planet: array<int>, main: array<int>, cover: real) returns (def: array<int>)
    requires planet.Length == main.Length == KINDS && NonNegative(planet[..]) && NonNegative(main[..]) && 0.0 <= cover <= 1.0
    ensures fresh(def) && def.Length == FLEET && NonNegative(def[..])
    ensures def[..] == Mustered(planet[..], main[..], cover)
  {
    hide Covered;
    def := new int[FLEET];
    var a := 0;
    while a < FLEET
      invariant 0 <= a <= FLEET
      invariant forall k :: 0 <= k < a ==> def[k] == planet[k] + Covered(cover, main[k]) && def[k] >= 0
    {
      CoverBounds(cover, main[a]);
      def[a] := planet[a] + Covered(cover, main[a]);
      a := a + 1;
    }
  }

  /** The loop after the last phase: who lost what, and whether any count is noticed. */
  method Settle(att: array<int>, planet: array<int>, main: array<int>, base: array<int>, def: array<int>)
    returns (b: bool, stationleft: bool)
    requires att.Length == planet.Length == main.Length == KINDS && base.Length == def.Length == FLEET
    requires planet != main && planet != att && main != att && base != planet && base != main && def != planet && def != main
    modifies planet, main
    ensures forall a :: 0 <= a < FLEET ==>
              planet[a] == Garrison(old(planet[a]), base[a] - def[a]) && main[a] == Main(old(planet[a]), old(main[a]), base[a] - def[a])
    ensures planet[FLEET..] == old(planet[FLEET..]) && main[FLEET..] == old(main[FLEET..])
    ensures b == Noticed(att[..]) && stationleft == Noticed(planet[..])
  {
    hide Low;
    var bits, station: bv32 := 0, 0;
    var a := 0;
    while a < FLEET
      invariant 0 <= a <= FLEET
      invariant forall k :: 0 <= k < a ==> planet[k] == Garrison(old(planet[k]), base[k] - def[k])
      invariant forall k :: 0 <= k < a ==> main[k] == Main(old(planet[k]), old(main[k]), base[k] - def[k])
      invariant forall k :: a <= k < KINDS ==> planet[k] == old(planet[k]) && main[k] == old(main[k])
      invariant bits == 0 <==> forall k :: 0 <= k < a ==> att[k] % 0x1_0000_0000 == 0
      invariant station == 0 <==> forall k :: 0 <= k < a ==> planet[k] % 0x1_0000_0000 == 0
    {
      OrIsZero(bits, Low(att[a]));
      LowIsZero(att[a]);
      bits := bits | Low(att[a]);
      planet[a] := planet[a] - (base[a] - def[a]);
      if planet[a] < 0 {
        main[a] := main[a] + planet[a];
        planet[a] := 0;
      }
      OrIsZero(station, Low(planet[a]));
      LowIsZero(planet[a]);
      station := station | Low(planet[a]);
      a := a + 1;
    }
    b, stationleft := bits != 0, station != 0;
  }

  /** The garrison that is left, all kinds of units. */
  function GarrisonLeft(planet: seq<int>, r: seq<int>): (g: seq<int>)
    requires |planet| == KINDS && |r| >= REPORT + 8 * FLEET
    ensures |g| == KINDS
  {
    seq(KINDS, a requires 0 <= a < KINDS => if a < FLEET then Garrison(planet[a], Told(r, 1, a)) else planet[a])
  }

  function Zeros(): (z: seq<int>)
    ensures |z| == KINDS
  {
    seq(KINDS, a => 0)
  }

  method Deduct(total: array<int>, base: array<int>, unit: array<int>)
    requires total.Length >= FLEET && base.Length >= FLEET && unit.Length >= FLEET && total != base && total != unit
    modifies total
    ensures forall a :: 0 <= a < FLEET ==> total[a] == old(total[a]) - (base[a] - unit[a])
    ensures total[FLEET..] == old(total[FLEET..])
  {
    var a := 0;
    while a < FLEET
      invariant 0 <= a <= FLEET
      invariant forall k :: 0 <= k < a ==> total[k] == old(total[k]) - (base[k] - unit[k])
      invariant forall k :: a <= k < total.Length ==> total[k] == old(total[k])
    {
      total[a] := total[a] - (base[a] - unit[a]);
      a := a + 1;
    }
  }

  method Clear(results: array<int>)
    requires results.Length >= REPORT + 8 * FLEET
    modifies results
    ensures Blank(results[..], 0)
  {
    var i := 0;
    while i < REPORT + 8 * FLEET
      invariant 0 <= i <= REPORT + 8 * FLEET && forall k :: 0 <= k < i ==> results[k] == 0
    {
      results[i] := 0;
      i := i + 1;
    }
  }

  method CopyOf(u: array<int>) returns (c: array<int>)
    ensures fresh(c) && c[..] == u[..]
  {
    c := new int[u.Length];
    var i := 0;
    while i < u.Length
      invariant 0 <= i <= u.Length && c[..i] == u[..i]
    {
      c[i] := u[i];
      i := i + 1;
    }
  }

  method Fill(u: array<int>, from: seq<int>, n: nat)
    requires u.Length == KINDS && n <= |from| && n <= KINDS
    modifies u
    ensures u[..n] == from[..n] && u[n..] == Zeros()[n..]
  {
    var i := 0;
    while i < KINDS
      invariant 0 <= i <= KINDS && forall k :: 0 <= k < i ==> u[k] == if k < n then from[k] else 0
    {
      u[i] := if i < n then from[i] else 0;
      i := i + 1;
    }
  }

  /** What the defender owns afterwards is what was there before without the losses reported. */
  ghost predicate NoneVanishes(planet: seq<int>, main: seq<int>, r: seq<int>, main': seq<int>, stationed: bool, station: seq<int>)
    requires |planet| == |main| == |main'| == KINDS && |r| >= REPORT + 8 * FLEET && (stationed ==> |station| == KINDS)
  {
    forall a :: 0 <= a < KINDS ==>
      main'[a] + (if stationed then station[a] else 0) == planet[a] + main[a] - (if a < FLEET then Told(r, 1, a) else 0)
  }

  /** A garrison that the flag does not overlook, or that is not there. */
  ghost predicate NotOverlooked(g: seq<int>)
    requires |g| == KINDS
  {
    || (exists a :: 0 <= a < FLEET && g[a] % 0x1_0000_0000 != 0)
    || (forall a :: 0 <= a < KINDS ==> g[a] == 0)
  }

  /** When the planet is taken, every unit of the defender that was not lost is still owned exactly when what
      is left of the garrison is not overlooked. */
  lemma GarrisonSurvivesIff(planet: seq<int>, main: seq<int>, cover: real, r: seq<int>, main': seq<int>,
                            stationed: bool, station: seq<int>)
    requires |planet| == |main| == |main'| == KINDS && |r| >= REPORT + 8 * FLEET
    requires NonNegative(planet) && NonNegative(main) && 0.0 <= cover <= 1.0
    requires forall a :: 0 <= a < FLEET ==>
               0 <= Told(r, 1, a) <= planet[a] + Covered(cover, main[a]) && main'[a] == Main(planet[a], main[a], Told(r, 1, a))
    requires main'[FLEET..] == main[FLEET..]
    requires stationed == Noticed(GarrisonLeft(planet, r)) && (stationed ==> station == GarrisonLeft(planet, r))
    ensures NoneVanishes(planet, main, r, main', stationed, station) <==> NotOverlooked(GarrisonLeft(planet, r))
  {
    hide Told, Covered;
    var g := GarrisonLeft(planet, r);
    forall a | 0 <= a < KINDS
      ensures main'[a] + g[a] == planet[a] + main[a] - (if a < FLEET then Told(r, 1, a) else 0)
    {
      if a < FLEET {
        DefenceAddsUp(planet[a], main[a], cover, Told(r, 1, a));
      } else {
        assert main'[a] == main'[FLEET..][a-FLEET] == main[FLEET..][a-FLEET] == main[a];
      }
    }
  }

  /** 2^32 soldiers, of whom none is lost, vanish; so does one unit of a kind that does not fight. */
  lemma OverlookedGarrisons(r: seq<int>)
    requires |r| >= REPORT + 8 * FLEET && forall a :: 0 <= a < FLEET ==> Told(r, 1, a) == 0
    ensures var many := Zeros()[SOLDIER := 0x1_0000_0000];
            !Noticed(GarrisonLeft(many, r)) && !NotOverlooked(GarrisonLeft(many, r))
    ensures var wizard := Zeros()[FLEET := 1];
            !Noticed(GarrisonLeft(wizard, r)) && !NotOverlooked(GarrisonLeft(wizard, r))
  {
    hide Told;
    var many, wizard := Zeros()[SOLDIER := 0x1_0000_0000], Zeros()[FLEET := 1];
    assert GarrisonLeft(many, r)[SOLDIER] != 0 && GarrisonLeft(wizard, r)[FLEET] != 0;
  }

  /** The garrison, and of the main fleet the covered part, rounded down. */
  ghost predicate Defends(planet: seq<int>, main: seq<int>, cover: real, u: seq<int>)
    requires |planet| == |main| == KINDS
  {
    |u| == FLEET && forall a :: 0 <= a < FLEET ==>
      (u[a] - planet[a]) as real <= cover * main[a] as real < (u[a] - planet[a] + 1) as real
  }

  /** What a defence `u` of which `v` is left has cost: as far as it goes the garrison, beyond that the main fleet. */
  ghost predicate DefenceCost(planet: seq<int>, main: seq<int>, u: seq<int>, v: seq<int>, planet': seq<int>, main': seq<int>)
    requires |planet| == |main| == |planet'| == |main'| == KINDS && |u| == |v| == FLEET
  {
    && planet'[FLEET..] == planet[FLEET..] && main'[FLEET..] == main[FLEET..]
    && forall a :: 0 <= a < FLEET ==>
         var lost := u[a] - v[a];
         if lost <= planet[a] then planet'[a] == planet[a] - lost && main'[a] == main[a]
         else planet'[a] == 0 && main'[a] == main[a] - (lost - planet[a])
  }

  lemma CoveredIs(cover: real, main: int)
    requires 0.0 <= cover <= 1.0 && main >= 0
    ensures Covered(cover, main) as real <= cover * main as real < (Covered(cover, main) + 1) as real
  {
    assert cover * main as real >= 0.0;
  }

  lemma ToldIsCourse(r: seq<int>, u: seq<int>, blows: seq<Blow>, side: nat, a: nat)
    requires |u| >= FLEET && |blows| == PHASES && (forall i :: 0 <= i < |blows| ==> BlowFits(blows[i])) && side < 2 && a < FLEET
    requires Reported(r, u, blows, side, PHASES)
    ensures Told(r, side, a) == u[a] - Survivors(u, blows, side)[a]
  {
    hide Survivors;
    NothingSuffered(u, side);
    assert blows[..0] == [] && blows[..PHASES] == blows;
    forall p: nat | p < PHASES ensures r[Segment(p, side) + a] == PhaseLoss(u, blows, side, p, a) { }
    assert r[Segment(0, side) + a] + r[Segment(1, side) + a] + r[Segment(2, side) + a] + r[Segment(3, side) + a] ==
           u[a] - Survivors(u, blows, side)[a];
  }

  /** The defender's side of a battle. */
  lemma DefenceCourse(planet: seq<int>, main: seq<int>, cover: real, blows: seq<Blow>, r: seq<int>, main': seq<int>)
    requires |planet| == |main| == |main'| == KINDS && NonNegative(planet) && NonNegative(main) && 0.0 <= cover <= 1.0
    requires |blows| == PHASES && (forall i :: 0 <= i < |blows| ==> BlowFits(blows[i]))
    requires Reported(r, Mustered(planet, main, cover), blows, 1, PHASES) && main'[FLEET..] == main[FLEET..]
    requires forall a :: 0 <= a < FLEET ==> main'[a] == Main(planet[a], main[a], Told(r, 1, a))
    ensures exists v :: Course(Mustered(planet, main, cover), v, blows, 1, r)
                        && Defended(planet, main, cover, v, r, main')
  {
    hide Survivors, Reported, Covered, Told, Course;
    var u := Mustered(planet, main, cover);
    forall a | 0 <= a < FLEET
      ensures Covered(cover, main[a]) as real <= cover * main[a] as real < (Covered(cover, main[a]) + 1) as real
      ensures u[a] >= 0
    {
      CoveredIs(cover, main[a]);
      CoverBounds(cover, main[a]);
    }
    SurvivorsCourse(u, blows, 1, r);
    var v :| Course(u, v, blows, 1, r) && |v| == PHASES + 1 && v[PHASES] == Survivors(u, blows, 1);
    CourseEnds(u, v, blows, 1, r);
    forall a: nat | a < FLEET ensures Told(r, 1, a) == u[a] - v[PHASES][a] { ToldIsCourse(r, u, blows, 1, a); }
    assert Defended(planet, main, cover, v, r, main');
  }

  lemma CourseEnds(u: seq<int>, v: seq<seq<int>>, blows: seq<Blow>, side: nat, r: seq<int>)
    requires |u| >= FLEET && |blows| == PHASES && (forall i :: 0 <= i < PHASES ==> BlowFits(blows[i])) && side < 2
    requires Course(u, v, blows, side, r)
    ensures |v| == PHASES + 1 && v[0] == u && |r| >= 76
  {
  }

  ghost predicate Defended(planet: seq<int>, main: seq<int>, cover: real, v: seq<seq<int>>, r: seq<int>, main': seq<int>)
    requires |planet| == |main| == |main'| == KINDS
  {
    && |v| == PHASES + 1 && |r| >= 76 && |v[PHASES]| == FLEET
    && Defends(planet, main, cover, v[0])
    && DefenceCost(planet, main, v[0], v[PHASES], GarrisonLeft(planet, r), main')
  }

  /** The battle up to the question who wins: the phases, and what they cost both sides. */
  method Combat(att: array<int>, planet: array<int>, main: array<int>, attTotal: array<int>, defTotal: array<int>, results: array<int>,
                cover: real, blows: seq<Blow>)
    returns (flee: bool, b: bool, stationleft: bool)
    requires att.Length == planet.Length == main.Length == KINDS && attTotal.Length == defTotal.Length == KINDS
    requires results.Length >= REPORT + 8 * FLEET
    requires att != planet && att != main && planet != main && results !in {att, planet, main}
    requires attTotal !in {att, planet, main, results} && defTotal !in {att, planet, main, results, attTotal}
    requires NonNegative(att[..]) && NonNegative(planet[..]) && NonNegative(main[..]) && 0.0 <= cover <= 1.0
    requires |blows| == PHASES && forall i :: 0 <= i < PHASES ==> BlowFits(blows[i])
    modifies att, planet, main, attTotal, defTotal, results
    ensures flee == Flees(blows) && b == Noticed(att[..]) && stationleft == Noticed(planet[..])
    ensures att[..] == Survivors(old(att[..]), blows, 0)
    ensures forall a :: 0 <= a < FLEET ==>
              && 0 <= Told(results[..], 0, a) <= old(att[a]) && att[a] == old(att[a]) - Told(results[..], 0, a)
              && 0 <= Told(results[..], 1, a) <= old(planet[a]) + Covered(cover, old(main[a]))
    ensures forall a :: 0 <= a < FLEET ==>
              && attTotal[a] == old(attTotal[a]) - Told(results[..], 0, a)
              && defTotal[a] == old(defTotal[a]) - Told(results[..], 1, a)
              && main[a] == Main(old(planet[a]), old(main[a]), Told(results[..], 1, a)) >= 0
    ensures Reported(results[..], old(att[..]), blows, 0, PHASES)
    ensures Reported(results[..], Mustered(old(planet[..]), old(main[..]), cover), blows, 1, PHASES)
    ensures main[FLEET..] == old(main[FLEET..]) && attTotal[FLEET..] == old(attTotal[FLEET..]) && defTotal[FLEET..] == old(defTotal[FLEET..])
    ensures planet[..] == GarrisonLeft(old(planet[..]), results[..])
  {
    hide Covered, Accounted, Survivors, Flees, Noticed, Told, Reported;
    var def := Muster(planet, main, cover);
    var attbase := CopyOf(att);
    var defbase := CopyOf(def);
    Clear(results);
    ghost var planet0, main0, att0, defs := planet[..], main[..], att[..], def[..];
    flee := FightPhases(att, def, results, blows);
    ghost var r := results[..];
    AccountedMeans(att0, att[..], r, 0);
    AccountedMeans(defs, def[..], r, 1);
    b, stationleft := Settle(att, planet, main, defbase, def);
    Deduct(defTotal, defbase, def);
    Deduct(attTotal, attbase, att);
    assert planet[..] == GarrisonLeft(planet0, r) by {
      assert forall a :: FLEET <= a < KINDS ==> planet[a] == planet[FLEET..][a-FLEET] == planet0[FLEET..][a-FLEET];
    }
    forall a | 0 <= a < FLEET
      ensures main[a] == Main(planet0[a], main0[a], Told(r, 1, a)) >= 0
    {
      DefenceAddsUp(planet0[a], main0[a], cover, Told(r, 1, a));
    }
  }

  /** battle: `wins` is whether the attackers left standing outweigh the defenders. `kept` says whether the
      attacking fleet still exists afterwards, `station` is the fleet the surviving garrison forms when
      the planet is taken. */
  method Fight(att: array<int>, planet: array<int>, main: array<int>, attTotal: array<int>, defTotal: array<int>, results: array<int>,
               cover: real, blows: seq<Blow>, wins: bool, home: bool, configFleet: int)
    returns (won: bool, kept: bool, stationed: bool, station: seq<int>)
    requires att.Length == planet.Length == main.Length == KINDS && attTotal.Length == defTotal.Length == KINDS
    requires results.Length >= REPORT + 8 * FLEET
    requires att != planet && att != main && planet != main && results !in {att, planet, main}
    requires attTotal !in {att, planet, main, results} && defTotal !in {att, planet, main, results, attTotal}
    requires NonNegative(att[..]) && NonNegative(planet[..]) && NonNegative(main[..]) && 0.0 <= cover <= 1.0
    requires |blows| == PHASES && forall i :: 0 <= i < PHASES ==> BlowFits(blows[i])
    modifies att, planet, main, attTotal, defTotal, results
    ensures won == (wins && !Flees(blows))
    ensures exists v :: Course(old(att[..]), v, blows, 0, results[..]) && |v| == PHASES + 1 && v[PHASES] == att[..]
    ensures exists v :: Course(Mustered(old(planet[..]), old(main[..]), cover), v, blows, 1, results[..])
                        && Defended(old(planet[..]), old(main[..]), cover, v, results[..], main[..])
    ensures att[..] == Survivors(old(att[..]), blows, 0)
    ensures forall a :: 0 <= a < FLEET ==>
              && 0 <= Told(results[..], 0, a) <= old(att[a]) && att[a] == old(att[a]) - Told(results[..], 0, a)
              && 0 <= Told(results[..], 1, a) <= old(planet[a]) + Covered(cover, old(main[a]))
    ensures forall a :: 0 <= a < FLEET ==>
              && attTotal[a] == old(attTotal[a]) - Told(results[..], 0, a)
              && defTotal[a] == old(defTotal[a]) - Told(results[..], 1, a)
              && main[a] == Main(old(planet[a]), old(main[a]), Told(results[..], 1, a)) >= 0
    ensures Reported(results[..], old(att[..]), blows, 0, PHASES)
    ensures Reported(results[..], Mustered(old(planet[..]), old(main[..]), cover), blows, 1, PHASES)
    ensures main[FLEET..] == old(main[FLEET..]) && attTotal[FLEET..] == old(attTotal[FLEET..]) && defTotal[FLEET..] == old(defTotal[FLEET..])
    ensures kept == (Noticed(att[..]) && !(won && !home && configFleet == 0))
    ensures !won ==> !stationed && planet[..] == GarrisonLeft(old(planet[..]), results[..])
    ensures won ==> var g := GarrisonLeft(old(planet[..]), results[..]);
              && stationed == Noticed(g) && (stationed ==> station == g)
              && (NoneVanishes(old(planet[..]), old(main[..]), results[..], main[..], stationed, station) <==> NotOverlooked(g))
    ensures won ==> planet[..] == if home || configFleet != 0 then Zeros() else att[..FLEET] + Zeros()[FLEET..]
  {
    hide Covered, Survivors, Flees, Noticed, Told, Reported, NoneVanishes, NotOverlooked, Course, Defended, GarrisonLeft, Mustered;
    ghost var planet0, main0, att0 := planet[..], main[..], att[..];
    var flee, b, stationleft := Combat(att, planet, main, attTotal, defTotal, results, cover, blows);
    ghost var r := results[..];
    SurvivorsCourse(att0, blows, 0, r);
    DefenceCourse(planet0, main0, cover, blows, r, main[..]);
    kept, won, stationed, station := b, false, false, [];
    if flee || !wins { return; }
    won := true;
    kept, stationed, station := Capture(att, planet, b, stationleft, home, configFleet);
    GarrisonSurvivesIff(planet0, main0, cover, r, main[..], stationed, station);
  }

  /** The planet changes hands. */
  method Capture(att: array<int>, planet: array<int>, b: bool, stationleft: bool, home: bool, configFleet: int)
    returns (kept: bool, stationed: bool, station: seq<int>)
    requires att != planet && att.Length == planet.Length == KINDS
    modifies planet
    ensures kept == (b && (home || configFleet != 0))
    ensures stationed == stationleft && (stationed ==> station == old(planet[..]))
    ensures planet[..] == if home || configFleet != 0 then Zeros() else att[..FLEET] + Zeros()[FLEET..]
  {
    kept, stationed, station := b, false, [];
    if stationleft {
      stationed, station := true, planet[..];
    }
    Fill(planet, att[..], 0);
    if home { return; }
    if configFleet == 0 {
      kept := false;
      Fill(planet, att[..], FLEET);
    }
  }

  lemma AccountedMeans(base: seq<int>, unit: seq<int>, r: seq<int>, side: nat)
    requires Accounted(base, unit, r, side)
    ensures |r| >= REPORT + 8 * FLEET && |unit| == |base| >= FLEET && NonNegative(unit)
    ensures forall a :: 0 <= a < FLEET ==> unit[a] == base[a] - Told(r, side, a) && 0 <= Told(r, side, a) <= base[a]
  {
  }
}
