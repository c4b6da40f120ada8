/** The ranking lists of the tick: rows of six numbers in one flat array, sorted by insertion into a
    doubly linked list whose links are the last two numbers of each row. */
module Ranking {
  const ROW := 6
  const PREV := 4
  const NEXT := 5

  /** Row `r` starts at `ROW * r`. `k` is the column of the second key: 3 for empires, 2 for players. */
  predicate Fits(s: seq<int>, n: nat, k: nat) {
    ROW * n <= |s| && 2 <= k <= 3
  }

  /** A number of row `r`. */
  function Cell(s: seq<int>, r: nat, c: nat): int
    requires c < ROW && ROW * r + ROW <= |s|
  {
    s[ROW * r + c]
  }

  predicate Above(s: seq<int>, n: nat, k: nat, r: nat, t: nat)
    requires Fits(s, n, k) && r < n && t < n
  {
    Cell(s, r, 1) > Cell(s, t, 1) || (Cell(s, r, 1) == Cell(s, t, 1) && Cell(s, r, k) > Cell(s, t, k))
  }

  /** The order of the ranking: descending by both keys, earlier rows first among equals. */
  predicate Better(s: seq<int>, n: nat, k: nat, r: nat, t: nat)
    requires Fits(s, n, k) && r < n && t < n
  {
    Above(s, n, k, r, t) || (!Above(s, n, k, t, r) && r < t)
  }

  /** The rank a row deserves: one more than the number of better rows. */
  ghost function RankOf(s: seq<int>, n: nat, k: nat, r: nat): nat
    requires Fits(s, n, k) && r < n
  {
    1 + |BetterRows(s, n, k, r)|
  }

  ghost function BetterRows(s: seq<int>, n: nat, k: nat, r: nat): set<nat>
    requires Fits(s, n, k) && r < n
  {
    set t: nat | t < n && Better(s, n, k, t, r)
  }

  // ---------------------------------------------------------------- the list

  ghost predicate Rows(q: seq<nat>, n: nat) {
    |q| == n && (forall i :: 0 <= i < n ==> q[i] < n) && forall i, j :: 0 <= i < j < n ==> q[i] != q[j]
  }

  ghost predicate Sorted(s: seq<int>, n: nat, k: nat, q: seq<nat>)
    requires Fits(s, n, k)
  {
    Rows(q, n) && forall i, j :: 0 <= i < j < n ==> Better(s, n, k, q[i], q[j])
  }

  ghost function Before(q: seq<nat>, i: int): int { if 0 < i <= |q| then ROW * q[i-1] else -1 }
  ghost function After(q: seq<nat>, i: int): int { if -1 <= i < |q| - 1 then ROW * q[i+1] else -1 }

  ghost predicate Linked(s: seq<int>, q: seq<nat>, i: nat)
    requires i < |q| && ROW * q[i] + ROW <= |s|
  {
    Cell(s, q[i], PREV) == Before(q, i) && Cell(s, q[i], NEXT) == After(q, i)
  }

  ghost predicate Chained(s: seq<int>, n: nat, q: seq<nat>) {
    ROW * n <= |s| && Rows(q, n) && forall i :: 0 <= i < n ==> Linked(s, q, i)
  }

  /** Only links differ. */
  ghost predicate SameData(s: seq<int>, t: seq<int>) {
    |s| == |t| && forall r: nat, c: nat :: c < PREV && ROW * r + ROW <= |s| ==> Cell(s, r, c) == Cell(t, r, c)
  }

  // ---------------------------------------------------------------- a sorted list gives the ranks

  lemma SortedAgain(s: seq<int>, t: seq<int>, n: nat, k: nat, q: seq<nat>)
    requires SameData(s, t) && Fits(s, n, k) && Sorted(s, n, k, q)
    ensures Fits(t, n, k) && Sorted(t, n, k, q)
  {
    forall i, j | 0 <= i < j < n ensures Better(t, n, k, q[i], q[j]) { SameBetter(s, t, n, k, q[i], q[j]); }
  }

  lemma SameBetter(s: seq<int>, t: seq<int>, n: nat, k: nat, r: nat, u: nat)
    requires SameData(s, t) && Fits(s, n, k) && r < n && u < n
    ensures Better(s, n, k, r, u) <==> Better(t, n, k, r, u)
  {
    assert Cell(s, r, 1) == Cell(t, r, 1) && Cell(s, u, 1) == Cell(t, u, 1);
    assert Cell(s, r, k) == Cell(t, r, k) && Cell(s, u, k) == Cell(t, u, k);
  }

  lemma Everyone(q: seq<nat>, n: nat)
    requires Rows(q, n)
    ensures forall r: nat :: r < n ==> r in q
  {
    ElementsCount(q);
    NatsBelow(n);
    var all := set x: nat | x < n && Below(x, n);
    assert Elements(q) <= all;
    assert all == Elements(q) + (all - Elements(q));
    forall r: nat | r < n ensures r in q { assert Below(r, n) && r in all; }
  }

  function Elements(q: seq<nat>): set<nat> { set x | x in q }

  lemma {:induction false} ElementsCount(q: seq<nat>)
    requires forall i, j :: 0 <= i < j < |q| ==> q[i] != q[j]
    ensures |Elements(q)| == |q|
  {
    if q != [] {
      ElementsCount(q[1..]);
      assert Elements(q) == {q[0]} + Elements(q[1..]);
      assert q[0] !in q[1..];
    }
  }

  predicate Below(x: nat, n: nat) { x < n }

  lemma {:induction false} NatsBelow(n: nat)
    ensures |set x: nat | x < n && Below(x, n)| == n
  {
    if n > 0 {
      var m: nat := n - 1;
      NatsBelow(m);
      assert (set x: nat | x < n && Below(x, n)) == (set x: nat | x < m && Below(x, m)) + {m};
    }
  }

  /** Whoever stands at place i of a sorted list has exactly i better rows. */
  lemma PlaceIsRank(s: seq<int>, n: nat, k: nat, q: seq<nat>, i: nat)
    requires Fits(s, n, k) && Sorted(s, n, k, q) && i < n
    ensures RankOf(s, n, k, q[i]) == i + 1
  {
    Everyone(q, n);
    var front := q[..i];
    assert forall m :: 0 <= m < i ==> front[m] == q[m];
    assert BetterRows(s, n, k, q[i]) == Elements(front) by {
      forall t: nat | t < n ensures Better(s, n, k, t, q[i]) <==> t in front {
        assert t in q;
        var j :| 0 <= j < n && q[j] == t;
        if j < i { assert front[j] == t; }
      }
    }
    ElementsCount(front);
  }

  // ---------------------------------------------------------------- insertion

  function Inserted(q: seq<nat>, i: nat, r: nat): seq<nat>
    requires i <= |q|
  {
    q[..i] + [r] + q[i..]
  }

  lemma InsertedAt(q: seq<nat>, i: nat, r: nat, j: nat)
    requires i <= |q| && j <= |q|
    ensures |Inserted(q, i, r)| == |q| + 1
    ensures Inserted(q, i, r)[j] == if j < i then q[j] else if j == i then r else q[j-1]
  {
  }

  /** Row `b` belongs where it is above the next row but not above any row before. */
  lemma InsertKeepsOrder(s: seq<int>, b: nat, k: nat, q: seq<nat>, i: nat)
    requires Fits(s, b + 1, k) && Sorted(s, b, k, q) && i <= b
    requires forall j :: 0 <= j < i ==> !Above(s, b + 1, k, b, q[j])
    requires i < b ==> Above(s, b + 1, k, b, q[i])
    ensures Sorted(s, b + 1, k, Inserted(q, i, b))
  {
    hide Better, Above, Inserted;
    var p := Inserted(q, i, b);
    InsertedAt(q, i, b, 0);
    forall j | 0 <= j <= b ensures p[j] < b + 1 { InsertedAt(q, i, b, j); }
    forall x, y | 0 <= x < y < b + 1 ensures Better(s, b + 1, k, p[x], p[y]) && p[x] != p[y] {
      InsertedPair(s, b, k, q, i, x, y);
    }
  }

  lemma InsertedPair(s: seq<int>, b: nat, k: nat, q: seq<nat>, i: nat, x: nat, y: nat)
    requires Fits(s, b + 1, k) && Sorted(s, b, k, q) && i <= b && x < y <= b
    requires forall j :: 0 <= j < i ==> !Above(s, b + 1, k, b, q[j])
    requires i < b ==> Above(s, b + 1, k, b, q[i])
    ensures var p := Inserted(q, i, b);
            p[x] <= b && p[y] <= b && p[x] != p[y] && Better(s, b + 1, k, p[x], p[y])
  {
    hide Inserted, Cell;
    InsertedAt(q, i, b, x);
    InsertedAt(q, i, b, y);
    if x == i {
      assert Above(s, b + 1, k, b, q[i]);
      if y - 1 > i { assert Better(s, b, k, q[i], q[y-1]); }
    } else if y == i {
      assert !Above(s, b + 1, k, b, q[x]);
    } else {
      assert Better(s, b, k, q[if x < i then x else x - 1], q[if y < i then y else y - 1]);
    }
  }

  /** The links that an insertion at place `i` writes; all other numbers stay. */
  ghost predicate LinksIn(s: seq<int>, t: seq<int>, q: seq<nat>, i: nat, b: nat)
    requires i <= |q| && ROW * b + ROW <= |s| && (forall j :: 0 <= j < |q| ==> q[j] < b)
  {
    && |t| == |s|
    && Cell(t, b, PREV) == (if i == 0 then -1 else ROW * q[i-1])
    && Cell(t, b, NEXT) == (if i == |q| then -1 else ROW * q[i])
    && (forall j :: 0 <= j < |q| ==> Cell(t, q[j], PREV) == if j == i then ROW * b else Cell(s, q[j], PREV))
    && (forall j :: 0 <= j < |q| ==> Cell(t, q[j], NEXT) == if j == i - 1 then ROW * b else Cell(s, q[j], NEXT))
  }

  lemma InsertKeepsChain(s: seq<int>, t: seq<int>, b: nat, q: seq<nat>, i: nat)
    requires ROW * b + ROW <= |s| && Chained(s, b, q) && i <= b && LinksIn(s, t, q, i, b)
    requires Rows(Inserted(q, i, b), b + 1)
    ensures Chained(t, b + 1, Inserted(q, i, b))
  {
    hide Cell, Inserted, LinksIn, Linked;
    var p := Inserted(q, i, b);
    LinkedAfter(s, t, b, q, i, 0);
    forall j: nat | j < b + 1 ensures Linked(t, p, j) { LinkedAfter(s, t, b, q, i, j); }
  }

  lemma LinkedAfter(s: seq<int>, t: seq<int>, b: nat, q: seq<nat>, i: nat, j: nat)
    requires ROW * b + ROW <= |s| && Chained(s, b, q) && i <= b && LinksIn(s, t, q, i, b) && j <= b
    requires Rows(Inserted(q, i, b), b + 1)
    ensures |t| == |s| && Linked(t, Inserted(q, i, b), j)
  {
    hide Cell, Inserted;
    InsertedAt(q, i, b, j);
    if j > 0 { InsertedAt(q, i, b, j - 1); }
    if j < b { InsertedAt(q, i, b, j + 1); }
    if j < i { assert Linked(s, q, j); } else if j > i { assert Linked(s, q, j - 1); }
  }

  /** The writes of an insertion between two rows, either of which may be missing. */
  function InsertLinks(s: seq<int>, b: nat, prev: int, next: int): seq<int>
    requires ROW * b + ROW <= |s|
    requires prev == -1 || 0 <= prev <= |s| - ROW
    requires next == -1 || 0 <= next <= |s| - ROW
  {
    var t := s[ROW*b+PREV := prev][ROW*b+NEXT := next];
    var u := if prev == -1 then t else t[prev+NEXT := ROW*b];
    if next == -1 then u else u[next+PREV := ROW*b]
  }

  /** One number after these writes. */
  lemma CellWritten(s: seq<int>, b: nat, prev: int, next: int, x: nat, d: nat)
    requires ROW * b + ROW <= |s| && d < ROW && ROW * x + ROW <= |s|
    requires prev == -1 || (0 <= prev <= |s| - ROW && prev % ROW == 0)
    requires next == -1 || (0 <= next <= |s| - ROW && next % ROW == 0)
    ensures |InsertLinks(s, b, prev, next)| == |s|
    ensures Cell(InsertLinks(s, b, prev, next), x, d)
            == if d == PREV && ROW * x == next then ROW * b
               else if d == NEXT && ROW * x == prev then ROW * b
               else if d == PREV && x == b then prev
               else if d == NEXT && x == b then next
               else Cell(s, x, d)
  {
  }

  lemma InsertLinksMeans(s: seq<int>, b: nat, q: seq<nat>, i: nat)
    requires ROW * b + ROW <= |s| && Rows(q, b) && i <= b
    ensures var prev, next := Before(q, i), After(q, i - 1);
            && (prev == -1 || 0 <= prev <= |s| - ROW) && (next == -1 || 0 <= next <= |s| - ROW)
            && LinksIn(s, InsertLinks(s, b, prev, next), q, i, b) && SameData(s, InsertLinks(s, b, prev, next))
  {
    hide InsertLinks, LinksIn, SameData;
    Neighbours(s, b, q, i);
    LinksWritten(s, b, q, i);
    DataKept(s, b, Before(q, i), After(q, i - 1));
  }

  lemma Neighbours(s: seq<int>, b: nat, q: seq<nat>, i: nat)
    requires ROW * b + ROW <= |s| && Rows(q, b) && i <= b
    ensures var prev, next := Before(q, i), After(q, i - 1);
            && (prev == -1 || (0 <= prev <= |s| - ROW && prev % ROW == 0))
            && (next == -1 || (0 <= next <= |s| - ROW && next % ROW == 0))
  {
  }

  lemma LinksWritten(s: seq<int>, b: nat, q: seq<nat>, i: nat)
    requires ROW * b + ROW <= |s| && Rows(q, b) && i <= b
    requires var prev, next := Before(q, i), After(q, i - 1);
             && (prev == -1 || (0 <= prev <= |s| - ROW && prev % ROW == 0))
             && (next == -1 || (0 <= next <= |s| - ROW && next % ROW == 0))
    ensures LinksIn(s, InsertLinks(s, b, Before(q, i), After(q, i - 1)), q, i, b)
  {
    hide Cell, InsertLinks;
    var prev, next := Before(q, i), After(q, i - 1);
    var t := InsertLinks(s, b, prev, next);
    CellWritten(s, b, prev, next, b, PREV);
    CellWritten(s, b, prev, next, b, NEXT);
    forall j | 0 <= j < |q|
      ensures Cell(t, q[j], PREV) == if j == i then ROW * b else Cell(s, q[j], PREV)
      ensures Cell(t, q[j], NEXT) == if j == i - 1 then ROW * b else Cell(s, q[j], NEXT)
    {
      CellWritten(s, b, prev, next, q[j], PREV);
      CellWritten(s, b, prev, next, q[j], NEXT);
    }
  }

  lemma DataKept(s: seq<int>, b: nat, prev: int, next: int)
    requires ROW * b + ROW <= |s|
    requires prev == -1 || (0 <= prev <= |s| - ROW && prev % ROW == 0)
    requires next == -1 || (0 <= next <= |s| - ROW && next % ROW == 0)
    ensures SameData(s, InsertLinks(s, b, prev, next))
  {
    hide Cell, InsertLinks;
    var t := InsertLinks(s, b, prev, next);
    CellWritten(s, b, prev, next, b, 0);
    forall r: nat, c: nat | c < PREV && ROW * r + ROW <= |s| ensures Cell(s, r, c) == Cell(t, r, c) {
      CellWritten(s, b, prev, next, r, c);
    }
  }

  lemma SameDataTrans(s: seq<int>, t: seq<int>, u: seq<int>)
    requires SameData(s, t) && SameData(t, u)
    ensures SameData(s, u)
  {
    hide Cell;
  }

  /** Everything the list promises, after an insertion. */
  lemma InsertKeepsAll(s: seq<int>, b: nat, k: nat, q: seq<nat>, i: nat)
    requires Fits(s, b + 1, k) && Chained(s, b, q) && Sorted(s, b, k, q) && i <= b
    requires forall j :: 0 <= j < i ==> !Above(s, b + 1, k, b, q[j])
    requires i < b ==> Above(s, b + 1, k, b, q[i])
    ensures var prev, next := Before(q, i), After(q, i - 1);
            && (prev == -1 || 0 <= prev <= |s| - ROW) && (next == -1 || 0 <= next <= |s| - ROW)
            && var t, p := InsertLinks(s, b, prev, next), Inserted(q, i, b);
               SameData(s, t) && Fits(t, b + 1, k) && Chained(t, b + 1, p) && Sorted(t, b + 1, k, p)
  {
    hide InsertLinks, Inserted, SameData, LinksIn, Linked, Better, Above;
    InsertLinksMeans(s, b, q, i);
    InsertKeepsOrder(s, b, k, q, i);
    var t, p := InsertLinks(s, b, Before(q, i), After(q, i - 1)), Inserted(q, i, b);
    InsertKeepsChain(s, t, b, q, i);
    SortedAgain(s, t, b + 1, k, p);
  }

  lemma Alone(s: seq<int>, k: nat)
    requires |s| >= ROW && 2 <= k <= 3 && Cell(s, 0, PREV) == -1 && Cell(s, 0, NEXT) == -1
    ensures Fits(s, 1, k) && Chained(s, 1, [0]) && Sorted(s, 1, k, [0])
  {
  }

  lemma HeadChanges(q: seq<nat>, i: nat, b: nat)
    requires q != [] && i <= |q|
    ensures Inserted(q, i, b) != [] && Inserted(q, i, b)[0] == if i == 0 then b else q[0]
  {
  }

  /** What the comparison of two rows reads. */
  method IsAbove(stats: array<int>, c: nat, a: nat, k: nat, ghost n: nat, ghost r: nat, ghost t: nat) returns (y: bool)
    requires Fits(stats[..], n, k) && r < n && t < n && c == ROW * r && a == ROW * t
    ensures y == Above(stats[..], n, k, r, t)
  {
    y := stats[c+1] > stats[a+1] || (stats[c+1] == stats[a+1] && stats[c+k] > stats[a+k]);
  }

  /** The links written when the row at `c` goes between the rows at `prev` and `next`. */
  method Link(stats: array<int>, c: nat, prev: int, next: int, ghost b: nat)
    requires c == ROW * b && ROW * b + ROW <= stats.Length
    requires prev == -1 || 0 <= prev <= stats.Length - ROW
    requires next == -1 || 0 <= next <= stats.Length - ROW
    modifies stats
    ensures stats[..] == InsertLinks(old(stats[..]), b, prev, next)
  {
    stats[c+PREV] := prev;
    stats[c+NEXT] := next;
    if prev != -1 { stats[prev+NEXT] := c; }
    if next != -1 { stats[next+PREV] := c; }
  }

  lemma Follows(s: seq<int>, n: nat, q: seq<nat>, i: nat)
    requires Chained(s, n, q) && i < n
    ensures 0 <= ROW * q[i] && ROW * q[i] + ROW <= |s| && s[ROW * q[i] + NEXT] == After(q, i)
  {
    assert Linked(s, q, i);
  }

  /** The insertion sort of cmdTickGenRanks; `q` lists the rows best first. */
  method GenRanks(stats: array<int>, num: nat, k: nat) returns (first: int, ghost q: seq<nat>)
    requires stats.Length >= ROW && Fits(stats[..], num, k)
    modifies stats
    ensures SameData(old(stats[..]), stats[..])
    ensures Chained(stats[..], num, q) && Sorted(stats[..], num, k, q)
    ensures first == Before(q, 1)
  {
    hide Cell, InsertLinks, Inserted, SameData, Linked, Above, Better, Chained, Sorted;
    ghost var was := stats[..];
    first := 0;
    stats[PREV] := -1;
    stats[NEXT] := -1;
    q := [0];
    Begin(was, stats[..], k);
    var b, c := 1, ROW;
    while b < num
      invariant 1 <= b && (num > 0 ==> b <= num) && c == ROW * b && (num == 0 ==> b == 1)
      invariant SameData(was, stats[..]) && Fits(stats[..], b, k) && Chained(stats[..], b, q) && Sorted(stats[..], b, k, q)
      invariant |q| == b && first == ROW * q[0]
    {
      ghost var s := stats[..];
      ghost var i := 0;
      SortedRows(s, b, k, q);
      var head := IsAbove(stats, c, first, k, b + 1, b, q[0]);
      var d, a := -1, first;
      if !head {
        Follows(s, b, q, 0);
        d, a, i := first, stats[first+NEXT], 1;
        while a != -1
          invariant stats[..] == s && 1 <= i <= b && d == ROW * q[i-1] && a == After(q, i - 1)
          invariant forall j :: 0 <= j < i ==> !Above(s, b + 1, k, b, q[j])
          invariant a == -1 ==> i == b
          decreases b - i
        {
          var above := IsAbove(stats, c, a, k, b + 1, b, q[i]);
          if above { break; }
          Follows(s, b, q, i);
          d, a, i := a, stats[a+NEXT], i + 1;
        }
      }
      InsertKeepsAll(s, b, k, q, i);
      SameDataTrans(was, s, InsertLinks(s, b, Before(q, i), After(q, i - 1)));
      HeadChanges(q, i, b);
      InsertedAt(q, i, b, 0);
      Link(stats, c, d, a, b);
      if head { first := c; }
      q := Inserted(q, i, b);
      b, c := b + 1, c + ROW;
    }
    if num == 0 {
      first := -1;
      q := [];
      NoRows(stats[..], k);
    }
  }

  /** The finished list in figures: every row is in it once, by the numbers at 1 and k and then by place in the
      array, and the numbers at 4 and 5 hold the rows before and behind, -1 at the ends. */
  lemma InFigures(s: seq<int>, n: nat, k: nat, q: seq<nat>)
    requires Fits(s, n, k) && Chained(s, n, q) && Sorted(s, n, k, q)
    ensures |q| == n && (forall i :: 0 <= i < n ==> q[i] < n) && forall r: nat :: r < n ==> r in q
    ensures forall i, j :: 0 <= i < j < n ==> q[i] != q[j]
    ensures forall i, j :: 0 <= i < j < n ==> s[6*q[i]+1] >= s[6*q[j]+1]
    ensures forall i, j :: 0 <= i < j < n && s[6*q[i]+1] == s[6*q[j]+1] ==> s[6*q[i]+k] >= s[6*q[j]+k]
    ensures forall i, j :: 0 <= i < j < n && s[6*q[i]+1] == s[6*q[j]+1] && s[6*q[i]+k] == s[6*q[j]+k] ==> q[i] < q[j]
    ensures forall i :: 0 <= i < n ==> s[6*q[i]+4] == if i == 0 then -1 else 6 * q[i-1]
    ensures forall i :: 0 <= i < n ==> s[6*q[i]+5] == if i == n - 1 then -1 else 6 * q[i+1]
  {
    Everyone(q, n);
    forall i | 0 <= i < n
      ensures s[6*q[i]+4] == (if i == 0 then -1 else 6 * q[i-1]) && s[6*q[i]+5] == (if i == n - 1 then -1 else 6 * q[i+1])
    {
      assert Linked(s, q, i);
    }
  }

  lemma Begin(was: seq<int>, s: seq<int>, k: nat)
    requires |was| >= ROW && s == was[PREV := -1][NEXT := -1] && 2 <= k <= 3
    ensures SameData(was, s) && Fits(s, 1, k) && Chained(s, 1, [0]) && Sorted(s, 1, k, [0])
  {
    Alone(s, k);
  }

  lemma NoRows(s: seq<int>, k: nat)
    requires 2 <= k <= 3
    ensures Chained(s, 0, []) && Sorted(s, 0, k, [])
  {
  }

  lemma SortedRows(s: seq<int>, n: nat, k: nat, q: seq<nat>)
    requires Fits(s, n, k) && Sorted(s, n, k, q)
    ensures Rows(q, n)
  {
  }

  /** The ranks 1 to `n` occur, each once. */
  ghost predicate OneToN(ranks: seq<nat>, n: nat) {
    && |ranks| == n
    && (forall r :: 0 <= r < n ==> 1 <= ranks[r] <= n)
    && (forall r, t :: 0 <= r < t < n ==> ranks[r] != ranks[t])
    && (forall p :: 1 <= p <= n ==> p in ranks)
  }

  lemma PlacesGiveRanks(ranks: seq<nat>, n: nat, q: seq<nat>)
    requires |ranks| == n && Rows(q, n) && forall i :: 0 <= i < n ==> ranks[q[i]] == i + 1
    ensures OneToN(ranks, n)
  {
    Everyone(q, n);
    forall r: nat | r < n ensures exists i :: 0 <= i < n && q[i] == r && ranks[r] == i + 1 {
      assert r in q;
      var i :| 0 <= i < n && q[i] == r;
    }
    forall p | 1 <= p <= n ensures p in ranks {
      assert ranks[q[p-1]] == p;
    }
  }

  /** The walk that hands out the ranks: every row gets the rank it deserves. */
  method WriteRanks(stats: array<int>, first: int, num: nat, k: nat, ghost q: seq<nat>) returns (ranks: array<nat>)
    requires Fits(stats[..], num, k) && Chained(stats[..], num, q) && Sorted(stats[..], num, k, q) && first == Before(q, 1)
    ensures fresh(ranks) && ranks.Length == num
    ensures forall r :: 0 <= r < num ==> ranks[r] == RankOf(stats[..], num, k, r)
    ensures OneToN(ranks[..], num) && forall i :: 0 <= i < num ==> ranks[q[i]] == i + 1
  {
    hide Cell, Linked, Above, Better, Chained, Sorted, RankOf, OneToN;
    ghost var s := stats[..];
    SortedRows(s, num, k, q);
    Everyone(q, num);
    ranks := new nat[num];
    var a, b := first, 1;
    ghost var i := 0;
    while a != -1
      invariant 0 <= i <= num && b == i + 1 && a == (if i < num then ROW * q[i] else -1)
      invariant forall j :: 0 <= j < i ==> ranks[q[j]] == RankOf(s, num, k, q[j]) == j + 1
      decreases num - i
    {
      PlaceIsRank(s, num, k, q, i);
      Follows(s, num, q, i);
      ranks[a / ROW] := b;
      a := stats[a+NEXT];
      b, i := b + 1, i + 1;
    }
    forall r: nat | r < num ensures ranks[r] == RankOf(s, num, k, r) {
      assert r in q;
      var j :| 0 <= j < num && q[j] == r;
    }
    PlacesGiveRanks(ranks[..], num, q);
  }
}
