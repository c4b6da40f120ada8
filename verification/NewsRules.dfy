/** What the news lists promise, on the rows alone, newest first. */
module NewsRules {
  const EXPIRE_TIME := 208

  datatype Row = Row(tick: int, flags: int, rest: seq<int>)

  predicate IsNew(r: Row) { r.flags % 2 == 1 }
  predicate Expired(r: Row, time: int) { r.tick + EXPIRE_TIME < time }

  /** The mask keeps 32 bits and clears the lowest. */
  function Read(r: Row): Row { r.(flags := r.flags % 0x1_0000_0000 - r.flags % 2) }

  /** What stays in a player's list when it is read: unread rows, now read, and rows not expired. */
  function Kept(rs: seq<Row>, time: int): seq<Row> {
    if rs == [] then []
    else (if IsNew(rs[0]) then [Read(rs[0])] else if Expired(rs[0], time) then [] else [rs[0]]) + Kept(rs[1..], time)
  }

  /** What the player is shown: unread rows, and expired ones for the last time. */
  function Shown(rs: seq<Row>, time: int): seq<Row> {
    if rs == [] then []
    else (if IsNew(rs[0]) || Expired(rs[0], time) then [Read(rs[0])] else []) + Shown(rs[1..], time)
  }

  function Unread(rs: seq<Row>): nat {
    if rs == [] then 0 else (if IsNew(rs[0]) then 1 else 0) + Unread(rs[1..])
  }

  /** What stays in an empire's list. */
  function Current(rs: seq<Row>, time: int): seq<Row> {
    if rs == [] then [] else (if Expired(rs[0], time) then [] else [rs[0]]) + Current(rs[1..], time)
  }

  lemma ReadIsRead(r: Row)
    ensures !IsNew(Read(r)) && Read(Read(r)) == Read(r)
  {
  }

  /** Reading leaves nothing unread, and every row is either kept or was read, expired and shown. */
  lemma {:induction false} ReadingAccountsForAll(rs: seq<Row>, time: int)
    ensures Unread(Kept(rs, time)) == 0
    ensures |Shown(rs, time)| == Unread(rs) + (|rs| - |Kept(rs, time)|)
    ensures |Kept(rs, time)| <= |rs|
  {
    if rs != [] {
      ReadingAccountsForAll(rs[1..], time);
      ReadIsRead(rs[0]);
      if IsNew(rs[0]) {
        assert Kept(rs, time)[1..] == Kept(rs[1..], time);
      } else if !Expired(rs[0], time) {
        assert Kept(rs, time)[1..] == Kept(rs[1..], time);
      } else {
        assert [] + Kept(rs[1..], time) == Kept(rs[1..], time);
      }
    }
  }

  /** Reading twice: the second time only the expired rows are shown that were unread the first
      time, and then exactly the current rows are left. */
  lemma {:induction false} ReadingTwice(rs: seq<Row>, time: int)
    ensures Kept(Kept(rs, time), time) == Current(Kept(rs, time), time)
    ensures forall r :: r in Kept(Kept(rs, time), time) ==> !Expired(r, time)
  {
    var ks := Kept(rs, time);
    ReadingAccountsForAll(rs, time);
    AllRead(ks, time);
  }

  lemma {:induction false} AllRead(ks: seq<Row>, time: int)
    requires Unread(ks) == 0
    ensures Kept(ks, time) == Current(ks, time)
    ensures forall r :: r in Current(ks, time) ==> !Expired(r, time)
  {
    if ks != [] { AllRead(ks[1..], time); }
  }

  // ---------------------------------------------------------------- row by row

  /** One row: unread ones are shown and stay, read; others stay for 208 ticks and are shown when they go. */
  lemma OneRow(r: Row, time: int, f: int)
    requires f == r.flags % 0x1_0000_0000 - r.flags % 2
    ensures Kept([r], time) == if r.flags % 2 == 1 then [Row(r.tick, f, r.rest)] else if r.tick + 208 >= time then [r] else []
    ensures Shown([r], time) == if r.flags % 2 == 1 || r.tick + 208 < time then [Row(r.tick, f, r.rest)] else []
    ensures Unread([r]) == r.flags % 2
    ensures Current([r], time) == if r.tick + 208 >= time then [r] else []
  {
    assert [r][1..] == [];
    assert Read(r) == Row(r.tick, f, r.rest);
  }

  /** Rows do not bear on each other. */
  lemma RowByRow(a: seq<Row>, b: seq<Row>, time: int)
    ensures Kept(a + b, time) == Kept(a, time) + Kept(b, time) && Shown(a + b, time) == Shown(a, time) + Shown(b, time)
    ensures Unread(a + b) == Unread(a) + Unread(b) && Current(a + b, time) == Current(a, time) + Current(b, time)
  {
    KeptSplit(a, b, time);
    ShownSplit(a, b, time);
    CurrentSplit(a, b, time);
  }

  lemma {:induction false} KeptSplit(a: seq<Row>, b: seq<Row>, time: int)
    ensures Kept(a + b, time) == Kept(a, time) + Kept(b, time) && Unread(a + b) == Unread(a) + Unread(b)
  {
    if a == [] {
      assert a + b == b;
    } else {
      assert (a + b)[1..] == a[1..] + b;
      KeptSplit(a[1..], b, time);
    }
  }

  lemma {:induction false} ShownSplit(a: seq<Row>, b: seq<Row>, time: int)
    ensures Shown(a + b, time) == Shown(a, time) + Shown(b, time)
  {
    if a == [] {
      assert a + b == b;
    } else {
      assert (a + b)[1..] == a[1..] + b;
      ShownSplit(a[1..], b, time);
    }
  }

  lemma {:induction false} CurrentSplit(a: seq<Row>, b: seq<Row>, time: int)
    ensures Current(a + b, time) == Current(a, time) + Current(b, time)
  {
    if a == [] {
      assert a + b == b;
    } else {
      assert (a + b)[1..] == a[1..] + b;
      CurrentSplit(a[1..], b, time);
    }
  }

  // ---------------------------------------------------------------- order of the empire's rows

  predicate NewestFirst(rs: seq<Row>) {
    forall i, j :: 0 <= i < j < |rs| ==> rs[i].tick >= rs[j].tick
  }

  lemma {:induction false} CurrentIn(rs: seq<Row>, time: int)
    ensures forall r :: r in Current(rs, time) <==> r in rs && !Expired(r, time)
    ensures |Current(rs, time)| <= |rs|
  {
    if rs != [] {
      CurrentIn(rs[1..], time);
      assert forall r :: r in rs <==> r == rs[0] || r in rs[1..];
    }
  }

  /** News added with the time never running backwards stays newest first. */
  lemma AddKeepsOrder(rs: seq<Row>, r: Row)
    requires NewestFirst(rs) && (rs == [] || r.tick >= rs[0].tick)
    ensures NewestFirst([r] + rs)
  {
  }

  lemma {:induction false} CurrentKeepsOrder(rs: seq<Row>, time: int)
    requires NewestFirst(rs)
    ensures NewestFirst(Current(rs, time))
  {
    if rs != [] {
      CurrentKeepsOrder(rs[1..], time);
      CurrentIn(rs[1..], time);
      var c := Current(rs[1..], time);
      forall j | 0 <= j < |c| ensures rs[0].tick >= c[j].tick {
        assert c[j] in rs[1..];
        var k :| 0 <= k < |rs[1..]| && rs[1..][k] == c[j];
        assert rs[k + 1] == c[j];
      }
    }
  }

  predicate CurrentFirst(rs: seq<Row>, time: int) {
    forall i, j :: 0 <= i < j < |rs| && Expired(rs[i], time) ==> Expired(rs[j], time)
  }

  /** The count returned cuts the rows shown down to the current ones exactly when no expired row
      stands before a current one; rows in order of age are so. */
  lemma {:induction false} FirstRowsAreCurrentIff(rs: seq<Row>, time: int)
    ensures |Current(rs, time)| <= |rs|
    ensures rs[..|Current(rs, time)|] == Current(rs, time) <==> CurrentFirst(rs, time)
    ensures NewestFirst(rs) ==> CurrentFirst(rs, time)
  {
    CurrentIn(rs, time);
    if rs != [] {
      FirstRowsAreCurrentIff(rs[1..], time);
      if Expired(rs[0], time) {
        HeadExpired(rs, time);
      } else {
        var c, d := Current(rs, time), Current(rs[1..], time);
        assert rs[..|c|] == [rs[0]] + rs[1..][..|d|];
        assert c[1..] == d;
        TailFirst(rs, time);
      }
    }
  }

  lemma HeadExpired(rs: seq<Row>, time: int)
    requires rs != [] && Expired(rs[0], time)
    ensures CurrentFirst(rs, time) <==> Current(rs, time) == []
    ensures |Current(rs, time)| <= |rs|
    ensures rs[..|Current(rs, time)|] == Current(rs, time) <==> Current(rs, time) == []
  {
    hide Current;
    var c := Current(rs, time);
    CurrentIn(rs, time);
    assert c != [] ==> c[0] in c && rs[..|c|][0] == rs[0];
    NoneCurrent(rs, time);
  }

  lemma {:induction false} NoneCurrent(rs: seq<Row>, time: int)
    ensures Current(rs, time) == [] <==> forall i :: 0 <= i < |rs| ==> Expired(rs[i], time)
  {
    if rs != [] {
      NoneCurrent(rs[1..], time);
      var t := rs[1..];
      assert forall i :: 0 <= i < |t| ==> t[i] == rs[i + 1];
      assert forall i :: 0 < i < |rs| ==> rs[i] == t[i - 1];
    }
  }

  lemma TailFirst(rs: seq<Row>, time: int)
    requires rs != [] && !Expired(rs[0], time)
    ensures CurrentFirst(rs, time) <==> CurrentFirst(rs[1..], time)
  {
    var t := rs[1..];
    assert forall i :: 0 <= i < |t| ==> t[i] == rs[i + 1];
    if CurrentFirst(t, time) {
      forall i, j | 0 <= i < j < |rs| && Expired(rs[i], time) ensures Expired(rs[j], time) {
        assert t[i-1] == rs[i] && t[j-1] == rs[j];
      }
    }
  }

  /** News of tick 1, then, after the tick number was set back, of tick 0: once the latter has expired the count
      says one row is current, and the first row shown is not. */
  lemma ExpiredRowFirst(a: seq<int>, b: seq<int>)
    ensures var rs, time := [Row(0, 0, a)] + [Row(1, 0, b)], EXPIRE_TIME + 1;
            |Current(rs, time)| == 1 && rs[..1] != Current(rs, time)
  {
    var rs, time := [Row(0, 0, a)] + [Row(1, 0, b)], EXPIRE_TIME + 1;
    assert rs[1..] == [Row(1, 0, b)] && [Row(1, 0, b)][1..] == [];
    assert Current([Row(1, 0, b)], time) == [Row(1, 0, b)] + Current([], time);
    assert [] + Current(rs[1..], time) == Current(rs[1..], time) == [Row(1, 0, b)] == Current(rs, time);
    assert rs[..1][0] == Row(0, 0, a);
  }
}
