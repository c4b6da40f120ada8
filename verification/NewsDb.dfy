/** The routines of db.c that keep the news of a player and of an empire. */
module NewsDb {
  import opened NewsRules
  import opened NewsFile

  class NewsStore {
    var num: int
    var first: int
    var free: int
    var flags: bv64
    var numnext: int
    var slots: seq<Slot>

    ghost var used: seq<int>
    ghost var frees: seq<int>

    ghost predicate Valid()
      reads this
    {
      && Shape(slots, used, frees)
      && num == |used| && first == First(used) && free == First(frees) && numnext == |slots|
    }

    /** The rows, newest first. */
    ghost function Rows(): seq<Row>
      requires Valid()
      reads this
    {
      RowsOf(slots, used)
    }

    constructor ()
      ensures Valid() && Rows() == [] && flags == 0
    {
      num, first, free, flags, numnext, slots := 0, -1, -1, 0, 0, [];
      used, frees := [], [];
    }

    /** Link a row in front, in the first free slot or in a new one. */
    method Push(row: Row)
      requires Valid()
      modifies this
      ensures Valid() && Rows() == [row] + old(Rows()) && flags == old(flags)
      ensures |slots| == |old(slots)| + (if old(free) == -1 then 1 else 0)
    {
      hide Chain, FreeChain, Partition;
      var lcur;
      if free != -1 {
        TakeFree(slots, used, frees);
        PushReused(slots, used, frees, row);
        lcur := free;
        free := slots[lcur].next;
        frees := frees[1..];
      } else {
        NoneFree(slots, frees);
        PushNew(slots, used, row, Slot(-1, -1, row));
        lcur := numnext;
        numnext := numnext + 1;
        slots := slots + [Slot(-1, -1, row)];
      }
      slots := slots[lcur := Slot(-1, first, row)];
      if first != -1 { slots := slots[first := slots[first].(prev := lcur)]; }
      used := [lcur] + used;
      first := lcur;
      num := num + 1;
    }

    /** dbUserNewsAdd */
    method UserNewsAdd(row: Row, newFlags: bv64)
      requires Valid()
      modifies this
      ensures Valid() && Rows() == [row] + old(Rows()) && flags == old(flags) | newFlags
      ensures |slots| == |old(slots)| + (if old(free) == -1 then 1 else 0)
    {
      flags := flags | newFlags;
      Push(row);
    }

    /** dbFamNewsAdd */
    method FamNewsAdd(row: Row)
      requires Valid()
      modifies this
      ensures Valid() && Rows() == [row] + old(Rows()) && flags == old(flags)
      ensures |slots| == |old(slots)| + (if old(free) == -1 then 1 else 0)
    {
      Push(row);
    }

    /** Take a slot off the list of rows and put it on the list of free slots. */
    method Unlink(a: int, lprev: int, lnext: int, ghost k: nat)
      requires Valid() && k < |used| && a == used[k] && 0 <= a < |slots| && lprev == slots[a].prev && lnext == slots[a].next
      modifies this
      ensures Valid() && used == Removed(old(used), k) && flags == old(flags)
      ensures Rows() == old(Rows())[..k] + old(Rows())[k+1..]
      ensures |slots| == |old(slots)| && a !in used
    {
      hide Chain, FreeChain, Partition;
      UnlinkKeepsShape(slots, used, frees, k);
      UnlinkedFirst(slots, used, k);
      ghost var slots0 := slots;
      num := num - 1;
      if lprev != -1 {
        slots := slots[lprev := slots[lprev].(next := lnext)];
      } else {
        first := lnext;
      }
      if lnext != -1 { slots := slots[lnext := slots[lnext].(prev := lprev)]; }
      slots := slots[a := slots[a].(prev := -1, next := free)];
      if free != -1 { slots := slots[free := slots[free].(prev := a)]; }
      assert slots == Unlinked(slots0, a, lprev, lnext, free);
      free := a;
      used, frees := Removed(used, k), [a] + frees;
    }

    /** Write a row, links untouched. */
    method WriteRow(a: int, row: Row)
      requires Valid() && 0 <= a < |slots|
      modifies `slots
      ensures Valid() && |slots| == |old(slots)|
      ensures forall k :: 0 <= k < |used| && used[k] == a ==> Rows() == old(Rows())[k := row]
      ensures a !in used ==> Rows() == old(Rows())
    {
      hide Chain, FreeChain, Partition;
      FlagsKeepShape(slots, used, frees, a, row);
      slots := slots[a := slots[a].(row := row)];
    }

    /** dbUserNewsListUpdate: the rows for the player, and how many of them are unread. */
    method UserNewsListUpdate(time: int) returns (numnew: int, rows: seq<Row>)
      requires Valid()
      modifies this
      ensures Valid() && Rows() == Kept(old(Rows()), time) && flags == 0
      ensures rows == Shown(old(Rows()), time) && numnew == Unread(old(Rows())) && |slots| == |old(slots)|
    {
      hide Shape, Kept, Shown, Unread, Walk, Step;
      flags := 0;
      numnew, rows := num, [];
      var a, c := first, num;
      ghost var all, k := Rows(), 0;
      WalkStarts(all, time);
      while c > 0
        invariant Valid() && 0 <= c <= |all| && 0 <= k && k + c == |used| && a == First(used[k..]) && flags == 0
        invariant |slots| == |old(slots)|
        invariant Walk(all, |all| - c, time, Rows(), k, rows, numnew)
        decreases c
      {
        ghost var i, before := |all| - c, Rows();
        Here(slots, used, frees, k);
        WalkAt(all, i, time, before, k, rows, numnew);
        var lprev, lnext, row := slots[a].prev, slots[a].next, slots[a].row;
        c := c - 1;
        StepCases(before, k, row, time);
        if !IsNew(row) {
          numnew := numnew - 1;
          if !Expired(row, time) {
            WalkStep(all, i, time, before, k, rows, numnew + 1, Rows());
            k := k + 1;
            a := lnext;
            continue;
          }
          RemovedRest(used, k);
          Unlink(a, lprev, lnext, k);
        }
        WriteRow(a, Read(row));
        WalkStep(all, i, time, before, k, rows, if IsNew(row) then numnew else numnew + 1, Rows());
        if IsNew(row) { k := k + 1; }
        rows := rows + [Read(row)];
        a := lnext;
      }
      WalkEnds(all, time, Rows(), k, rows, numnew);
    }

    /** dbFamNewsList: all rows, for the last time the expired ones, and how many are current. */
    method FamNewsList(time: int) returns (count: int, rows: seq<Row>)
      requires Valid()
      modifies this
      ensures Valid() && Rows() == Current(old(Rows()), time) && flags == old(flags) & 0xFFFF_FFFF_0000_0000
      ensures rows == old(Rows()) && count == |Rows()| && |slots| == |old(slots)|
    {
      hide Shape, Current;
      flags := flags & 0xFFFF_FFFF_0000_0000;
      rows := [];
      var a, c := first, num;
      ghost var all, k := Rows(), 0;
      CurrentStarts(all, time);
      while c > 0
        invariant Valid() && 0 <= c <= |all| && 0 <= k && k + c == |used| && a == First(used[k..])
        invariant flags == old(flags) & 0xFFFF_FFFF_0000_0000 && |slots| == |old(slots)|
        invariant Rows()[k..] == all[|all|-c..] && Current(all, time) == Rows()[..k] + Current(all[|all|-c..], time)
        invariant rows == all[..|all|-c]
        decreases c
      {
        ghost var i, before := |all| - c, Rows();
        Here(slots, used, frees, k);
        CurrentStep(all, i, time, before, k);
        var lprev, lnext, row := slots[a].prev, slots[a].next, slots[a].row;
        c := c - 1;
        if Expired(row, time) {
          RemovedRest(used, k);
          Unlink(a, lprev, lnext, k);
        } else {
          k := k + 1;
        }
        rows := rows + [row];
        a := lnext;
      }
      count := num;
      Done(all[|all|-c..], time);
      assert Rows()[..k] + [] == Rows();
    }
  }

  lemma CurrentStarts(all: seq<Row>, time: int)
    ensures all[0..] == all && all[..0] == [] && [] + Current(all, time) == Current(all, time)
  {
  }

  lemma CurrentStep(all: seq<Row>, i: nat, time: int, now: seq<Row>, k: nat)
    requires i < |all| && k < |now| && now[k..] == all[i..] && Current(all, time) == now[..k] + Current(all[i..], time)
    ensures now[k] == all[i] && all[..i] + [all[i]] == all[..i+1]
    ensures Expired(all[i], time) ==>
              var n := now[..k] + now[k+1..]; n[k..] == all[i+1..] && Current(all, time) == n[..k] + Current(all[i+1..], time)
    ensures !Expired(all[i], time) ==>
              now[k+1..] == all[i+1..] && Current(all, time) == now[..k+1] + Current(all[i+1..], time)
  {
    hide Current;
    var s := all[i..];
    assert s[0] == all[i] && s[1..] == all[i+1..] && now[k..][0] == now[k] && now[k..][1..] == now[k+1..];
    Unfold(s, time);
    if Expired(all[i], time) {
      assert (now[..k] + now[k+1..])[..k] == now[..k];
      assert [] + Current(all[i+1..], time) == Current(all[i+1..], time);
    } else {
      Assoc(now[..k], [all[i]], Current(all[i+1..], time));
      assert now[..k] + [all[i]] == now[..k+1];
    }
  }

  // ---------------------------------------------------------------- the walk through a player's list

  /** The first `i` rows have been dealt with; the first `k` rows of the list now are what is kept of them. */
  ghost predicate Walk(all: seq<Row>, i: nat, time: int, now: seq<Row>, k: nat, rows: seq<Row>, numnew: int) {
    && i <= |all| && k <= |now| && now[k..] == all[i..]
    && Kept(all, time) == now[..k] + Kept(all[i..], time)
    && Shown(all, time) == rows + Shown(all[i..], time)
    && numnew == |all| - i + Unread(all) - Unread(all[i..])
  }

  lemma WalkStarts(all: seq<Row>, time: int)
    ensures Walk(all, 0, time, all, 0, [], |all|)
  {
    assert all[0..] == all && all[..0] == [];
    assert [] + Kept(all, time) == Kept(all, time) && [] + Shown(all, time) == Shown(all, time);
  }

  lemma WalkAt(all: seq<Row>, i: nat, time: int, now: seq<Row>, k: nat, rows: seq<Row>, numnew: int)
    requires Walk(all, i, time, now, k, rows, numnew) && i < |all|
    ensures k < |now| && now[k] == all[i]
  {
    assert now[k..][0] == all[i..][0];
  }

  /** What the list becomes where row `r` stands at `k`. */
  ghost function Step(now: seq<Row>, k: nat, r: Row, time: int): seq<Row>
    requires k < |now|
  {
    now[..k] + (if IsNew(r) then [Read(r)] else if Expired(r, time) then [] else [r]) + now[k+1..]
  }

  lemma StepCases(now: seq<Row>, k: nat, r: Row, time: int)
    requires k < |now| && now[k] == r
    ensures IsNew(r) ==> Step(now, k, r, time) == now[k := Read(r)]
    ensures !IsNew(r) && !Expired(r, time) ==> Step(now, k, r, time) == now
    ensures !IsNew(r) && Expired(r, time) ==> Step(now, k, r, time) == now[..k] + now[k+1..]
  {
  }

  lemma WalkStep(all: seq<Row>, i: nat, time: int, now: seq<Row>, k: nat, rows: seq<Row>, numnew: int, now': seq<Row>)
    requires Walk(all, i, time, now, k, rows, numnew) && i < |all| && k < |now| && now[k] == all[i]
    requires now' == Step(now, k, all[i], time)
    ensures var r := all[i];
            Walk(all, i + 1, time, now', if !IsNew(r) && Expired(r, time) then k else k + 1,
                 if IsNew(r) || Expired(r, time) then rows + [Read(r)] else rows, if IsNew(r) then numnew else numnew - 1)
  {
    hide Kept, Shown, Unread;
    var r := all[i];
    var x := if IsNew(r) then [Read(r)] else if Expired(r, time) then [] else [r];
    var k' := k + |x|;
    Next(all, i, time, now[..k], rows);
    assert now[k..][1..] == all[i..][1..];
    assert now'[..k'] == now[..k] + x && now'[k'..] == now[k+1..] == all[i+1..];
    assert rows + [] == rows;
  }

  lemma WalkEnds(all: seq<Row>, time: int, now: seq<Row>, k: nat, rows: seq<Row>, numnew: int)
    requires Walk(all, |all|, time, now, k, rows, numnew)
    ensures now == Kept(all, time) && rows == Shown(all, time) && numnew == Unread(all)
  {
    assert all[|all|..] == [];
    assert now == now[..k] + now[k..];
  }

  lemma UnlinkedFirst(slots: seq<Slot>, used: seq<int>, k: nat)
    requires Chain(slots, used) && k < |used|
    ensures 0 <= used[k] < |slots|
    ensures First(Removed(used, k)) == if slots[used[k]].prev == -1 then slots[used[k]].next else First(used)
    ensures |Removed(used, k)| == |used| - 1 && used[k] !in Removed(used, k)
  {
    assert Linked(slots, used, k);
  }

  lemma NoneFree(slots: seq<Slot>, frees: seq<int>)
    requires FreeChain(slots, frees) && First(frees) == -1
    ensures frees == []
  {
  }

  lemma Done(rest: seq<Row>, time: int)
    ensures rest == [] ==> Kept(rest, time) == [] && Shown(rest, time) == [] && Unread(rest) == 0 && Current(rest, time) == []
  {
  }

  lemma Here(slots: seq<Slot>, used: seq<int>, frees: seq<int>, k: nat)
    requires Shape(slots, used, frees) && k < |used|
    ensures First(used[k..]) == used[k] && 0 <= used[k] < |slots|
    ensures RowsOf(slots, used)[k] == slots[used[k]].row && slots[used[k]].next == First(used[k+1..])
  {
    assert Linked(slots, used, k);
  }

  lemma RemovedRest(used: seq<int>, k: nat)
    requires k < |used|
    ensures Removed(used, k)[k..] == used[k+1..]
  {
  }

  /** What one row contributes. */
  lemma Next(all: seq<Row>, i: nat, time: int, done: seq<Row>, rows: seq<Row>)
    requires i < |all|
    ensures var r, t := all[i], all[i+1..];
            && done + Kept(all[i..], time) ==
               done + (if IsNew(r) then [Read(r)] else if Expired(r, time) then [] else [r]) + Kept(t, time)
            && rows + Shown(all[i..], time) == rows + (if IsNew(r) || Expired(r, time) then [Read(r)] else []) + Shown(t, time)
            && Unread(all[i..]) == (if IsNew(r) then 1 else 0) + Unread(t)
            && done + all[i..] == done + [r] + t
  {
    hide Kept, Shown, Unread;
    var r, s, t := all[i], all[i..], all[i+1..];
    assert s[0] == r && s[1..] == t && s == [r] + t;
    Unfold(s, time);
    Assoc(done, if IsNew(r) then [Read(r)] else if Expired(r, time) then [] else [r], Kept(t, time));
    Assoc(rows, if IsNew(r) || Expired(r, time) then [Read(r)] else [], Shown(t, time));
    Assoc(done, [r], t);
  }

  lemma Unfold(s: seq<Row>, time: int)
    requires s != []
    ensures var r, t := s[0], s[1..];
            && Kept(s, time) == (if IsNew(r) then [Read(r)] else if Expired(r, time) then [] else [r]) + Kept(t, time)
            && Shown(s, time) == (if IsNew(r) || Expired(r, time) then [Read(r)] else []) + Shown(t, time)
            && Unread(s) == (if IsNew(r) then 1 else 0) + Unread(t)
            && Current(s, time) == (if Expired(r, time) then [] else [r]) + Current(t, time)
  {
  }

  lemma Assoc(a: seq<Row>, b: seq<Row>, c: seq<Row>)
    ensures a + (b + c) == (a + b) + c
  {
  }
}
