/** Mail boxes: a count, the offset where the next message goes, and the chain of messages. */
module MailFile {
  import opened ByteFile
  import opened ChainFile

  const MAIL_MAX := 0x1_0000

  function Mail(head: nat): Format {
    Format(8, head, 16)
  }

  /** The file holds the messages, in order; the stored end is the true end unless there is none. */
  ghost predicate Holds(f: Format, data: seq<byte>, recs: seq<Rec>) {
    Fits(f, recs) && Marked(f, data, recs)
  }

  ghost predicate Fits(f: Format, recs: seq<Rec>) {
    AllOk(f, recs) && |recs| < Limit(f) && f.start + Length(f, recs) < Limit(f)
  }

  ghost predicate Marked(f: Format, data: seq<byte>, recs: seq<Rec>) {
    && At(data, 0, Bytes(|recs|, f.width))
    && (recs != [] ==> At(data, f.width, Bytes(f.start + Length(f, recs), f.width)) && Chain(f, data, recs, f.start))
  }

  function Without<T>(s: seq<T>, i: nat): seq<T>
    requires i < |s|
  {
    s[..i] + s[i+1..]
  }

  lemma HoldsCount(f: Format, data: seq<byte>, recs: seq<Rec>)
    requires Sound(f) && Holds(f, data, recs)
    ensures f.width <= |data| && Value(data[0..f.width]) == |recs|
    ensures recs != [] ==> 2 * f.width <= |data| && Value(data[f.width..f.width+f.width]) == f.start + Length(f, recs)
  {
    hide Chain, AllOk, At, Length, Bytes;
    LimitFits(f);
    ReadsBack(data, 0, |recs|, f.width);
    if recs != [] { ReadsBack(data, f.width, f.start + Length(f, recs), f.width); }
  }

  /** A new player's mail box is a zero count and nothing else. */
  method NewBox() returns (file: File)
    ensures fresh(file) && forall head :: Holds(Mail(head), file.data, [])
  {
    file := new File();
    file.WriteInt(8, 0);
    assert forall head: nat :: Holds(Mail(head), file.data, []) by {
      hide Bytes;
      SpliceWrites([], 0, Bytes(0, 8));
      assert forall head: nat :: Mail(head).width == 8 && Mail(head).start == 16;
      assert forall head: nat :: Length(Mail(head), []) == 0;
    }
  }

  /** dbMailAdd */
  method MailAdd(file: File, head: nat, r: Rec, ghost recs: seq<Rec>) returns (code: int)
    requires head >= 4 && Holds(Mail(head), file.data, recs) && RecOk(Mail(head), r)
    requires Mail(head).start + Length(Mail(head), recs + [r]) < Limit(Mail(head))
    modifies file
    ensures code == 1 && Holds(Mail(head), file.data, recs + [r])
  {
    hide At, Bytes, Chain, Splice, Length, RecOk, Written;
    var f := Mail(head);
    HoldsCount(f, file.data, recs);
    file.Seek(0);
    var num := file.ReadInt(8);
    var offset := 16;
    if num > 0 { offset := file.ReadInt(8); }
    Room(f, recs, r);
    AfterAdd(f, file.data, recs, r);
    RecHead(f, r);
    file.Seek(0);
    file.WriteInt(8, num + 1);
    var a := WriteRec(file, f, offset, r);
    file.Seek(8);
    file.WriteInt(8, a);
    code := 1;
  }

  lemma Room(f: Format, recs: seq<Rec>, r: Rec)
    ensures Length(f, recs + [r]) == Length(f, recs) + Size(f, r) && (recs == [] ==> Length(f, recs) == 0)
    ensures |recs| <= Length(f, recs) || f.width == 0
  {
    LengthSplit(f, recs, [r]);
    assert Length(f, [r]) == Size(f, r);
    CountBelowLength(f, recs);
  }

  lemma {:induction false} CountBelowLength(f: Format, recs: seq<Rec>)
    ensures f.width > 0 ==> |recs| <= Length(f, recs)
  {
    if recs != [] { CountBelowLength(f, recs[1..]); }
  }

  lemma FirstOrNext(f: Format, data: seq<byte>, recs: seq<Rec>, r: Rec)
    requires recs != [] ==> Chain(f, data, recs, f.start)
    ensures Chain(f, Written(f, data, f.start + Length(f, recs), r), recs + [r], f.start)
  {
    hide Chain, Length, Written, One;
    if recs == [] {
      Room(f, recs, r);
      WrittenIsThere(f, data, f.start, r);
      SingleChain(f, Written(f, data, f.start, r), r, f.start);
      assert recs + [r] == [r];
    } else {
      AppendOne(f, data, recs, f.start, r);
    }
  }

  /** The three writes of an addition. */
  lemma AfterAdd(f: Format, data: seq<byte>, recs: seq<Rec>, r: Rec)
    requires Sound(f) && Holds(f, data, recs) && RecOk(f, r) && f.start + Length(f, recs + [r]) < Limit(f)
    ensures var end := f.start + Length(f, recs);
            var d1 := Splice(data, 0, Bytes(|recs| + 1, f.width));
            var d2 := Written(f, d1, end, r);
            Holds(f, Splice(d2, f.width, Bytes(end + Size(f, r), f.width)), recs + [r])
  {
    hide At, Bytes, Splice, Length, RecOk, Written, Chain, AllOk;
    var end := f.start + Length(f, recs);
    var count, stop := Bytes(|recs| + 1, f.width), Bytes(end + Size(f, r), f.width);
    var d1 := Splice(data, 0, count);
    var d2 := Written(f, d1, end, r);
    Room(f, recs, r);
    SpliceWrites(data, 0, count);
    if recs != [] { ChainKept(f, data, recs, f.start, 0, count); }
    FirstOrNext(f, d1, recs, r);
    WrittenKeeps(f, d1, end, r, 0, count);
    AddOk(f, recs, r);
    MarkEnd(f, d2, recs + [r]);
  }

  lemma AddOk(f: Format, recs: seq<Rec>, r: Rec)
    requires AllOk(f, recs) && RecOk(f, r)
    ensures AllOk(f, recs + [r])
  {
  }

  /** With the count and the chain in place, writing the end completes the file. */
  lemma MarkEnd(f: Format, data: seq<byte>, recs: seq<Rec>)
    requires f.start >= 2 * f.width && At(data, 0, Bytes(|recs|, f.width))
    requires recs != [] ==> Chain(f, data, recs, f.start)
    ensures Marked(f, Splice(data, f.width, Bytes(f.start + Length(f, recs), f.width)), recs)
  {
    hide At, Bytes, Splice, Length, Chain;
    var stop := Bytes(f.start + Length(f, recs), f.width);
    SpliceKeeps(data, f.width, stop, 0, Bytes(|recs|, f.width));
    if recs != [] { ChainKept(f, data, recs, f.start, f.width, stop); }
    SpliceWrites(data, f.width, stop);
  }

  /** dbMailRemove: one message goes, all others stay in order. */
  method MailRemove(file: File, head: nat, message: int, ghost recs: seq<Rec>) returns (code: int)
    requires head >= 4 && Holds(Mail(head), file.data, recs)
    modifies file
    ensures 0 <= message < |recs| ==> code == |recs| - 1 && Holds(Mail(head), file.data, recs[..message] + recs[message+1..])
    ensures !(0 <= message < |recs|) ==> code == -3 && file.data == old(file.data)
  {
    hide At, Bytes, Chain, Splice, Length, RecOk, Written, SamePrefix;
    var f := Mail(head);
    HoldsCount(f, file.data, recs);
    file.Seek(0);
    var num := file.ReadInt(8);
    var offset := file.ReadInt(8);
    if message >= num { return -3; }
    offset := 16;
    file.Seek(offset);
    OffsetZero(f, recs);
    var a := 0;
    while a < num
      invariant 0 <= a <= num && file.data == old(file.data) && offset == file.pos == Offset(f, recs, a)
      invariant 0 <= message ==> a <= message
    {
      if a != message {
        offset := Follow(file, f, a, recs);
        file.Seek(offset);
        a := a + 1;
        continue;
      }
      ghost var kept, rest := recs[..a], recs[a+1..];
      RecordAt(f, file.data, recs, a);
      OffsetStep(f, recs, a);
      LengthParts(f, recs, a);
      var offset2 := Follow(file, f, a, recs);
      ghost var was := file.data;
      PartsOk(f, recs, a);
      offset := MoveDown(file, f, num - a - 1, offset, offset2, rest);
      AfterMove(f, was, file.data, recs, a);
      num := num - 1;
      file.Seek(0);
      file.WriteInt(8, num);
      file.WriteInt(8, offset);
      return num;
    }
    return -3;
  }

  lemma OffsetZero(f: Format, recs: seq<Rec>)
    ensures Offset(f, recs, 0) == f.start
  {
  }

  lemma LengthParts(f: Format, recs: seq<Rec>, a: nat)
    requires a < |recs|
    ensures Length(f, Without(recs, a)) == Length(f, recs[..a]) + Length(f, recs[a+1..])
    ensures Offset(f, recs, a + 1) + Length(f, recs[a+1..]) == f.start + Length(f, recs)
  {
    LengthSplit(f, recs[..a], recs[a+1..]);
    LengthSplit(f, recs[..a+1], recs[a+1..]);
    assert recs == recs[..a+1] + recs[a+1..];
  }

  lemma PartsOk(f: Format, recs: seq<Rec>, a: nat)
    requires AllOk(f, recs) && a < |recs|
    ensures AllOk(f, recs[a+1..]) && AllOk(f, Without(recs, a))
  {
  }

  /** After the move the front and the moved records form the chain without record `a`; then the
      count and the end are written. */
  lemma AfterMove(f: Format, was: seq<byte>, data: seq<byte>, recs: seq<Rec>, a: nat)
    requires Sound(f) && Holds(f, was, recs) && a < |recs| && SamePrefix(was, data, Offset(f, recs, a))
    requires Chain(f, data, recs[a+1..], Offset(f, recs, a))
    ensures var end := Offset(f, recs, a) + Length(f, recs[a+1..]);
            var d := Splice(Splice(data, 0, Bytes(|recs| - 1, f.width)), f.width, Bytes(end, f.width));
            Holds(f, d, Without(recs, a))
  {
    hide At, Bytes, Splice, Length, RecOk, AllOk, SamePrefix, Chain;
    var w, end := Without(recs, a), Offset(f, recs, a) + Length(f, recs[a+1..]);
    var count := Bytes(|recs| - 1, f.width);
    LengthParts(f, recs, a);
    OffsetStep(f, recs, a);
    PartsOk(f, recs, a);
    RecordAt(f, was, recs, a);
    ChainPrefix(f, was, data, Offset(f, recs, a), recs[..a], f.start);
    ChainSplit(f, data, recs[..a], recs[a+1..], f.start);
    ChainKept(f, data, w, f.start, 0, count);
    SpliceWrites(data, 0, count);
    MarkEnd(f, Splice(data, 0, count), w);
  }

  // ---------------------------------------------------------------- listing

  datatype Shown = Shown(head: seq<byte>, text: Option)
  datatype Option = None | Some(text: seq<byte>)

  /** A text that is too long is not loaded. */
  function Show(r: Rec, limit: nat): Shown {
    Shown(r.head, if |r.text| >= limit then None else Some(r.text))
  }

  function ShowAll(recs: seq<Rec>, limit: nat): (s: seq<Shown>)
    ensures |s| == |recs|
  {
    seq(|recs|, i requires 0 <= i < |recs| => Show(recs[i], limit))
  }

  lemma ShownStep(recs: seq<Rec>, base: nat, a: nat, limit: nat)
    requires base <= a < |recs|
    ensures ShowAll(recs[base..a+1], limit) == ShowAll(recs[base..a], limit) + [Show(recs[a], limit)]
  {
  }

  /** The messages listed, and those whose text is left out. */
  lemma ListedAre(recs: seq<Rec>, from: nat, n: nat, i: nat)
    requires from <= n <= |recs| && i < n - from
    ensures var s, r := ShowAll(recs[from..n], MAIL_MAX), recs[from+i];
            |s| == n - from && s[i].head == r.head && s[i].text == if |r.text| < 65536 then Some(r.text) else None
  {
  }

  /** The first bytes of a mail box: two numbers of eight bytes, and the first message with the place of the next
      one before it. */
  lemma BoxLayout(head: nat, data: seq<byte>, recs: seq<Rec>)
    requires head >= 4 && Holds(Mail(head), data, recs) && recs != []
    ensures var n := 24 + head + |recs[0].text|;
            && n <= |data| && data[0..8] == Bytes(|recs|, 8) && data[16..24] == Bytes(n, 8)
            && data[24..24+head] == recs[0].head && data[24+head..n] == recs[0].text
            && (|recs| == 1 ==> data[8..16] == Bytes(n, 8))
  {
    hide Bytes, Length, Chain;
    var f := Mail(head);
    ChainHead(f, data, recs, 16);
    OneParts(f, data, recs[0], 16);
    LengthStep(f, recs, 0);
    assert RecOk(f, recs[0]);
    if |recs| == 1 {
      assert recs == [recs[0]];
      SingleChain(f, data, recs[0], 16);
    }
  }

  /** dbMailList: the messages from `base` up to `end`, and how many there are in all. A negative `base` stands
      for 0; no list of negative length can be allocated. */
  method MailList(file: File, head: nat, base: int, end: int, ghost recs: seq<Rec>)
    returns (code: int, mails: seq<Shown>, rtnum: nat)
    requires head >= 4 && Holds(Mail(head), file.data, recs)
    modifies file
    ensures file.data == old(file.data) && rtnum == |recs|
    ensures var n, from := if end < |recs| then end else |recs|, if base < 0 then 0 else base;
            if base > n || n < 0 then code == -3 && mails == []
            else code == n - from && mails == ShowAll(recs[from..n], MAIL_MAX)
  {
    hide At, Bytes, Chain, Splice, Length, RecOk, ShowAll, Show;
    var f := Mail(head);
    HoldsCount(f, file.data, recs);
    file.Seek(0);
    rtnum := file.ReadInt(8);
    var num: int := rtnum;
    mails := [];
    if end < num { num := end; }
    if base > num { return -3, [], rtnum; }
    if num < 0 { return -3, [], rtnum; }
    NothingShown(recs, num);
    if base == num { return 0, [], rtnum; }
    var offset, a, b := 16, 0, 0;
    OffsetZero(f, recs);
    while a < base
      invariant 0 <= a && (a <= base || a == 0) && file.data == old(file.data) && offset == Offset(f, recs, a)
    {
      file.Seek(offset);
      offset := Follow(file, f, a, recs);
      a := a + 1;
    }
    ghost var from := a;
    NothingShown(recs, from);
    while a < num
      invariant from <= a <= num && b == a - from && file.data == old(file.data) && offset == Offset(f, recs, a)
      invariant mails == ShowAll(recs[from..a], MAIL_MAX)
    {
      RecordAt(f, file.data, recs, a);
      OffsetStep(f, recs, a);
      var r;
      offset, r := ReadRec(file, f, offset, recs[a]);
      ShownStep(recs, from, a, MAIL_MAX);
      mails := mails + [Show(r, MAIL_MAX)];
      a, b := a + 1, b + 1;
    }
    code := b;
  }

  lemma NothingShown(recs: seq<Rec>, i: nat)
    requires i <= |recs|
    ensures ShowAll(recs[i..i], MAIL_MAX) == []
  {
  }
}
