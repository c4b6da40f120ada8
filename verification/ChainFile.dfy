/** Records of different lengths chained through offsets: each says where the next one starts. */
module ChainFile {
  import opened ByteFile

  /** Width of an offset, size of a record's head, place of the first record. */
  datatype Format = Format(width: nat, head: nat, start: nat)

  ghost predicate Sound(f: Format) {
    (f.width == 4 || f.width == 8) && f.head >= 4 && f.start >= 2 * f.width
  }

  /** Offsets and counts are signed. */
  function Limit(f: Format): nat {
    if f.width == 4 then 0x8000_0000 else 0x8000_0000_0000_0000
  }

  lemma LimitFits(f: Format)
    requires Sound(f)
    ensures Limit(f) <= Pow256(f.width) && 0x8000_0000 <= Pow256(4)
  {
    assert Pow256(4) == 0x1_0000_0000;
    assert Pow256(8) == 0x1_0000_0000_0000_0000;
  }

  /** The first four bytes of the head are the length of the text. */
  datatype Rec = Rec(head: seq<byte>, text: seq<byte>)

  ghost predicate RecOk(f: Format, r: Rec) {
    |r.head| == f.head >= 4 && |r.text| < 0x8000_0000 && r.head[..4] == Bytes(|r.text|, 4)
  }

  ghost predicate AllOk(f: Format, recs: seq<Rec>) {
    forall i :: 0 <= i < |recs| ==> RecOk(f, recs[i])
  }

  function Size(f: Format, r: Rec): nat {
    f.width + |r.head| + |r.text|
  }

  function Length(f: Format, recs: seq<Rec>): nat {
    if recs == [] then 0 else Size(f, recs[0]) + Length(f, recs[1..])
  }

  /** One record at offset `off`. */
  function One(f: Format, r: Rec, off: nat): (s: seq<byte>)
    ensures |s| == Size(f, r)
  {
    Bytes(off + Size(f, r), f.width) + r.head + r.text
  }

  function Image(f: Format, recs: seq<Rec>, off: nat): (s: seq<byte>)
    ensures |s| == Length(f, recs)
  {
    if recs == [] then [] else One(f, recs[0], off) + Image(f, recs[1..], off + Size(f, recs[0]))
  }

  /** The records stand at `off`, one after the other. */
  ghost predicate Chain(f: Format, data: seq<byte>, recs: seq<Rec>, off: nat) {
    At(data, off, Image(f, recs, off))
  }

  lemma {:induction false} LengthSplit(f: Format, a: seq<Rec>, b: seq<Rec>)
    ensures Length(f, a + b) == Length(f, a) + Length(f, b)
  {
    if a == [] {
      assert a + b == b;
    } else {
      assert (a + b)[1..] == a[1..] + b;
      LengthSplit(f, a[1..], b);
    }
  }

  lemma ImageStep(f: Format, recs: seq<Rec>, off: nat)
    ensures recs == [] ==> Image(f, recs, off) == []
    ensures recs != [] ==> Image(f, recs, off) == One(f, recs[0], off) + Image(f, recs[1..], off + Size(f, recs[0]))
  {
  }

  lemma {:induction false} ImageSplit(f: Format, a: seq<Rec>, b: seq<Rec>, off: nat)
    ensures Image(f, a + b, off) == Image(f, a, off) + Image(f, b, off + Length(f, a))
  {
    hide One, Image, Size;
    ImageStep(f, a, off);
    if a == [] {
      assert a + b == b && [] + Image(f, b, off) == Image(f, b, off);
    } else {
      assert (a + b)[1..] == a[1..] + b;
      ImageStep(f, a + b, off);
      var next := off + Size(f, a[0]);
      ImageSplit(f, a[1..], b, next);
      Assoc(One(f, a[0], off), Image(f, a[1..], next), Image(f, b, next + Length(f, a[1..])));
    }
  }

  lemma Assoc(a: seq<byte>, b: seq<byte>, c: seq<byte>)
    ensures a + (b + c) == (a + b) + c
  {
  }

  lemma ChainSplit(f: Format, data: seq<byte>, a: seq<Rec>, b: seq<Rec>, off: nat)
    ensures Chain(f, data, a + b, off) <==> Chain(f, data, a, off) && Chain(f, data, b, off + Length(f, a))
  {
    hide At, Image, Length;
    ImageSplit(f, a, b, off);
    AtJoin(data, off, Image(f, a, off), Image(f, b, off + Length(f, a)));
  }

  lemma ChainHead(f: Format, data: seq<byte>, recs: seq<Rec>, off: nat)
    requires recs != []
    ensures Chain(f, data, recs, off) <==>
            At(data, off, One(f, recs[0], off)) && Chain(f, data, recs[1..], off + Size(f, recs[0]))
  {
    hide At, One;
    AtJoin(data, off, One(f, recs[0], off), Image(f, recs[1..], off + Size(f, recs[0])));
  }

  lemma OneParts(f: Format, data: seq<byte>, r: Rec, off: nat)
    ensures At(data, off, One(f, r, off)) <==>
            && At(data, off, Bytes(off + Size(f, r), f.width)) && At(data, off + f.width, r.head)
            && At(data, off + f.width + |r.head|, r.text)
  {
    hide At;
    AtJoin(data, off, Bytes(off + Size(f, r), f.width) + r.head, r.text);
    AtJoin(data, off, Bytes(off + Size(f, r), f.width), r.head);
  }

  /** A write outside the chain leaves it alone. */
  lemma ChainKept(f: Format, data: seq<byte>, recs: seq<Rec>, off: nat, at: nat, bytes: seq<byte>)
    requires Chain(f, data, recs, off) && (off + Length(f, recs) <= at || at + |bytes| <= off)
    ensures Chain(f, Splice(data, at, bytes), recs, off)
  {
    hide At, Image, Length, Splice;
    SpliceKeeps(data, at, bytes, off, Image(f, recs, off));
  }

  // ---------------------------------------------------------------- one record

  /** Seek to a record and read it; `next` is where the chain says the next one starts. */
  method ReadRec(file: File, f: Format, off: nat, ghost r: Rec) returns (next: nat, got: Rec)
    requires Sound(f) && RecOk(f, r) && At(file.data, off, One(f, r, off)) && off + Size(f, r) < Limit(f)
    modifies file
    ensures file.data == old(file.data) && got == r && next == off + Size(f, r)
  {
    hide Splice, One;
    LimitFits(f);
    OneParts(f, file.data, r, off);
    ReadsBack(file.data, off, off + Size(f, r), f.width);
    file.Seek(off);
    next := file.ReadInt(f.width);
    var head := file.Read(f.head);
    assert head == r.head;
    ValueOfBytes(|r.text|, 4);
    var text := file.Read(Value(head[..4]));
    got := Rec(head, text);
  }

  /** Seek to `off` and write a record there. */
  method WriteRec(file: File, f: Format, off: nat, r: Rec) returns (next: nat)
    requires Sound(f) && |r.head| == f.head
    modifies file
    ensures file.data == Written(f, old(file.data), off, r)
    ensures next == off + Size(f, r)
  {
    hide Splice;
    file.Seek(off);
    next := off + f.width + f.head + |r.text|;
    file.WriteInt(f.width, next);
    file.Write(r.head);
    file.Write(r.text);
  }

  function Written(f: Format, data: seq<byte>, off: nat, r: Rec): seq<byte> {
    Splice(Splice(Splice(data, off, Bytes(off + Size(f, r), f.width)), off + f.width, r.head), off + f.width + |r.head|, r.text)
  }

  lemma WrittenIsThere(f: Format, data: seq<byte>, off: nat, r: Rec)
    ensures At(Written(f, data, off, r), off, One(f, r, off))
  {
    hide At, Splice, One;
    var a, b, c := Bytes(off + Size(f, r), f.width), r.head, r.text;
    var x, y := off + f.width, off + f.width + |r.head|;
    var d1 := Splice(data, off, a);
    var d2 := Splice(d1, x, b);
    var d3 := Splice(d2, y, c);
    SpliceWrites(data, off, a);
    SpliceWrites(d1, x, b);
    SpliceWrites(d2, y, c);
    SpliceKeeps(d1, x, b, off, a);
    SpliceKeeps(d2, y, c, off, a);
    SpliceKeeps(d2, y, c, x, b);
    OneParts(f, d3, r, off);
  }

  /** Other bytes, and a chain elsewhere, are not touched. */
  lemma WrittenKeeps(f: Format, data: seq<byte>, off: nat, r: Rec, k: nat, other: seq<byte>)
    requires At(data, k, other) && (k + |other| <= off || off + Size(f, r) <= k)
    ensures At(Written(f, data, off, r), k, other)
  {
    hide At, Splice;
    var a, b, c := Bytes(off + Size(f, r), f.width), r.head, r.text;
    var x, y := off + f.width, off + f.width + |r.head|;
    SpliceKeeps(data, off, a, k, other);
    SpliceKeeps(Splice(data, off, a), x, b, k, other);
    SpliceKeeps(Splice(Splice(data, off, a), x, b), y, c, k, other);
  }

  // ---------------------------------------------------------------- walking and moving

  /** Where record `a` starts. */
  function Offset(f: Format, recs: seq<Rec>, a: nat): nat
    requires a <= |recs|
  {
    f.start + Length(f, recs[..a])
  }

  lemma OffsetStep(f: Format, recs: seq<Rec>, a: nat)
    requires a < |recs|
    ensures Offset(f, recs, a + 1) == Offset(f, recs, a) + Size(f, recs[a])
    ensures Offset(f, recs, a + 1) <= f.start + Length(f, recs)
  {
    assert recs[..a+1] == recs[..a] + [recs[a]];
    LengthSplit(f, recs[..a], [recs[a]]);
    assert recs == recs[..a+1] + recs[a+1..];
    LengthSplit(f, recs[..a+1], recs[a+1..]);
  }

  lemma RecordAt(f: Format, data: seq<byte>, recs: seq<Rec>, a: nat)
    requires a < |recs| && Chain(f, data, recs, f.start)
    ensures At(data, Offset(f, recs, a), One(f, recs[a], Offset(f, recs, a)))
    ensures Chain(f, data, recs[..a], f.start) && Chain(f, data, recs[a+1..], Offset(f, recs, a + 1))
  {
    hide At, One, Length;
    assert recs == recs[..a] + recs[a..] && recs[a..][0] == recs[a] && recs[a..][1..] == recs[a+1..];
    ChainSplit(f, data, recs[..a], recs[a..], f.start);
    ChainHead(f, data, recs[a..], Offset(f, recs, a));
    OffsetStep(f, recs, a);
  }

  /** Read the offset stored in record `a`. */
  method Follow(file: File, f: Format, a: nat, ghost recs: seq<Rec>) returns (next: nat)
    requires Sound(f) && a < |recs| && Chain(f, file.data, recs, f.start) && f.start + Length(f, recs) < Limit(f)
    requires file.pos == Offset(f, recs, a)
    modifies file
    ensures file.data == old(file.data) && next == Offset(f, recs, a + 1)
    ensures file.pos == Offset(f, recs, a) + f.width
  {
    hide At, One, Length, Chain;
    LimitFits(f);
    OffsetStep(f, recs, a);
    RecordAt(f, file.data, recs, a);
    OneParts(f, file.data, recs[a], file.pos);
    ReadsBack(file.data, file.pos, Offset(f, recs, a + 1), f.width);
    next := file.ReadInt(f.width);
  }

  /** The chain grows by one record while another chain, further on, has lost its first. */
  lemma MoveOne(f: Format, data: seq<byte>, done: seq<Rec>, off: nat, r: Rec, tail: seq<Rec>, behind: nat)
    requires Chain(f, data, done, off) && Chain(f, data, [r] + tail, behind) && off + Length(f, done) <= behind
    ensures var d := Written(f, data, off + Length(f, done), r);
            Chain(f, d, done + [r], off) && Chain(f, d, tail, behind + Size(f, r))
  {
    hide At, Image, One, Written, Length;
    AppendOne(f, data, done, off, r);
    ChainHead(f, data, [r] + tail, behind);
    assert ([r] + tail)[1..] == tail;
    WrittenKeeps(f, data, off + Length(f, done), r, behind + Size(f, r), Image(f, tail, behind + Size(f, r)));
  }

  lemma AppendOne(f: Format, data: seq<byte>, done: seq<Rec>, off: nat, r: Rec)
    requires Chain(f, data, done, off)
    ensures var d := Written(f, data, off + Length(f, done), r);
            Chain(f, d, done + [r], off)
    ensures Length(f, done + [r]) == Length(f, done) + Size(f, r)
  {
    hide At, Image, One, Written, Length;
    var end := off + Length(f, done);
    var d := Written(f, data, end, r);
    WrittenKeeps(f, data, end, r, off, Image(f, done, off));
    WrittenIsThere(f, data, end, r);
    SingleChain(f, d, r, end);
    ChainSplit(f, d, done, [r], off);
    LengthSplit(f, done, [r]);
  }

  lemma SingleChain(f: Format, data: seq<byte>, r: Rec, off: nat)
    ensures Chain(f, data, [r], off) <==> At(data, off, One(f, r, off))
    ensures Length(f, [r]) == Size(f, r)
  {
    hide At, One;
    assert One(f, r, off) + [] == One(f, r, off);
  }

  ghost predicate SamePrefix(a: seq<byte>, b: seq<byte>, n: nat) {
    n <= |a| && n <= |b| && a[..n] == b[..n]
  }

  lemma WrittenPrefix(f: Format, data: seq<byte>, off: nat, r: Rec, n: nat)
    requires n <= off && n <= |data|
    ensures SamePrefix(data, Written(f, data, off, r), n)
  {
    hide Splice;
    var a, b, c := Bytes(off + Size(f, r), f.width), r.head, r.text;
    SplicePrefix(data, off, a, n);
    SplicePrefix(Splice(data, off, a), off + f.width, b, n);
    SplicePrefix(Splice(Splice(data, off, a), off + f.width, b), off + f.width + |r.head|, c, n);
  }

  lemma SplicePrefix(data: seq<byte>, at: nat, bytes: seq<byte>, n: nat)
    requires n <= at && n <= |data|
    ensures SamePrefix(data, Splice(data, at, bytes), n)
  {
  }

  lemma PrefixKeeps(a: seq<byte>, b: seq<byte>, n: nat, k: nat, bytes: seq<byte>)
    requires SamePrefix(a, b, n) && At(a, k, bytes) && k + |bytes| <= n
    ensures At(b, k, bytes)
  {
    assert b[k..k+|bytes|] == b[..n][k..k+|bytes|] == a[..n][k..k+|bytes|] == a[k..k+|bytes|];
  }

  lemma ChainPrefix(f: Format, a: seq<byte>, b: seq<byte>, n: nat, recs: seq<Rec>, off: nat)
    requires SamePrefix(a, b, n) && Chain(f, a, recs, off) && off + Length(f, recs) <= n
    ensures Chain(f, b, recs, off)
  {
    hide SamePrefix, At;
    PrefixKeeps(a, b, n, off, Image(f, recs, off));
  }

  lemma LengthStep(f: Format, rest: seq<Rec>, j: nat)
    requires j < |rest|
    ensures Length(f, rest[..j+1]) == Length(f, rest[..j]) + Size(f, rest[j]) <= Length(f, rest)
  {
    assert rest[..j+1] == rest[..j] + [rest[j]] && rest == rest[..j+1] + rest[j+1..];
    LengthSplit(f, rest[..j], [rest[j]]);
    LengthSplit(f, rest[..j+1], rest[j+1..]);
  }

  /** The loop that moves the records after a removed one to the front, each read before it can be
      overwritten. */
  method MoveDown(file: File, f: Format, count: nat, from: nat, behind: nat, ghost rest: seq<Rec>) returns (end: nat)
    requires Sound(f) && AllOk(f, rest) && count == |rest| && Chain(f, file.data, rest, behind)
    requires from <= behind && behind + Length(f, rest) < Limit(f)
    modifies file
    ensures Chain(f, file.data, rest, from) && end == from + Length(f, rest)
    ensures SamePrefix(old(file.data), file.data, from)
  {
    hide At, Image, One, Written, Length, RecOk, Chain, SamePrefix;
    var offset, offset2, a := from, behind, 0;
    ghost var was := file.data;
    StartOfMove(f, file.data, rest, from, behind);
    while a < count
      invariant 0 <= a <= count && offset == from + Length(f, rest[..a]) && offset2 == behind + Length(f, rest[..a])
      invariant Chain(f, file.data, rest[..a], from) && Chain(f, file.data, rest[a..], offset2)
      invariant SamePrefix(was, file.data, from) && from <= |file.data|
    {
      ghost var tail := rest[a+1..];
      assert rest[a..] == [rest[a]] + tail && rest[a..][0] == rest[a] && rest[a..][1..] == tail;
      LengthStep(f, rest, a);
      ChainHead(f, file.data, rest[a..], offset2);
      MoveOne(f, file.data, rest[..a], from, rest[a], tail, offset2);
      assert rest[..a] + [rest[a]] == rest[..a+1];
      var r;
      offset2, r := ReadRec(file, f, offset2, rest[a]);
      WrittenPrefix(f, file.data, offset, r, from);
      PrefixTrans(was, file.data, Written(f, file.data, offset, r), from);
      RecHead(f, r);
      offset := WriteRec(file, f, offset, r);
      a := a + 1;
    }
    assert rest[..a] == rest;
    end := offset;
  }

  lemma RecHead(f: Format, r: Rec)
    ensures RecOk(f, r) ==> |r.head| == f.head
  {
  }

  lemma PrefixTrans(a: seq<byte>, b: seq<byte>, c: seq<byte>, n: nat)
    requires SamePrefix(a, b, n) && SamePrefix(b, c, n)
    ensures SamePrefix(a, c, n) && n <= |c|
  {
  }

  lemma StartOfMove(f: Format, data: seq<byte>, rest: seq<Rec>, from: nat, behind: nat)
    requires Chain(f, data, rest, behind) && from <= behind
    ensures SamePrefix(data, data, from) && rest[0..] == rest && Chain(f, data, rest[..0], from) && Length(f, rest[..0]) == 0
  {
  }
}
