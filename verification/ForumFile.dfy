/** Threads of a forum: a count, an end offset, the thread's own record, and the chain of posts. */
module ForumFile {
  import opened ByteFile
  import opened ChainFile
  import opened MailFile

  const FORUM_MAX := 0x1_0000

  /** `thread` is the size of the thread record, which has its count of posts at byte 64. */
  function Forum(thread: nat, head: nat): Format {
    Format(4, head, 8 + thread)
  }

  const POSTS: nat := 72

  ghost predicate Right(thread: nat, head: nat) {
    thread >= 68 && head >= 4
  }

  /** The file holds these posts, and the thread record says there are `posts` of them. */
  ghost predicate Thread(f: Format, data: seq<byte>, recs: seq<Rec>, posts: nat) {
    && Fits(f, recs) && Stamped(data, posts)
    && At(data, 0, Bytes(|recs|, 4)) && At(data, 4, Bytes(f.start + Length(f, recs), 4))
    && Chain(f, data, recs, f.start)
  }

  ghost predicate Stamped(data: seq<byte>, posts: nat) {
    posts < 0x1_0000_0000 && At(data, POSTS, Bytes(posts, 4))
  }

  /** The thread's own file as dbForumAddThread makes it: no posts, whatever its record says. */
  method NewThread(thread: nat, head: nat, record: seq<byte>, ghost posts: nat) returns (file: File)
    requires Right(thread, head) && 8 + thread < 0x8000_0000
    requires |record| == thread && posts < 0x1_0000_0000 && At(record, 64, Bytes(posts, 4))
    ensures fresh(file) && Thread(Forum(thread, head), file.data, [], posts)
    ensures file.data[8..8+thread] == record
  {
    hide Bytes;
    file := new File();
    file.WriteInt(4, 0);
    file.WriteInt(4, 8 + thread);
    file.Write(record);
    assert file.data == Bytes(0, 4) + Bytes(8 + thread, 4) + record;
    assert file.data[0..4] == Bytes(0, 4) && file.data[4..8] == Bytes(8 + thread, 4);
    assert file.data[POSTS..POSTS+4] == record[64..68];
  }

  lemma ThreadCounts(f: Format, data: seq<byte>, recs: seq<Rec>, posts: nat)
    requires Sound(f) && f.width == 4 && f.start >= POSTS + 4 && Thread(f, data, recs, posts)
    ensures f.start <= |data| && Value(data[0..4]) == |recs| && Value(data[4..8]) == f.start + Length(f, recs)
    ensures Value(data[POSTS..POSTS+4]) == posts
  {
    hide Length, Bytes, AllOk, Image;
    LimitFits(f);
    assert Pow256(4) == 0x1_0000_0000;
    ReadsBack(data, 0, |recs|, 4);
    ReadsBack(data, 4, f.start + Length(f, recs), 4);
    ReadsBack(data, POSTS, posts, 4);
  }

  /** The first bytes of a thread: two numbers of four bytes, the thread record with its count of posts at 64, and the
      first post with the place of the next one before it. */
  lemma ThreadLayout(thread: nat, head: nat, data: seq<byte>, recs: seq<Rec>, posts: nat)
    requires Right(thread, head) && Thread(Forum(thread, head), data, recs, posts)
    ensures 8 + thread <= |data| && data[0..4] == Bytes(|recs|, 4) && data[8..8+thread][64..68] == Bytes(posts, 4)
    ensures recs == [] ==> data[4..8] == Bytes(8 + thread, 4)
    ensures recs != [] ==>
              var k, n := 12 + thread, 12 + thread + head + |recs[0].text|;
              && n <= |data| && data[8+thread..k] == Bytes(n, 4) && data[k..k+head] == recs[0].head
              && data[k+head..n] == recs[0].text && (|recs| == 1 ==> data[4..8] == Bytes(n, 4))
  {
    hide Bytes, Length, Chain;
    var f := Forum(thread, head);
    ChainReaches(f, data, recs);
    OffsetZero(f, recs);
    Inside(data, 8, 8 + thread, 64, 68);
    if recs == [] { assert recs[..0] == recs; } else { FirstPost(f, data, recs); }
  }

  lemma FirstPost(f: Format, data: seq<byte>, recs: seq<Rec>)
    requires recs != [] && AllOk(f, recs) && Chain(f, data, recs, f.start)
    ensures var k, n := f.start + f.width, f.start + f.width + f.head + |recs[0].text|;
            && n <= |data| && data[f.start..k] == Bytes(n, f.width) && data[k..k+f.head] == recs[0].head
            && data[k+f.head..n] == recs[0].text && (|recs| == 1 ==> f.start + Length(f, recs) == n)
  {
    hide Bytes, Length, Chain;
    ChainHead(f, data, recs, f.start);
    OneParts(f, data, recs[0], f.start);
    AllOkAt(f, recs, 0);
    if |recs| == 1 {
      assert recs == [recs[0]];
      SingleChain(f, data, recs[0], f.start);
    }
  }

  // ---------------------------------------------------------------- the thread record

  /** The record with another count and, unless `stamp` is empty, other data after it. */
  function NewRecord(data: seq<byte>, start: nat, count: nat, stamp: seq<byte>): (r: seq<byte>)
    requires POSTS + 4 <= start <= |data| && (stamp == [] || |stamp| == start - POSTS - 4)
    ensures |r| == start - 8
  {
    data[8..POSTS] + Bytes(count, 4) + (if stamp == [] then data[POSTS+4..start] else stamp)
  }

  /** Read the thread record, change its count, and write it back. */
  method Recount(file: File, thread: nat, change: int, stamp: seq<byte>, ghost posts: nat)
    requires thread >= 68 && 8 + thread <= |file.data| && Stamped(file.data, posts)
    requires |stamp| == thread - 68 || stamp == []
    modifies file
    ensures file.data == Splice(old(file.data), 8,
                                NewRecord(old(file.data), 8 + thread, (posts + change) % 0x1_0000_0000, stamp))
    ensures file.pos == 8 + thread
  {
    hide Bytes, Value, Splice;
    assert Pow256(4) == 0x1_0000_0000;
    ReadsBack(file.data, POSTS, posts, 4);
    file.Seek(8);
    var record := file.Read(thread);
    Inside(file.data, 8, 8 + thread, 64, 68);
    Inside(file.data, 8, 8 + thread, 0, 64);
    Inside(file.data, 8, 8 + thread, 68, thread);
    var count := (Value(record[64..68]) + change) % 0x1_0000_0000;
    file.Seek(8);
    file.Write(record[0..64] + Bytes(count, 4) + (if stamp == [] then record[68..thread] else stamp));
  }

  lemma Inside(data: seq<byte>, from: nat, to: nat, i: nat, j: nat)
    requires from <= to <= |data| && i <= j <= to - from
    ensures data[from..to][i..j] == data[from+i..from+j]
  {
    var a, b := data[from..to][i..j], data[from+i..from+j];
    assert |a| == |b| && forall k :: 0 <= k < |a| ==> a[k] == b[k];
  }

  lemma AfterRecount(f: Format, data: seq<byte>, count: nat, stamp: seq<byte>)
    requires POSTS + 4 <= f.start <= |data| && count < 0x1_0000_0000
    requires stamp == [] || |stamp| == f.start - POSTS - 4
    ensures var d := Splice(data, 8, NewRecord(data, f.start, count, stamp));
            && f.start <= |d| && Stamped(d, count) && d[8..POSTS] == data[8..POSTS]
            && d[POSTS+4..f.start] == if stamp == [] then data[POSTS+4..f.start] else stamp
  {
    hide Splice, Bytes;
    var d := Splice(data, 8, NewRecord(data, f.start, count, stamp));
    var topic, c, other := data[8..POSTS], Bytes(count, 4), if stamp == [] then data[POSTS+4..f.start] else stamp;
    SpliceWrites(data, 8, topic + c + other);
    AtJoin(d, 8, topic + c, other);
    AtJoin(d, 8, topic, c);
  }

  lemma ThreadRecounted(f: Format, data: seq<byte>, recs: seq<Rec>, posts: nat, count: nat)
    requires Sound(f) && f.width == 4 && POSTS + 4 <= f.start <= |data| && Thread(f, data, recs, posts) && count < 0x1_0000_0000
    ensures Thread(f, Splice(data, 8, NewRecord(data, f.start, count, [])), recs, count)
  {
    hide Length, AllOk, Chain, At, Bytes, Splice, NewRecord;
    var text := NewRecord(data, f.start, count, []);
    AfterRecount(f, data, count, []);
    ChainKept(f, data, recs, f.start, 8, text);
    SpliceKeeps(data, 8, text, 0, Bytes(|recs|, 4));
    SpliceKeeps(data, 8, text, 4, Bytes(f.start + Length(f, recs), 4));
  }

  // ---------------------------------------------------------------- posts

  /** The chain is written; the count and the end go to the front, first or last. */
  lemma MarkThread(f: Format, data: seq<byte>, recs: seq<Rec>, posts: nat)
    requires f.width == 4 && f.start >= POSTS + 4 && Fits(f, recs) && Chain(f, data, recs, f.start) && Stamped(data, posts)
    ensures Thread(f, Splice(Splice(data, 0, Bytes(|recs|, 4)), 4, Bytes(f.start + Length(f, recs), 4)), recs, posts)
    ensures f.start <= |data|
    ensures SameRecord(f, data, Splice(Splice(data, 0, Bytes(|recs|, 4)), 4, Bytes(f.start + Length(f, recs), 4)))
  {
    hide Length, Chain, AllOk, At, Bytes, SameRecord, Splice;
    var count, end := Bytes(|recs|, 4), Bytes(f.start + Length(f, recs), 4);
    var d := Splice(data, 0, count);
    ChainReaches(f, data, recs);
    ChainKept(f, data, recs, f.start, 0, count);
    ChainKept(f, d, recs, f.start, 4, end);
    SpliceWrites(data, 0, count);
    SpliceWrites(d, 4, end);
    SpliceKeeps(d, 4, end, 0, count);
    SpliceKeeps(data, 0, count, POSTS, Bytes(posts, 4));
    SpliceKeeps(d, 4, end, POSTS, Bytes(posts, 4));
    SpliceSame(f, data, 0, count);
    SpliceSame(f, d, 4, end);
    SameRecordTrans(f, data, d, Splice(d, 4, end));
  }

  lemma SpliceSame(f: Format, data: seq<byte>, at: nat, bytes: seq<byte>)
    requires at + |bytes| <= 8 <= f.start <= |data|
    ensures SameRecord(f, data, Splice(data, at, bytes))
  {
    var d := Splice(data, at, bytes);
    assert d[8..f.start] == data[8..f.start];
  }

  lemma RecordParts(f: Format, a: seq<byte>, b: seq<byte>)
    requires SameRecord(f, a, b) && POSTS + 4 <= f.start
    ensures f.start <= |a| && f.start <= |b| && b[8..POSTS] == a[8..POSTS] && b[POSTS+4..f.start] == a[POSTS+4..f.start]
  {
    var k := POSTS - 8;
    assert a[8..POSTS] == a[8..f.start][..k] && b[8..POSTS] == b[8..f.start][..k];
    assert a[POSTS+4..f.start] == a[8..f.start][k+4..] && b[POSTS+4..f.start] == b[8..f.start][k+4..];
  }

  lemma ChainReaches(f: Format, data: seq<byte>, recs: seq<Rec>)
    requires Chain(f, data, recs, f.start)
    ensures f.start <= |data|
  {
  }

  /** Nothing between the first eight bytes and the first post changes. */
  ghost predicate SameRecord(f: Format, a: seq<byte>, b: seq<byte>) {
    8 <= f.start <= |a| && f.start <= |b| && a[8..f.start] == b[8..f.start]
  }

  lemma PrefixSameRecord(f: Format, a: seq<byte>, b: seq<byte>, n: nat, posts: nat)
    requires SamePrefix(a, b, n) && POSTS + 4 <= f.start <= n && Stamped(a, posts)
    ensures SameRecord(f, a, b) && Stamped(b, posts)
  {
    assert a[8..f.start] == a[..n][8..f.start] && b[8..f.start] == b[..n][8..f.start];
    PrefixKeeps(a, b, n, POSTS, Bytes(posts, 4));
  }

  /** dbForumRemovePost. A negative post is not there, but the thread record has been counted down by
      the time the search fails. */
  method ForumRemovePost(file: File, thread: nat, head: nat, post: int, ghost recs: seq<Rec>, ghost posts: nat) returns (code: int)
    requires Right(thread, head) && Thread(Forum(thread, head), file.data, recs, posts)
    modifies file
    ensures 0 <= post < |recs| ==>
              code == |recs| - 1 && Thread(Forum(thread, head), file.data, recs[..post] + recs[post+1..], (posts - 1) % 0x1_0000_0000)
    ensures post >= |recs| ==> code == -3 && file.data == old(file.data)
    ensures post < 0 ==> code == -3 && Thread(Forum(thread, head), file.data, recs, (posts - 1) % 0x1_0000_0000)
    ensures code < 0 ==> (file.data == old(file.data) <==> 0 <= post)
    ensures var start := 8 + thread;
            && start <= |old(file.data)| && start <= |file.data|
            && file.data[8..POSTS] == old(file.data)[8..POSTS] && file.data[POSTS+4..start] == old(file.data)[POSTS+4..start]
  {
    hide At, Bytes, Chain, Splice, Length, RecOk, AllOk, Written, SamePrefix, SameRecord, Fits, NewRecord, Offset, Value, Stamped;
    var f := Forum(thread, head);
    ThreadCounts(f, file.data, recs, posts);
    file.Seek(0);
    var num := file.ReadInt(4);
    var offset := file.ReadInt(4);
    if post >= num { return -3; }
    ghost var n := (posts - 1) % 0x1_0000_0000;
    AfterRecount(f, file.data, n, []);
    ThreadRecounted(f, file.data, recs, posts, n);
    Recount(file, thread, -1, [], posts);
    ghost var mid := file.data;
    if post < 0 { StampsDiffer(mid, n, posts); }
    offset := f.start;
    file.Seek(offset);
    OffsetZero(f, recs);
    var a := 0;
    while a < num
      invariant 0 <= a <= num && file.data == mid && offset == file.pos == Offset(f, recs, a)
      invariant 0 <= post ==> a <= post
    {
      FitsMeans(f, recs);
      if a != post {
        offset := Follow(file, f, a, recs);
        file.Seek(offset);
        a := a + 1;
        continue;
      }
      RecordAt(f, file.data, recs, a);
      OffsetStep(f, recs, a);
      LengthParts(f, recs, a);
      var offset2 := Follow(file, f, a, recs);
      PartsOk(f, recs, a);
      offset := MoveDown(file, f, num - a - 1, offset, offset2, recs[a+1..]);
      AfterRemove(f, mid, file.data, recs, a, n);
      num := num - 1;
      file.Seek(0);
      file.WriteInt(4, num);
      file.WriteInt(4, offset);
      RecordParts(f, mid, file.data);
      return num;
    }
    return -3;
  }

  lemma StampsDiffer(data: seq<byte>, a: nat, b: nat)
    requires Stamped(data, a) && a != b
    ensures !Stamped(data, b)
  {
    hide At, Bytes, Value;
    assert Pow256(4) == 0x1_0000_0000;
    ReadsBack(data, POSTS, a, 4);
    if Stamped(data, b) { ReadsBack(data, POSTS, b, 4); }
  }

  /** Removing post -1 from a thread of one post: it is still there, and the thread record says there is none. */
  method RemoveMinusOne(file: File, thread: nat, head: nat, ghost p: Rec) returns (code: int)
    requires Right(thread, head) && Thread(Forum(thread, head), file.data, [p], 1)
    modifies file
    ensures code == -3 && Thread(Forum(thread, head), file.data, [p], 0)
  {
    hide Thread, SameRecord;
    code := ForumRemovePost(file, thread, head, -1, [p], 1);
  }

  lemma FitsMeans(f: Format, recs: seq<Rec>)
    requires Fits(f, recs)
    ensures AllOk(f, recs) && |recs| < Limit(f) && f.start + Length(f, recs) < Limit(f)
  {
  }

  lemma AfterRemove(f: Format, was: seq<byte>, data: seq<byte>, recs: seq<Rec>, a: nat, posts: nat)
    requires Sound(f) && f.width == 4 && f.start >= POSTS + 4
    requires Thread(f, was, recs, posts) && a < |recs| && SamePrefix(was, data, Offset(f, recs, a))
    requires Chain(f, data, recs[a+1..], Offset(f, recs, a))
    ensures var end := Offset(f, recs, a) + Length(f, recs[a+1..]);
            var d := Splice(Splice(data, 0, Bytes(|recs| - 1, 4)), 4, Bytes(end, 4));
            Thread(f, d, Without(recs, a), posts) && SameRecord(f, was, d)
  {
    hide At, Bytes, Splice, Length, AllOk, SamePrefix, Chain, Stamped, SameRecord;
    var w := Without(recs, a);
    LengthParts(f, recs, a);
    OffsetStep(f, recs, a);
    PartsOk(f, recs, a);
    RecordAt(f, was, recs, a);
    ChainPrefix(f, was, data, Offset(f, recs, a), recs[..a], f.start);
    ChainSplit(f, data, recs[..a], recs[a+1..], f.start);
    PrefixSameRecord(f, was, data, Offset(f, recs, a), posts);
    MarkThread(f, data, w, posts);
    SameRecordTrans(f, was, data, Splice(Splice(data, 0, Bytes(|recs| - 1, 4)), 4, Bytes(f.start + Length(f, w), 4)));
  }

  lemma SameRecordTrans(f: Format, a: seq<byte>, b: seq<byte>, c: seq<byte>)
    requires SameRecord(f, a, b) && SameRecord(f, b, c)
    ensures SameRecord(f, a, c)
  {
  }

  /** dbForumAddPost: `stamp` is what the post changes in the rest of the thread record. */
  method ForumAddPost(file: File, thread: nat, head: nat, r: Rec, stamp: seq<byte>, ghost recs: seq<Rec>, ghost posts: nat)
    returns (code: int)
    requires Right(thread, head) && Thread(Forum(thread, head), file.data, recs, posts) && RecOk(Forum(thread, head), r)
    requires Forum(thread, head).start + Length(Forum(thread, head), recs + [r]) < 0x8000_0000 && |stamp| == thread - 68
    modifies file
    ensures code == 1 && Thread(Forum(thread, head), file.data, recs + [r], (posts + 1) % 0x1_0000_0000)
    ensures 8 + thread <= |old(file.data)| && 8 + thread <= |file.data|
    ensures file.data[8..POSTS] == old(file.data)[8..POSTS]
    ensures stamp != [] ==> file.data[POSTS+4..8+thread] == stamp
  {
    hide At, Bytes, Chain, Splice, Length, RecOk, AllOk, Written, SameRecord, Fits, NewRecord, Stamped;
    var f := Forum(thread, head);
    ghost var was := file.data;
    ThreadCounts(f, was, recs, posts);
    file.Seek(0);
    var num := file.ReadInt(4);
    num := num + 1;
    file.Seek(0);
    BeforePost(f, was, recs, posts);
    file.WriteInt(4, num);
    var offset := file.ReadInt(4);
    ghost var counted := file.data;
    Recount(file, thread, 1, stamp, posts);
    ghost var recorded := file.data;
    RecHead(f, r);
    FitsMore(f, recs, r);
    var a := WriteRec(file, f, offset, r);
    file.Seek(4);
    file.WriteInt(4, a);
    AfterPost(f, counted, recs, r, (posts + 1) % 0x1_0000_0000, stamp);
    AfterRecount(f, counted, (posts + 1) % 0x1_0000_0000, stamp);
    RecordParts(f, recorded, file.data);
    code := 1;
  }

  lemma FitsMore(f: Format, recs: seq<Rec>, r: Rec)
    requires Sound(f) && Fits(f, recs) && RecOk(f, r) && f.start + Length(f, recs + [r]) < Limit(f)
    ensures Fits(f, recs + [r])
  {
    hide RecOk, Length;
    Room(f, recs, r);
    AddOk(f, recs, r);
    Room(f, recs + [r], r);
  }

  lemma BeforePost(f: Format, data: seq<byte>, recs: seq<Rec>, posts: nat)
    requires Sound(f) && f.width == 4 && f.start >= POSTS + 4 && Thread(f, data, recs, posts)
    ensures var d := Splice(data, 0, Bytes(|recs| + 1, 4));
            && 8 <= f.start <= |d| && Value(d[4..8]) == f.start + Length(f, recs) && Stamped(d, posts)
            && Chain(f, d, recs, f.start) && At(d, 0, Bytes(|recs| + 1, 4)) && SameRecord(f, data, d)
            && d[8..POSTS] == data[8..POSTS]
  {
    hide Length, AllOk, Chain, At, Bytes, Splice, SameRecord;
    var count, end := Bytes(|recs| + 1, 4), Bytes(f.start + Length(f, recs), 4);
    LimitFits(f);
    ChainReaches(f, data, recs);
    SpliceKeeps(data, 0, count, 4, end);
    SpliceKeeps(data, 0, count, POSTS, Bytes(posts, 4));
    ChainKept(f, data, recs, f.start, 0, count);
    SpliceWrites(data, 0, count);
    var d := Splice(data, 0, count);
    ReadsBack(d, 4, f.start + Length(f, recs), 4);
    SpliceSame(f, data, 0, count);
    RecordParts(f, data, d);
  }

  lemma AfterPost(f: Format, data: seq<byte>, recs: seq<Rec>, r: Rec, posts: nat, stamp: seq<byte>)
    requires Sound(f) && f.width == 4 && POSTS + 4 <= f.start <= |data| && |stamp| == f.start - POSTS - 4
    requires Fits(f, recs + [r]) && posts < 0x1_0000_0000
    requires Chain(f, data, recs, f.start) && At(data, 0, Bytes(|recs| + 1, 4))
    ensures var end := f.start + Length(f, recs);
            var d := Splice(data, 8, NewRecord(data, f.start, posts, stamp));
            var e := Splice(Written(f, d, end, r), 4, Bytes(end + Size(f, r), 4));
            Thread(f, e, recs + [r], posts) && SameRecord(f, d, e)
  {
    hide Length, Fits, Chain, At, Bytes, Splice, SameRecord, Written, NewRecord, Stamped;
    var text := NewRecord(data, f.start, posts, stamp);
    AfterRecount(f, data, posts, stamp);
    ChainKept(f, data, recs, f.start, 8, text);
    SpliceKeeps(data, 8, text, 0, Bytes(|recs| + 1, 4));
    AppendPost(f, Splice(data, 8, text), recs, r, posts);
  }

  lemma AppendPost(f: Format, d: seq<byte>, recs: seq<Rec>, r: Rec, posts: nat)
    requires Sound(f) && f.width == 4 && POSTS + 4 <= f.start <= |d| && Stamped(d, posts)
    requires Fits(f, recs + [r]) && Chain(f, d, recs, f.start) && At(d, 0, Bytes(|recs| + 1, 4))
    ensures var end := f.start + Length(f, recs);
            var e := Splice(Written(f, d, end, r), 4, Bytes(end + Size(f, r), 4));
            Thread(f, e, recs + [r], posts) && SameRecord(f, d, e)
  {
    hide Length, Fits, Chain, At, Bytes, Splice, SameRecord, Written;
    var end := f.start + Length(f, recs);
    var count, stop := Bytes(|recs| + 1, 4), Bytes(end + Size(f, r), 4);
    var w := Written(f, d, end, r);
    AppendOne(f, d, recs, f.start, r);
    WrittenPrefix(f, d, end, r, f.start);
    PrefixSameRecord(f, d, w, f.start, posts);
    PrefixKeeps(d, w, f.start, 0, count);
    SpliceKeeps(w, 4, stop, 0, count);
    SpliceKeeps(w, 4, stop, POSTS, Bytes(posts, 4));
    SpliceWrites(w, 4, stop);
    ChainReaches(f, w, recs + [r]);
    ChainKept(f, w, recs + [r], f.start, 4, stop);
    SpliceSame(f, w, 4, stop);
    SameRecordTrans(f, d, w, Splice(w, 4, stop));
  }

  /** dbForumListPosts: the posts from `base` up to `end`. */
  method ForumListPosts(file: File, thread: nat, head: nat, base: int, end: int, ghost recs: seq<Rec>, ghost posts: nat)
    returns (code: int, list: seq<Shown>)
    requires Right(thread, head) && Thread(Forum(thread, head), file.data, recs, posts)
    modifies file
    ensures file.data == old(file.data)
    ensures var n := if end < |recs| then end else |recs|;
            if base < 0 || base >= n then code == -3 && list == []
            else code == n - base && list == ShowAll(recs[base..n], FORUM_MAX)
  {
    hide At, Bytes, Chain, Splice, Length, RecOk, AllOk, Stamped, ShowAll, Show;
    list := [];
    if base < 0 { return -3, []; }
    var f := Forum(thread, head);
    ThreadCounts(f, file.data, recs, posts);
    file.Seek(0);
    var num: int := file.ReadInt(4);
    if end < num { num := end; }
    if base >= num { return -3, []; }
    var offset, a := f.start, 0;
    OffsetZero(f, recs);
    while a < base
      invariant 0 <= a <= base && file.data == old(file.data) && offset == Offset(f, recs, a)
    {
      file.Seek(offset);
      offset := Follow(file, f, a, recs);
      a := a + 1;
    }
    NothingShown(recs, base);
    while a < num
      invariant base <= a <= num && file.data == old(file.data) && offset == Offset(f, recs, a)
      invariant list == ShowAll(recs[base..a], FORUM_MAX)
    {
      RecordAt(f, file.data, recs, a);
      OffsetStep(f, recs, a);
      AllOkAt(f, recs, a);
      var r;
      offset, r := ReadRec(file, f, offset, recs[a]);
      ShownStep(recs, base, a, FORUM_MAX);
      list := list + [Show(r, FORUM_MAX)];
      a := a + 1;
    }
    code := a - base;
  }

  lemma AllOkAt(f: Format, recs: seq<Rec>, a: nat)
    requires AllOk(f, recs) && a < |recs|
    ensures RecOk(f, recs[a])
  {
  }

  lemma PostsListed(recs: seq<Rec>, base: nat, n: nat, i: nat)
    requires base <= n <= |recs| && i < n - base
    ensures var s, r := ShowAll(recs[base..n], FORUM_MAX), recs[base+i];
            |s| == n - base && s[i].head == r.head && s[i].text == if |r.text| < 65536 then Some(r.text) else None
  {
  }

  // ---------------------------------------------------------------- editing

  /** Every post behind `post` is short enough to be loaded, and the list reaches the last of them. */
  ghost predicate Rewritable(recs: seq<Rec>, post: int) {
    && (|recs| <= FORUM_MAX || post + 1 == |recs|)
    && forall i :: 0 <= i < |recs| && post < i ==> |recs[i].text| < FORUM_MAX
  }

  lemma RewritableIff(recs: seq<Rec>, post: nat)
    requires post < |recs|
    ensures Rewritable(recs, post) <==>
            (|recs| > 65536 ==> post == |recs| - 1) && forall i :: post < i < |recs| ==> |recs[i].text| < 65536
  {
  }

  /** What the listing before an edit yields. */
  function Later(recs: seq<Rec>, post: nat): seq<Shown> {
    var n := if FORUM_MAX < |recs| then FORUM_MAX else |recs|;
    if post + 1 < n then ShowAll(recs[post+1..n], FORUM_MAX) else []
  }

  lemma LaterAt(recs: seq<Rec>, post: nat, b: nat)
    requires post + 1 + b < |recs|
    ensures b < |Later(recs, post)| <==> post + 1 + b < FORUM_MAX
    ensures b < |Later(recs, post)| ==>
              var s, r := Later(recs, post)[b], recs[post+1+b];
              s.head == r.head && s.text == if |r.text| < FORUM_MAX then Some(r.text) else None
  {
  }

  /** dbForumEditPost: the posts after it are read first and written again behind the new text, which
      may be longer or shorter than the old one. `ok` is false when a post has to be written whose text was
      not loaded, or which the list does not reach. */
  method ForumEditPost(file: File, thread: nat, head: nat, post: int, r: Rec, ghost recs: seq<Rec>, ghost posts: nat)
    returns (code: int, ok: bool)
    requires Right(thread, head) && Thread(Forum(thread, head), file.data, recs, posts) && RecOk(Forum(thread, head), r)
    requires 0 <= post < |recs| ==> Forum(thread, head).start + Length(Forum(thread, head), recs[post := r]) < 0x8000_0000
    modifies file
    ensures 0 <= post < |recs| ==>
              (ok <==> (|recs| > 65536 ==> post == |recs| - 1) && forall i :: post < i < |recs| ==> |recs[i].text| < 65536)
    ensures 0 <= post < |recs| && ok ==> code == |recs| && Thread(Forum(thread, head), file.data, recs[post := r], posts)
    ensures !(0 <= post < |recs|) ==> ok && code == -3 && file.data == old(file.data)
    ensures SameRecord(Forum(thread, head), old(file.data), file.data)
  {
    hide At, Bytes, Chain, Splice, Length, RecOk, AllOk, Written, SameRecord, SamePrefix, Fits, Stamped, Offset, Value, Rewritable;
    var f := Forum(thread, head);
    ghost var was := file.data;
    ThreadCounts(f, was, recs, posts);
    SameAsItself(f, was);
    if 0 <= post < |recs| { RewritableIff(recs, post); }
    var got, list := ForumListPosts(file, thread, head, post + 1, FORUM_MAX, recs, posts);
    ok := true;
    file.Seek(0);
    var num := file.ReadInt(4);
    if post >= num { return -3, true; }
    var offset := f.start;
    file.Seek(offset);
    OffsetZero(f, recs);
    var a := 0;
    while a < num
      invariant 0 <= a <= num && file.data == was && offset == file.pos == Offset(f, recs, a)
      invariant 0 <= post ==> a <= post
    {
      FitsMeans(f, recs);
      if a != post {
        offset := Follow(file, f, a, recs);
        file.Seek(offset);
        a := a + 1;
        continue;
      }
      offset, ok := Rewrite(file, f, num, a, offset, r, list, recs);
      PrefixSameRecord(f, was, file.data, f.start, posts);
      if !ok { return num, false; }
      MarkEdited(f, was, file.data, recs, a, r, posts);
      file.Seek(4);
      file.WriteInt(4, offset);
      return num, true;
    }
    return -3, true;
  }

  lemma SameAsItself(f: Format, data: seq<byte>)
    requires 8 <= f.start <= |data|
    ensures SameRecord(f, data, data) && SamePrefix(data, data, f.start)
  {
  }

  /** The edited post and everything behind it, up to the first post that cannot be written back. */
  method Rewrite(file: File, f: Format, num: nat, post: nat, from: nat, r: Rec, list: seq<Shown>, ghost recs: seq<Rec>)
    returns (end: nat, ok: bool)
    requires Sound(f) && post < |recs| == num && Chain(f, file.data, recs, f.start) && RecOk(f, r) && AllOk(f, recs)
    requires from == Offset(f, recs, post) && list == Later(recs, post)
    modifies file
    ensures ok <==> Rewritable(recs, post)
    ensures ok ==> Chain(f, file.data, recs[post := r], f.start) && end == f.start + Length(f, recs[post := r])
    ensures SamePrefix(old(file.data), file.data, f.start)
  {
    hide At, Bytes, Chain, Splice, Length, RecOk, AllOk, Written, SamePrefix, Later;
    ghost var e, was := recs[post := r], file.data;
    ChainReaches(f, was, recs);
    SameAsItself(f, was);
    RecordAt(f, was, recs, post);
    assert e[..post] == recs[..post] && e[..post] + [r] == e[..post+1];
    RecHead(f, r);
    AppendOne(f, was, e[..post], f.start, r);
    WrittenPrefix(f, was, from, r, f.start);
    PrefixTrans(was, was, Written(f, was, from, r), f.start);
    end := WriteRec(file, f, from, r);
    var b, a := 0, post + 1;
    while a < num
      invariant post + 1 <= a <= num == |e| && b == a - post - 1
      invariant a == post + 1 || a <= FORUM_MAX
      invariant forall i :: post < i < a ==> |recs[i].text| < FORUM_MAX
      invariant end == f.start + Length(f, e[..a])
      invariant Chain(f, file.data, e[..a], f.start) && SamePrefix(was, file.data, f.start) && f.start <= |file.data|
    {
      LaterAt(recs, post, b);
      if b >= |list| || list[b].text.None? { return end, false; }
      var next := Rec(list[b].head, list[b].text.text);
      assert next == e[a];
      AllOkAt(f, recs, a);
      RecHead(f, next);
      assert e[..a] + [next] == e[..a+1];
      AppendOne(f, file.data, e[..a], f.start, next);
      WrittenPrefix(f, file.data, end, next, f.start);
      PrefixTrans(was, file.data, Written(f, file.data, end, next), f.start);
      end := WriteRec(file, f, end, next);
      a, b := a + 1, b + 1;
    }
    assert e[..a] == e;
    ok := true;
  }

  function LongPost(head: nat): Rec
    requires head >= 4
  {
    Rec(Bytes(FORUM_MAX, 4) + Zeros(head - 4), Zeros(FORUM_MAX))
  }

  /** In a thread of two short posts the second may be edited, but a text of 65536 characters there, which is
      well under what an edit may store, makes the next edit of the first one fail. */
  lemma EditSpoilsThread(thread: nat, head: nat, p: Rec, q: Rec)
    requires Right(thread, head) && |p.text| < FORUM_MAX && |q.text| < FORUM_MAX
    ensures RecOk(Forum(thread, head), LongPost(head)) && |LongPost(head).text| <= 2 * FORUM_MAX - 512
    ensures Rewritable([p, q], 0) && Rewritable([p, q], 1) && !Rewritable([p, q][1 := LongPost(head)], 0)
  {
    var recs := [p, q][1 := LongPost(head)];
    assert |recs| == 2 && |recs[1].text| >= FORUM_MAX;
  }

  lemma MarkEdited(f: Format, was: seq<byte>, data: seq<byte>, recs: seq<Rec>, post: nat, r: Rec, posts: nat)
    requires Sound(f) && f.width == 4 && f.start >= POSTS + 4 && Thread(f, was, recs, posts) && post < |recs| && RecOk(f, r)
    requires f.start + Length(f, recs[post := r]) < Limit(f)
    requires Chain(f, data, recs[post := r], f.start) && SamePrefix(was, data, f.start)
    ensures var d := Splice(data, 4, Bytes(f.start + Length(f, recs[post := r]), 4));
            Thread(f, d, recs[post := r], posts) && SameRecord(f, was, d)
  {
    hide Length, AllOk, Chain, At, Bytes, Splice, SameRecord, RecOk, SamePrefix;
    var e := recs[post := r];
    var count, end := Bytes(|recs|, 4), Bytes(f.start + Length(f, e), 4);
    EditOk(f, recs, post, r);
    ChainReaches(f, data, e);
    PrefixSameRecord(f, was, data, f.start, posts);
    PrefixKeeps(was, data, f.start, 0, count);
    SpliceKeeps(data, 4, end, 0, count);
    SpliceKeeps(data, 4, end, POSTS, Bytes(posts, 4));
    SpliceWrites(data, 4, end);
    ChainKept(f, data, e, f.start, 4, end);
    SpliceSame(f, data, 4, end);
    SameRecordTrans(f, was, data, Splice(data, 4, end));
  }

  lemma EditOk(f: Format, recs: seq<Rec>, post: nat, r: Rec)
    requires AllOk(f, recs) && RecOk(f, r) && post < |recs|
    ensures AllOk(f, recs[post := r])
  {
  }
}
