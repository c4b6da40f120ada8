/** The second streaming MD5 of md5.c, which buffers byte by byte and counts blocks, and the
    agreement of the two implementations. */
module Md5Gnu {
  import opened Md5Rfc
  import opened Md5Stream
  import Md5Transform

  /** 2^38 bytes: 2^32 blocks. */
  const LIMIT := 0x40_0000_0000

  /** All but the last `count` bytes fed in have been hashed; those are in the buffer. */
  ghost predicate Holds(regs: Regs, nblocks: nat, buf: seq<byte>, count: nat, m: seq<byte>) {
    && |buf| == 64 && count <= 64 && count <= |m|
    && (|m| - count) % 64 == 0
    && regs == Blocks(m, (|m| - count) / 64)
    && buf[..count] == m[|m| - count..]
    && nblocks == ((|m| - count) / 64) % TWO32
  }

  lemma HoldsByte(regs: Regs, nblocks: nat, buf: seq<byte>, count: nat, m: seq<byte>, b: byte)
    requires Holds(regs, nblocks, buf, count, m) && count < 64
    ensures Holds(regs, nblocks, buf[count := b], count + 1, m + [b])
  {
    hide Blocks;
    BlocksPrefix(m, [b], (|m| - count) / 64);
    assert buf[count := b][..count+1] == buf[..count] + [b];
    assert (m + [b])[|m| - count..] == m[|m| - count..] + [b];
  }

  lemma HoldsFlush(regs: Regs, nblocks: nat, buf: seq<byte>, m: seq<byte>)
    requires Holds(regs, nblocks, buf, 64, m)
    ensures Holds(Compress(regs, buf), (nblocks + 1) % TWO32, buf, 0, m)
  {
    hide Compress;
    var k := (|m| - 64) / 64;
    assert |m| / 64 == k + 1 && m[64*k..64*(k+1)] == m[|m|-64..] == buf[..64] == buf;
    assert m[|m|..] == [] == buf[..0];
  }

  lemma HoldsBlock(regs: Regs, nblocks: nat, buf: seq<byte>, m: seq<byte>, x: seq<byte>)
    requires Holds(regs, nblocks, buf, 0, m) && |x| == 64
    ensures Holds(Compress(regs, x), (nblocks + 1) % TWO32, buf, 0, m + x)
  {
    hide Compress;
    var k := |m| / 64;
    BlocksPrefix(m, x, k);
    assert |m + x| / 64 == k + 1 && (m + x)[64*k..64*(k+1)] == x;
    assert (m + x)[|m + x|..] == [] == buf[..0];
  }

  /** MD5_CONTEXT; `seen` is what it has been fed since md5_init. */
  class GnuContext {
    var regs: Regs
    var nblocks: nat
    const buf: array<byte>
    var count: nat
    ghost var seen: seq<byte>

    ghost predicate Valid()
      reads this, buf
    {
      buf.Length == 64 && count < 64 && Holds(regs, nblocks, buf[..], count, seen)
    }

    constructor ()
      ensures Valid() && seen == [] && fresh(buf)
    {
      regs := IV;
      nblocks, count := 0, 0;
      buf := new byte[64];
      seen := [];
    }

    /** md5_write without input: process the buffer if it is full. */
    method Flush(ghost m: seq<byte>)
      requires buf.Length == 64 && Holds(regs, nblocks, buf[..], count, m)
      modifies `regs, `nblocks, `count
      ensures Holds(regs, nblocks, buf[..], count, m)
      ensures count == if old(count) == 64 then 0 else old(count)
    {
      hide Holds, Compress;
      if count == 64 {
        HoldsFlush(regs, nblocks, buf[..], m);
        regs := Md5Transform.Transform(regs, buf[..]);
        count := 0;
        nblocks := (nblocks + 1) % TWO32;
      }
    }

    /** Copy input into the buffer until either is exhausted. */
    method Fill(inbuf: seq<byte>, i0: nat, ghost m: seq<byte>) returns (i: nat)
      requires buf.Length == 64 && count <= 64 && i0 <= |inbuf| && Holds(regs, nblocks, buf[..], count, m)
      modifies `count, buf
      ensures i0 <= i <= |inbuf| && count <= 64 && (i == |inbuf| || count == 64)
      ensures count == old(count) + (i - i0)
      ensures Holds(regs, nblocks, buf[..], count, m + inbuf[i0..i])
    {
      hide Holds;
      i := i0;
      assert m + inbuf[i0..i] == m;
      while i < |inbuf| && count < 64
        invariant i0 <= i <= |inbuf| && count <= 64 && count == old(count) + (i - i0)
        invariant Holds(regs, nblocks, buf[..], count, m + inbuf[i0..i])
      {
        HoldsByte(regs, nblocks, buf[..], count, m + inbuf[i0..i], inbuf[i]);
        assert (m + inbuf[i0..i]) + [inbuf[i]] == m + inbuf[i0..i+1];
        assert buf[..][count := inbuf[i]] == buf[..count] + [inbuf[i]] + buf[count+1..];
        buf[count] := inbuf[i];
        assert buf[..] == buf[..count] + [inbuf[i]] + buf[count+1..];
        count := count + 1;
        i := i + 1;
      }
    }

    method Write(inbuf: seq<byte>)
      requires Valid()
      modifies this, buf
      ensures Valid() && seen == old(seen) + inbuf
    {
      hide Holds, Compress;
      Flush(seen);
      var i := 0;
      ghost var m := seen;
      seen := seen + inbuf;
      assert m + inbuf[..0] == m && m + inbuf == seen;
      if count != 0 {
        i := Fill(inbuf, 0, m);
        Flush(m + inbuf[0..i]);
        if i == |inbuf| {
          assert m + inbuf[0..i] == seen;
          return;
        }
      }
      assert m + inbuf[0..i] == m + inbuf[..i];
      ghost var s := seen;
      while |inbuf| - i >= 64
        invariant 0 <= i <= |inbuf| && seen == s && count == 0
        invariant Holds(regs, nblocks, buf[..], 0, m + inbuf[..i])
      {
        HoldsBlock(regs, nblocks, buf[..], m + inbuf[..i], inbuf[i..i+64]);
        assert (m + inbuf[..i]) + inbuf[i..i+64] == m + inbuf[..i+64];
        regs := Md5Transform.Transform(regs, inbuf[i..i+64]);
        count := 0;
        nblocks := (nblocks + 1) % TWO32;
        i := i + 64;
      }
      ghost var i1 := i;
      i := Fill(inbuf, i, m + inbuf[..i]);
      assert (m + inbuf[..i1]) + inbuf[i1..i] == seen;
    }

    /** The length in bits, computed from the block counter and the buffer in 32-bit steps. */
    method LengthField() returns (lsb: nat, msb: nat)
      requires nblocks < TWO32 && count < 64
      ensures lsb < TWO32 && msb < TWO32 && msb * TWO32 + lsb == 8 * (nblocks * 64 + count)
    {
      var t := nblocks;
      lsb := (t * 64) % TWO32;
      msb := t / 0x400_0000;
      Sixtyfourfold(t, msb, lsb);
      t := lsb;
      lsb := (lsb + count) % TWO32;
      var carry := if lsb < t then 1 else 0;
      msb := (msb + carry) % TWO32;
      t := lsb;
      lsb := (lsb * 8) % TWO32;
      msb := (msb * 8) % TWO32;
      msb := msb + t / 0x2000_0000;
      Eightfold(t, t / 0x2000_0000, lsb);
    }

    /** A one bit, then zeros, up to `limit` bytes in the buffer. */
    method PadTo(limit: nat, ghost m: seq<byte>)
      requires buf.Length == 64 && count < limit <= 64 && Holds(regs, nblocks, buf[..], count, m)
      modifies `count, buf
      ensures count == limit
      ensures Holds(regs, nblocks, buf[..], limit, m + [0x80] + seq(limit - 1 - old(count), _ => 0))
    {
      hide Holds;
      ghost var c := count;
      Put(0x80, m);
      assert m + [0x80] == m + [0x80] + seq(0, _ => 0);
      while count < limit
        invariant c < count <= limit
        invariant Holds(regs, nblocks, buf[..], count, m + [0x80] + seq(count - 1 - c, _ => 0))
      {
        Put(0, m + [0x80] + seq(count - 1 - c, _ => 0));
        assert m + [0x80] + seq(count - 2 - c, _ => 0) + [0] == m + [0x80] + seq(count - 1 - c, _ => 0);
      }
    }

    method Put(b: byte, ghost m: seq<byte>)
      requires buf.Length == 64 && count < 64 && Holds(regs, nblocks, buf[..], count, m)
      modifies `count, buf
      ensures count == old(count) + 1 && Holds(regs, nblocks, buf[..], count, m + [b])
    {
      hide Holds;
      HoldsByte(regs, nblocks, buf[..], count, m, b);
      ghost var before := buf[..];
      buf[count] := b;
      assert buf[..] == before[count := b];
      count := count + 1;
    }

    /** Pad until only the length is missing, in an extra block if the buffer is too full. */
    method PadToLength() returns (ghost m: seq<byte>)
      requires Valid()
      modifies `count, `nblocks, `regs, buf
      ensures m == seen + [0x80] + seq(PadZeros(|seen|), _ => 0)
      ensures Ready(regs, buf[..], m)
    {
      hide Holds, Ready;
      HoldsCounts(regs, nblocks, buf[..], count, seen);
      ghost var c := count;
      if count < 56 {
        PadTo(56, seen);
        m := seen + [0x80] + seq(55 - c, _ => 0);
        ReadyNow(regs, nblocks, buf[..], m);
      } else {
        PadTo(64, seen);
        m := seen + [0x80] + seq(63 - c, _ => 0);
        Flush(m);
        ghost var before := buf[..];
        forall k | 0 <= k < 56 { buf[k] := 0; }
        ReadyAfresh(regs, nblocks, before, buf[..], m);
        assert m + seq(56, _ => 0) == seen + [0x80] + seq(119 - c, _ => 0);
        m := m + seq(56, _ => 0);
      }
    }

    /** md5_final: the length it appends is that of the message modulo 2^38, because the block
        counter has 32 bits. */
    method Final() returns (digest: seq<byte>)
      requires Valid()
      modifies this, buf
      ensures digest == DigestWith(old(seen), |old(seen)| % LIMIT)
    {
      hide Holds, Compress, Blocks, Ready, BitLength, Output, Le32, PadZeros;
      Flush(seen);
      HoldsCounts(regs, nblocks, buf[..], count, seen);
      var lsb, msb := LengthField();
      ghost var n := |seen| % LIMIT;
      LengthIs(|seen|, nblocks, count, lsb, msb);
      ghost var m := PadToLength();
      ghost var ready := buf[..];
      Store(buf, 56, Le32(lsb) + Le32(msb));
      assert buf[..56] == ready[..56] && buf[56..] == BitLength(n);
      ReadyBlock(regs, ready, buf[..], m, BitLength(n));
      assert m + BitLength(n) == PadWith(seen, n);
      regs := Md5Transform.Transform(regs, buf[..]);
      digest := Output(regs);
    }
  }

  lemma Sixtyfourfold(t: nat, hi: nat, low: nat)
    requires t < TWO32 && hi == t / 0x400_0000 && low == (t * 64) % TWO32
    ensures t * 64 == hi * TWO32 + low && hi < 64 && low <= TWO32 - 64
  {
  }

  lemma HoldsCounts(regs: Regs, nblocks: nat, buf: seq<byte>, count: nat, m: seq<byte>)
    requires Holds(regs, nblocks, buf, count, m) && count < 64
    ensures count == |m| % 64 && nblocks == (|m| / 64) % TWO32
  {
  }

  lemma LengthIs(n: nat, nblocks: nat, count: nat, lsb: nat, msb: nat)
    requires nblocks == (n / 64) % TWO32 && count == n % 64 && lsb < TWO32 && msb < TWO32
    requires msb * TWO32 + lsb == 8 * (nblocks * 64 + count)
    ensures Le32(lsb) + Le32(msb) == BitLength(n % LIMIT)
  {
    var q, r := (n / 64) / TWO32, nblocks * 64 + count;
    assert n / 64 == q * TWO32 + nblocks && n == 64 * (n / 64) + count;
    ModLimit(n, q, r);
    Mod64(8 * r, 0, 8 * r);
    Mod32(8 * r, msb, lsb);
  }

  lemma ModLimit(x: nat, q: nat, r: nat)
    requires r < LIMIT && x == q * LIMIT + r
    ensures x % LIMIT == r
  {
  }

  /** The message is padded up to the length field and the buffer holds what is not hashed yet. */
  ghost predicate Ready(regs: Regs, buf: seq<byte>, m: seq<byte>) {
    |buf| == 64 && |m| % 64 == 56 && regs == Blocks(m, |m| / 64) && buf[..56] == m[|m| - 56..]
  }

  lemma ReadyNow(regs: Regs, nblocks: nat, buf: seq<byte>, m: seq<byte>)
    requires Holds(regs, nblocks, buf, 56, m)
    ensures Ready(regs, buf, m)
  {
    hide Blocks;
    assert |m| == 64 * ((|m| - 56) / 64) + 56;
  }

  lemma ReadyAfresh(regs: Regs, nblocks: nat, before: seq<byte>, buf: seq<byte>, m: seq<byte>)
    requires Holds(regs, nblocks, before, 0, m) && |buf| == 64 && forall k :: 0 <= k < 56 ==> buf[k] == 0
    ensures Ready(regs, buf, m + seq(56, _ => 0))
  {
    hide Blocks;
    var z: seq<byte> := seq(56, _ => 0);
    BlocksPrefix(m, z, |m| / 64);
    assert |m + z| / 64 == |m| / 64;
    assert (m + z)[|m + z| - 56..] == z == buf[..56];
  }

  lemma ReadyBlock(regs: Regs, ready: seq<byte>, buf: seq<byte>, m: seq<byte>, len: seq<byte>)
    requires |len| == 8 && Ready(regs, ready, m) && |buf| == 64 && buf[..56] == ready[..56] && buf[56..] == len
    ensures Compress(regs, buf) == Blocks(m + len, |m + len| / 64)
  {
    hide Compress;
    var p, k := m + len, |m| / 64;
    BlocksPrefix(m, len, k);
    assert |p| / 64 == k + 1;
    assert p[64*k..64*(k+1)] == m[|m|-56..] + len == buf[..56] + buf[56..] == buf;
  }

  // ---------------------------------------------------------------- the two implementations

  function Joined(chunks: seq<seq<byte>>): seq<byte> {
    if chunks == [] then [] else Joined(chunks[..|chunks|-1]) + chunks[|chunks|-1]
  }

  /** The number of bytes the first implementation counts. */
  function Counts(chunks: seq<seq<byte>>): (n: nat)
    ensures n < TWO64
  {
    if chunks == [] then 0 else (Counts(chunks[..|chunks|-1]) + |chunks[|chunks|-1]| % TWO32) % TWO64
  }

  /** It is the number of bytes there are exactly when no chunk has 2^32 bytes or more. */
  lemma {:induction false} CountIsRightIff(chunks: seq<seq<byte>>)
    requires |Joined(chunks)| < TWO64
    ensures Counts(chunks) <= |Joined(chunks)|
    ensures Counts(chunks) == |Joined(chunks)| <==> forall i :: 0 <= i < |chunks| ==> |chunks[i]| < TWO32
  {
    if chunks != [] {
      var front, last := chunks[..|chunks|-1], chunks[|chunks|-1];
      CountIsRightIff(front);
      Mod64(Counts(front) + |last| % TWO32, 0, Counts(front) + |last| % TWO32);
      assert |last| % TWO32 == |last| <==> |last| < TWO32;
      assert forall i :: 0 <= i < |chunks| ==> chunks[i] == if i < |front| then front[i] else last;
    }
  }

  /** One chunk of 2^32 bytes is counted as none. */
  lemma LongChunkLost(chunk: seq<byte>)
    requires |chunk| == TWO32
    ensures Counts([chunk]) == 0 && |Joined([chunk])| == TWO32
  {
    assert [chunk][..0] == [] && Joined([]) == [];
  }

  /** The digest the first implementation gives for a message fed in chunks. */
  method PolarMd5(chunks: seq<seq<byte>>) returns (digest: seq<byte>)
    ensures digest == DigestWith(Joined(chunks), Counts(chunks))
  {
    hide DigestWith, Keeps;
    var ctx := new PolarContext();
    var i := 0;
    while i < |chunks|
      invariant 0 <= i <= |chunks| && fresh(ctx) && fresh(ctx.buffer) && ctx.Kept()
      invariant ctx.seen == Joined(chunks[..i]) && ctx.Total() == Counts(chunks[..i])
    {
      ctx.Update(chunks[i]);
      assert chunks[..i+1][..i] == chunks[..i];
      i := i + 1;
    }
    assert chunks[..i] == chunks;
    digest := ctx.Finish();
  }

  method GnuMd5(chunks: seq<seq<byte>>) returns (digest: seq<byte>)
    ensures digest == DigestWith(Joined(chunks), |Joined(chunks)| % LIMIT)
  {
    hide DigestWith, Holds;
    var ctx := new GnuContext();
    var i := 0;
    while i < |chunks|
      invariant 0 <= i <= |chunks| && fresh(ctx) && fresh(ctx.buf) && ctx.Valid()
      invariant ctx.seen == Joined(chunks[..i])
    {
      ctx.Write(chunks[i]);
      assert chunks[..i+1][..i] == chunks[..i];
      i := i + 1;
    }
    assert chunks[..i] == chunks;
    digest := ctx.Final();
  }

  /** However a message under 2^38 bytes is cut for either implementation, both give the digest of
      RFC 1321, provided the first counts its length right, which it does exactly when no chunk has 2^32 bytes. */
  method BothAgree(polar: seq<seq<byte>>, gnu: seq<seq<byte>>) returns (d1: seq<byte>, d2: seq<byte>)
    requires Joined(polar) == Joined(gnu) && |Joined(gnu)| < LIMIT
    ensures d2 == Digest(Joined(gnu)) && d1 == DigestWith(Joined(gnu), Counts(polar))
    ensures Counts(polar) == |Joined(gnu)| <==> forall i :: 0 <= i < |polar| ==> |polar[i]| < TWO32
    ensures (forall i :: 0 <= i < |polar| ==> |polar[i]| < TWO32) ==> d1 == d2
  {
    hide DigestWith, Joined;
    ModLimit(|Joined(gnu)|, 0, |Joined(gnu)|);
    CountIsRightIff(polar);
    d1 := PolarMd5(polar);
    d2 := GnuMd5(gnu);
  }

  /** A context is determined by what it was fed, not by how: many chunks leave what one would. */
  lemma SameInputSameContext(a: PolarContext, b: PolarContext)
    requires a.Valid() && b.Valid() && a.seen == b.seen
    ensures a.state == b.state && a.total0 == b.total0 && a.total1 == b.total1
    ensures a.buffer[..|a.seen| % 64] == b.buffer[..|b.seen| % 64]
  {
    Mod32(|a.seen| % TWO64, a.total1, a.total0);
    Mod32(|b.seen| % TWO64, b.total1, b.total0);
  }

  const TWO61 := 0x2000_0000_0000_0000

  /** Beyond 2^38 bytes the second implementation appends another bit count: the two counts are the
      same exactly when the length fits 38 of the 61 bits the format keeps of it. */
  lemma SameBitCountIff(n: nat)
    ensures BitCount(n) == BitCount(n % LIMIT) <==> n % TWO61 < LIMIT
  {
    var a, b := 8 * (n % TWO61), 8 * (n % LIMIT);
    Mod64(8 * n, n / TWO61, a);
    Mod64(b, 0, b);
    if n % TWO61 < LIMIT {
      ModLimit(n, (TWO61 / LIMIT) * (n / TWO61), n % TWO61);
    }
  }

  /** At 2^38 bytes the first appends 2^41 as the number of bits, the second 0. */
  lemma BitCountLost()
    ensures BitCount(LIMIT) != BitCount(0) && LIMIT % LIMIT == 0
  {
    SameBitCountIff(LIMIT);
  }
}
