/** The first of the two streaming MD5 implementations of md5.c. Both keep the registers of the whole blocks
    seen so far and buffer the rest; they count differently. */
module Md5Stream {
  import opened Md5Rfc
  import Md5Process
  import Md5Transform

  /** What has been fed in ends in this unfinished block. */
  function Tail(m: seq<byte>): (t: seq<byte>)
    ensures |t| == |m| % 64
  {
    m[|m| - |m| % 64..]
  }

  function Hashed(m: seq<byte>): Regs {
    Blocks(m, |m| / 64)
  }

  /** Input that does not complete the unfinished block leaves the registers alone. */
  lemma TailGrows(m: seq<byte>, x: seq<byte>)
    requires |m| % 64 + |x| < 64
    ensures Hashed(m + x) == Hashed(m) && Tail(m + x) == Tail(m) + x
  {
    assert |m + x| / 64 == |m| / 64;
    BlocksPrefix(m, x, |m| / 64);
  }

  /** Input that completes it is one compression. */
  lemma TailCompletes(m: seq<byte>, x: seq<byte>)
    requires |m| % 64 + |x| == 64
    ensures Hashed(m + x) == Compress(Hashed(m), Tail(m) + x) && Tail(m + x) == []
  {
    hide Compress;
    var k := |m| / 64;
    assert |m + x| / 64 == k + 1;
    BlocksPrefix(m, x, k);
    assert (m + x)[64*k..64*(k+1)] == Tail(m) + x;
  }

  /** The registers and the buffer account for everything fed in so far. */
  ghost predicate Keeps(state: Regs, buf: seq<byte>, m: seq<byte>) {
    |buf| == 64 && state == Hashed(m) && buf[..|m| % 64] == Tail(m)
  }

  lemma KeepsBlock(state: Regs, buf: seq<byte>, m: seq<byte>, x: seq<byte>, buf': seq<byte>)
    requires Keeps(state, buf, m) && |m| % 64 + |x| == 64 && |buf'| == 64
    ensures |m + x| % 64 == 0 && |buf[..|m| % 64] + x| == 64
    ensures Keeps(Compress(state, buf[..|m| % 64] + x), buf', m + x)
  {
    hide Compress, Hashed;
    TailCompletes(m, x);
    assert buf'[..0] == [];
  }

  lemma KeepsGrow(state: Regs, buf: seq<byte>, m: seq<byte>, x: seq<byte>, buf': seq<byte>)
    requires Keeps(state, buf, m) && |m| % 64 + |x| < 64 && |buf'| == 64
    requires buf'[..|m| % 64 + |x|] == buf[..|m| % 64] + x
    ensures |m + x| % 64 == |m| % 64 + |x|
    ensures Keeps(state, buf', m + x)
  {
    hide Hashed;
    TailGrows(m, x);
  }

  method Store(buffer: array<byte>, at: nat, input: seq<byte>)
    requires at + |input| <= buffer.Length
    modifies buffer
    ensures buffer[..] == old(buffer[..at]) + input + old(buffer[at + |input|..])
  {
    forall i | 0 <= i < |input| { buffer[at + i] := input[i]; }
  }

  /** md5_context of the first implementation; `seen` is what it has been fed since md5_starts. */
  class PolarContext {
    var total0: nat
    var total1: nat
    var state: Regs
    const buffer: array<byte>
    ghost var seen: seq<byte>

    ghost predicate Kept()
      reads this, buffer
    {
      && buffer.Length == 64
      && total0 < TWO32 && total1 < TWO32 && total0 % 64 == |seen| % 64
      && Keeps(state, buffer[..], seen)
    }

    /** The number of bytes the two words stand for. */
    function Total(): nat
      reads this
    {
      total1 * TWO32 + total0
    }

    /** It is the right one. */
    ghost predicate Valid()
      reads this, buffer
    {
      Kept() && Total() == |seen| % TWO64
    }

    constructor ()
      ensures Valid() && seen == [] && fresh(buffer)
    {
      total0, total1 := 0, 0;
      state := IV;
      buffer := new byte[64];
      seen := [];
    }

    /** md5_update: the registers and the buffer always account for the chunk, the count takes its length to be
        32 bits wide. */
    method Update(input: seq<byte>)
      requires Kept()
      modifies this, buffer
      ensures Kept() && seen == old(seen) + input
      ensures Total() == (old(Total()) + |input| % TWO32) % TWO64
      ensures old(Valid()) ==> (Valid() <==> |input| % TWO64 < TWO32)
    {
      hide Keeps;
      ghost var n, was := |seen|, Total();
      ChunkCounted(n, |input|, was);
      if |input| <= 0 {
        assert seen + input == seen;
        Mod64(was, 0, was);
        return;
      }
      var left, ilen := total0 % 64, |input| % TWO32;
      Counted(was, ilen, total0, total1);
      total0 := (total0 + ilen) % TWO32;
      if total0 < ilen { total1 := (total1 + 1) % TWO32; }
      LowBits(n, |input|, old(total0));
      Absorb(left, input);
      seen := seen + input;
    }

    /** Complete the buffered block if there is one, process whole blocks, buffer the rest. */
    method Absorb(left0: nat, input: seq<byte>)
      requires buffer.Length == 64 && Keeps(state, buffer[..], seen) && left0 == |seen| % 64
      modifies `state, buffer
      ensures Keeps(state, buffer[..], seen + input)
    {
      hide Keeps, Compress;
      var left, fill, i := left0, 64 - left0, 0;
      ghost var m := seen;
      assert m == seen + input[..0];
      if left != 0 && |input| >= fill {
        ghost var buf := buffer[..];
        Store(buffer, left, input[..fill]);
        KeepsBlock(state, buf, m, input[..fill], buffer[..]);
        assert buffer[..] == buf[..left] + input[..fill];
        state := Md5Process.Process(state, buffer[..]);
        m := m + input[..fill];
        i := fill;
        left := 0;
      }
      while |input| - i >= 64
        invariant 0 <= i <= |input| && m == seen + input[..i] && |m| % 64 == left
        invariant Keeps(state, buffer[..], m)
        invariant left != 0 ==> |input| - i < 64 - left
      {
        KeepsBlock(state, buffer[..], m, input[i..i+64], buffer[..]);
        assert buffer[..0] + input[i..i+64] == input[i..i+64];
        state := Md5Process.Process(state, input[i..i+64]);
        m := m + input[i..i+64];
        assert m == seen + input[..i+64];
        i := i + 64;
      }
      BufferRest(left, input[i..], m);
      assert m + input[i..] == seen + input;
    }

    method BufferRest(left: nat, rest: seq<byte>, ghost m: seq<byte>)
      requires buffer.Length == 64 && Keeps(state, buffer[..], m) && left == |m| % 64 && left + |rest| < 64
      modifies buffer
      ensures Keeps(state, buffer[..], m + rest)
    {
      hide Keeps;
      ghost var buf := buffer[..];
      if |rest| > 0 {
        Store(buffer, left, rest);
      }
      assert buffer[..left + |rest|] == buf[..left] + rest;
      KeepsGrow(state, buf, m, rest, buffer[..]);
    }

    /** md5_finish: the digest of everything fed in, padded with the length that was counted. */
    method Finish() returns (output: seq<byte>)
      requires Kept()
      modifies this, buffer
      ensures output == DigestWith(old(seen), old(Total()))
      ensures old(Valid()) ==> output == Digest(old(seen))
    {
      hide Keeps, Blocks, Le32, BitLength, PadZeros, Output;
      var high := (total0 / 0x2000_0000) + (total1 * 8) % TWO32;
      var low := (total0 * 8) % TWO32;
      ghost var m, n := seen, Total();
      Mod64(n, 0, n);
      LengthWords(n, total0, total1);
      SameLength(|m|, n);
      var msglen := Le32(low) + Le32(high);
      var last := total0 % 64;
      var padn := if last < 56 then 56 - last else 120 - last;
      PadLength(|m|, padn);
      Update([0x80] + seq(padn - 1, _ => 0));
      Update(msglen);
      assert seen == PadWith(m, n);
      KeepsAll(state, buffer[..], seen);
      output := Output(state);
    }
  }

  lemma PadLength(n: nat, padn: nat)
    requires padn == if n % 64 < 56 then 56 - n % 64 else 120 - n % 64
    ensures padn - 1 == PadZeros(n)
  {
  }

  lemma KeepsAll(state: Regs, buf: seq<byte>, m: seq<byte>)
    requires Keeps(state, buf, m)
    ensures state == Blocks(m, |m| / 64)
  {
  }

  /** The bit count as the two 32-bit words md5_finish computes by shifting. */
  lemma LengthWords(n: nat, total0: nat, total1: nat)
    requires total0 < TWO32 && total1 < TWO32 && total1 * TWO32 + total0 == n % TWO64
    ensures total0 / 0x2000_0000 + (total1 * 8) % TWO32 < TWO32
    ensures Le32((total0 * 8) % TWO32) + Le32(total0 / 0x2000_0000 + (total1 * 8) % TWO32) == BitLength(n)
  {
    var hi, low := total0 / 0x2000_0000, (total0 * 8) % TWO32;
    var c, w := (total1 * 8) / TWO32, (total1 * 8) % TWO32;
    Eightfold(total0, hi, low);
    assert total1 * 8 == c * TWO32 + w && 0 <= w <= TWO32 - 8;
    var e := 8 * (n / TWO64) + c;
    var bits := (w + hi) * TWO32 + low;
    assert 8 * n == e * TWO64 + bits by {
      assert n == (n / TWO64) * TWO64 + total1 * TWO32 + total0;
    }
    Mod64(8 * n, e, bits);
    Mod32(bits, w + hi, low);
  }

  lemma Eightfold(t: nat, hi: nat, low: nat)
    requires t < TWO32 && hi == t / 0x2000_0000 && low == (t * 8) % TWO32
    ensures t * 8 == hi * TWO32 + low && hi < 8
  {
  }

  lemma Mod64(x: nat, q: nat, r: nat)
    requires r < TWO64 && x == q * TWO64 + r
    ensures x % TWO64 == r
  {
  }

  lemma Mod32(x: nat, q: nat, r: nat)
    requires r < TWO32 && x == q * TWO32 + r
    ensures x % TWO32 == r && x / TWO32 == q
  {
  }

  /** Equal lengths modulo 2^64 give the same field. */
  lemma SameLength(a: nat, b: nat)
    ensures a % TWO64 == b % TWO64 ==> BitLength(a) == BitLength(b)
  {
    if a % TWO64 == b % TWO64 {
      var r := a % TWO64;
      var e, t := (8 * r) / TWO64, (8 * r) % TWO64;
      Mod64(8 * a, 8 * (a / TWO64) + e, t);
      Mod64(8 * b, 8 * (b / TWO64) + e, t);
    }
  }

  lemma LowBits(n: nat, d: nat, total0: nat)
    requires total0 % 64 == n % 64
    ensures ((total0 + d % TWO32) % TWO32) % 64 == (n + d) % 64
  {
    var x := total0 + d % TWO32;
    var q, k := TWO32 / 64, d / TWO32;
    assert d == k * TWO32 + d % TWO32 && x == (x / TWO32) * TWO32 + x % TWO32;
    assert n + d == x % TWO32 + 64 * (q * (x / TWO32) + q * k + n / 64 - total0 / 64);
    SameRemainder(n + d, x % TWO32, q * (x / TWO32) + q * k + n / 64 - total0 / 64);
  }

  lemma SameRemainder(a: int, b: int, k: int)
    requires a == b + 64 * k
    ensures a % 64 == b % 64
  {
  }

  /** Counting a chunk in two 32-bit halves, with the carry found by comparing. */
  lemma Counted(n: nat, d: nat, total0: nat, total1: nat)
    requires total0 < TWO32 && total1 < TWO32 && d < TWO32 && n == total1 * TWO32 + total0
    ensures var t0 := (total0 + d) % TWO32;
            var t1 := if t0 < d then (total1 + 1) % TWO32 else total1;
            t1 * TWO32 + t0 == (n + d) % TWO64
  {
    var t0 := (total0 + d) % TWO32;
    assert t0 < d <==> total0 + d >= TWO32;
  }

  /** The count stays right exactly when the length of the chunk, which has 64 bits, fits 32. */
  lemma ChunkCounted(n: nat, d: nat, total: nat)
    ensures total == n % TWO64 ==> ((total + d % TWO32) % TWO64 == (n + d) % TWO64 <==> d % TWO64 < TWO32)
  {
    var e, r := d % TWO64, d % TWO32;
    assert e % TWO32 == r by {
      assert d == (d / TWO64) * TWO64 + e && TWO64 == TWO32 * TWO32;
      Mod32(d, (d / TWO64) * TWO32 + e / TWO32, e % TWO32);
    }
    if total == n % TWO64 {
      var x, y := total + r, total + e;
      assert n + d == (n / TWO64 + d / TWO64) * TWO64 + y;
      SameMod64(n + d, y, n / TWO64 + d / TWO64);
      assert 0 <= y - x < TWO64;
      if y != x { DifferMod64(x, y); }
    }
  }

  lemma SameMod64(a: nat, b: nat, k: nat)
    requires a == k * TWO64 + b
    ensures a % TWO64 == b % TWO64
  {
    Mod64(a, k + b / TWO64, b % TWO64);
  }

  lemma DifferMod64(x: nat, y: nat)
    requires x < y < x + TWO64
    ensures x % TWO64 != y % TWO64
  {
    var p, q := x / TWO64, y / TWO64;
    assert x == p * TWO64 + x % TWO64 && y == q * TWO64 + y % TWO64;
  }
}
