/** Digests from the test suite in appendix A.5 of RFC 1321, computed step by step. */
module Md5Vectors {
  import opened Md5Rfc

  // ---------------------------------------------------------------- the steps

  /** Word, rotation and constant of the steps of a round. */
  lemma Table1()
    ensures OpOf(0) == Op(0, 7, 0xd76aa478) && OpOf(1) == Op(1, 12, 0xe8c7b756)
    ensures OpOf(2) == Op(2, 17, 0x242070db) && OpOf(3) == Op(3, 22, 0xc1bdceee)
    ensures OpOf(4) == Op(4, 7, 0xf57c0faf) && OpOf(5) == Op(5, 12, 0x4787c62a)
    ensures OpOf(6) == Op(6, 17, 0xa8304613) && OpOf(7) == Op(7, 22, 0xfd469501)
    ensures OpOf(8) == Op(8, 7, 0x698098d8) && OpOf(9) == Op(9, 12, 0x8b44f7af)
    ensures OpOf(10) == Op(10, 17, 0xffff5bb1) && OpOf(11) == Op(11, 22, 0x895cd7be)
    ensures OpOf(12) == Op(12, 7, 0x6b901122) && OpOf(13) == Op(13, 12, 0xfd987193)
    ensures OpOf(14) == Op(14, 17, 0xa679438e) && OpOf(15) == Op(15, 22, 0x49b40821)
  {
  }

  lemma Table2()
    ensures OpOf(16) == Op(1, 5, 0xf61e2562) && OpOf(17) == Op(6, 9, 0xc040b340)
    ensures OpOf(18) == Op(11, 14, 0x265e5a51) && OpOf(19) == Op(0, 20, 0xe9b6c7aa)
    ensures OpOf(20) == Op(5, 5, 0xd62f105d) && OpOf(21) == Op(10, 9, 0x02441453)
    ensures OpOf(22) == Op(15, 14, 0xd8a1e681) && OpOf(23) == Op(4, 20, 0xe7d3fbc8)
    ensures OpOf(24) == Op(9, 5, 0x21e1cde6) && OpOf(25) == Op(14, 9, 0xc33707d6)
    ensures OpOf(26) == Op(3, 14, 0xf4d50d87) && OpOf(27) == Op(8, 20, 0x455a14ed)
    ensures OpOf(28) == Op(13, 5, 0xa9e3e905) && OpOf(29) == Op(2, 9, 0xfcefa3f8)
    ensures OpOf(30) == Op(7, 14, 0x676f02d9) && OpOf(31) == Op(12, 20, 0x8d2a4c8a)
  {
  }

  lemma Table3()
    ensures OpOf(32) == Op(5, 4, 0xfffa3942) && OpOf(33) == Op(8, 11, 0x8771f681)
    ensures OpOf(34) == Op(11, 16, 0x6d9d6122) && OpOf(35) == Op(14, 23, 0xfde5380c)
    ensures OpOf(36) == Op(1, 4, 0xa4beea44) && OpOf(37) == Op(4, 11, 0x4bdecfa9)
    ensures OpOf(38) == Op(7, 16, 0xf6bb4b60) && OpOf(39) == Op(10, 23, 0xbebfbc70)
    ensures OpOf(40) == Op(13, 4, 0x289b7ec6) && OpOf(41) == Op(0, 11, 0xeaa127fa)
    ensures OpOf(42) == Op(3, 16, 0xd4ef3085) && OpOf(43) == Op(6, 23, 0x04881d05)
    ensures OpOf(44) == Op(9, 4, 0xd9d4d039) && OpOf(45) == Op(12, 11, 0xe6db99e5)
    ensures OpOf(46) == Op(15, 16, 0x1fa27cf8) && OpOf(47) == Op(2, 23, 0xc4ac5665)
  {
  }

  lemma Table4()
    ensures OpOf(48) == Op(0, 6, 0xf4292244) && OpOf(49) == Op(7, 10, 0x432aff97)
    ensures OpOf(50) == Op(14, 15, 0xab9423a7) && OpOf(51) == Op(5, 21, 0xfc93a039)
    ensures OpOf(52) == Op(12, 6, 0x655b59c3) && OpOf(53) == Op(3, 10, 0x8f0ccc92)
    ensures OpOf(54) == Op(10, 15, 0xffeff47d) && OpOf(55) == Op(1, 21, 0x85845dd1)
    ensures OpOf(56) == Op(8, 6, 0x6fa87e4f) && OpOf(57) == Op(15, 10, 0xfe2ce6e0)
    ensures OpOf(58) == Op(6, 15, 0xa3014314) && OpOf(59) == Op(13, 21, 0x4e0811a1)
    ensures OpOf(60) == Op(4, 6, 0xf7537e82) && OpOf(61) == Op(11, 10, 0xbd3af235)
    ensures OpOf(62) == Op(2, 15, 0x2ad7d2bb) && OpOf(63) == Op(9, 21, 0xeb86d391)
  {
  }

  /** One step more, given its word, rotation, constant and what it makes of them. */
  lemma Next(q: Regs, X: seq<bv32>, i: nat, r: Regs, x: bv32, s: nat, t: bv32, n: bv32)
    requires i < 64 && |X| == 16 && Steps(q, X, i) == r && s < 32
    requires OpOf(i).s == s && OpOf(i).t == t && X[OpOf(i).k] == x
    requires n == Mix(r.a, r.b, Aux(i, r.b, r.c, r.d), x, t, s)
    ensures Steps(q, X, i + 1) == Regs(r.d, n, r.b, r.c)
  {
  }

  lemma NoSteps(q: Regs, X: seq<bv32>)
    requires |X| == 16
    ensures Steps(q, X, 0) == q
  {
  }

  lemma NextBlock(p: seq<byte>, k: nat, q: Regs, X: seq<bv32>, r: Regs)
    requires 64 * (k + 1) <= |p| && |X| == 16 && Blocks(p, k) == q
    requires forall i :: 0 <= i < 16 ==> X[i] == Word(p, 64 * k + 4 * i)
    requires Steps(q, X, 64) == r
    ensures Blocks(p, k + 1) == Plus(q, r)
  {
    hide Steps, Word;
    var data := p[64*k..64*(k+1)];
    forall i | 0 <= i < 16 ensures Word(data, 4 * i) == X[i] { SameWord(p, 64 * k, data, 4 * i); }
    assert Words(data) == X;
  }

  lemma SameWord(p: seq<byte>, at: nat, data: seq<byte>, i: nat)
    requires at + |data| <= |p| && data == p[at..at+|data|] && i + 4 <= |data|
    ensures Word(data, i) == Word(p, at + i)
  {
  }

  lemma Lengths()
    ensures Le32(0) == [0, 0, 0, 0] && Le32(640) == [0x80, 2, 0, 0]
  {
    assert ByteOf(640, 0) == 0x80;
    assert ByteOf(640, 1) == 2;
  }

  /** The length field is the number of bits in eight bytes, the lowest first. */
  lemma LengthField(n: nat)
    ensures var b := 8 * n;
            BitLength(n) == [(b % 256) as byte, (b / 0x100 % 256) as byte, (b / 0x1_0000 % 256) as byte,
                             (b / 0x100_0000 % 256) as byte, (b / 0x1_0000_0000 % 256) as byte,
                             (b / 0x100_0000_0000 % 256) as byte, (b / 0x1_0000_0000_0000 % 256) as byte,
                             (b / 0x100_0000_0000_0000 % 256) as byte]
  {
    hide Le32, ByteOf;
    var b := 8 * n;
    Halves(b);
    assert BitLength(n) == Le32(b % TWO32) + Le32(b / TWO32 % TWO32);
    FourBytes(b);
    FourBytes(b / TWO32);
    Beyond(b);
  }

  lemma Halves(b: nat)
    ensures b % TWO64 % TWO32 == b % TWO32 && b % TWO64 / TWO32 == b / TWO32 % TWO32
  {
  }

  lemma FourBytes(x: nat)
    ensures Le32(x % TWO32)
            == [(x % 256) as byte, (x / 0x100 % 256) as byte, (x / 0x1_0000 % 256) as byte, (x / 0x100_0000 % 256) as byte]
  {
    hide Le32;
    ThoseBytes(x % TWO32);
    LowBytes(x);
  }

  lemma LowBytes(x: nat)
    ensures var r := x % TWO32;
            && r % 256 == x % 256 && r / 0x100 % 256 == x / 0x100 % 256 && r / 0x1_0000 % 256 == x / 0x1_0000 % 256
            && r / 0x100_0000 % 256 == x / 0x100_0000 % 256
  {
    var q, r := x / TWO32, x % TWO32;
    assert x == TWO32 * q + r;
    assert r % 256 == x % 256;
    LowByte(x, 0x1_0000 * q, r, 0x100);
    LowByte(x, 0x100 * q, r, 0x1_0000);
    LowByte(x, q, r, 0x100_0000);
  }

  lemma LowByte(x: nat, m: nat, r: nat, d: nat)
    requires d > 0 && x == 256 * m * d + r
    ensures r / d % 256 == x / d % 256
  {
    Within(m, r, d);
  }

  lemma ThoseBytes(r: nat)
    ensures Le32(r)
            == [(r % 256) as byte, (r / 0x100 % 256) as byte, (r / 0x1_0000 % 256) as byte, (r / 0x100_0000 % 256) as byte]
  {
  }

  /** A byte of a number that its remainder has too. */
  lemma Within(q: nat, r: nat, d: nat)
    requires d > 0
    ensures (256 * q * d + r) / d % 256 == r / d % 256
  {
    var c := r / d;
    assert r == c * d + r % d;
    Multiple(256 * q, c, d);
    Quotient(256 * q + c, r % d, d);
    assert (256 * q * d + r) / d == 256 * q + c;
  }

  lemma Multiple(a: nat, b: nat, d: nat)
    ensures (a + b) * d == a * d + b * d
  {
  }

  lemma Quotient(a: nat, b: nat, d: nat)
    requires b < d
    ensures (a * d + b) / d == a
  {
    var x := a * d + b;
    var k := x / d;
    assert k * d + x % d == x;
    Growing(k + 1, a, d);
    Growing(a + 1, k, d);
    Multiple(k, 1, d);
    Multiple(a, 1, d);
  }

  lemma Growing(x: nat, y: nat, d: nat)
    ensures x <= y ==> x * d <= y * d
  {
  }

  lemma Beyond(b: nat)
    ensures b / TWO32 / 0x100 == b / 0x100_0000_0000 && b / TWO32 / 0x1_0000 == b / 0x1_0000_0000_0000
    ensures b / TWO32 / 0x100_0000 == b / 0x100_0000_0000_0000
  {
  }

  lemma Padded(m: seq<byte>, zeros: seq<byte>, length: seq<byte>)
    requires zeros == seq(PadZeros(|m|), _ => 0) && length == BitLength(|m|)
    ensures PadWith(m, |m|) == m + [0x80] + zeros + length
  {
  }

  lemma Output16(a: bv32, b: bv32, c: bv32, d: bv32, s: seq<byte>)
    requires |s| == 16 && RegBytes(a) == s[..4] && RegBytes(b) == s[4..8]
    requires RegBytes(c) == s[8..12] && RegBytes(d) == s[12..]
    ensures Output(Regs(a, b, c, d)) == s
  {
    assert s == s[..4] + s[4..8] + s[8..12] + s[12..];
  }

  // ---------------------------------------------------------------- the empty message

  function EmptyWords(): (X: seq<bv32>)
    ensures |X| == 16
    ensures X[0] == 0x80 && X[1] == 0 && X[2] == 0 && X[3] == 0
    ensures X[4] == 0 && X[5] == 0 && X[6] == 0 && X[7] == 0
    ensures X[8] == 0 && X[9] == 0 && X[10] == 0 && X[11] == 0
    ensures X[12] == 0 && X[13] == 0 && X[14] == 0 && X[15] == 0
  {
    [0x80, 0, 0, 0, 0, 0, 0, 0,
     0, 0, 0, 0, 0, 0, 0, 0]
  }

  lemma Empty16()
    ensures Steps(IV, EmptyWords(), 16) ==
            Regs(0xf56c7cf1, 0xd6819c6a, 0x5aa53f75, 0x374943a7)
  {
    hide OpOf, Steps, EmptyWords;
    var q, X := IV, EmptyWords();
    NoSteps(q, X);
    Table1();
    Next(q, X, 0, IV, 0x80, 7, 0xd76aa478, 0xa5202774);
    Next(q, X, 1, Regs(0x10325476, 0xa5202774, 0xefcdab89, 0x98badcfe), 0, 12, 0xe8c7b756, 0xf59592dd);
    Next(q, X, 2, Regs(0x98badcfe, 0xf59592dd, 0xa5202774, 0xefcdab89), 0, 17, 0x242070db, 0xe7f06b23);
    Next(q, X, 3, Regs(0xefcdab89, 0xe7f06b23, 0xf59592dd, 0xa5202774), 0, 22, 0xc1bdceee, 0x1b163203);
    Next(q, X, 4, Regs(0xa5202774, 0x1b163203, 0xe7f06b23, 0xf59592dd), 0, 7, 0xf57c0faf, 0x32033344);
    Next(q, X, 5, Regs(0xf59592dd, 0x32033344, 0x1b163203, 0xe7f06b23), 0, 12, 0x4787c62a, 0x2f35d494);
    Next(q, X, 6, Regs(0xe7f06b23, 0x2f35d494, 0x32033344, 0x1b163203), 0, 17, 0xa8304613, 0xf5b158db);
    Next(q, X, 7, Regs(0x1b163203, 0xf5b158db, 0x2f35d494, 0x32033344), 0, 22, 0xfd469501, 0x9bc13ce9);
    Next(q, X, 8, Regs(0x32033344, 0x9bc13ce9, 0xf5b158db, 0x2f35d494), 0, 7, 0x698098d8, 0x3893b991);
    Next(q, X, 9, Regs(0x2f35d494, 0x3893b991, 0x9bc13ce9, 0xf5b158db), 0, 12, 0x8b44f7af, 0xfce4a312);
    Next(q, X, 10, Regs(0xf5b158db, 0xfce4a312, 0x3893b991, 0x9bc13ce9), 0, 17, 0xffff5bb1, 0xe1ef0576);
    Next(q, X, 11, Regs(0x9bc13ce9, 0xe1ef0576, 0xfce4a312, 0x3893b991), 0, 22, 0x895cd7be, 0x70768a29);
    Next(q, X, 12, Regs(0x3893b991, 0x70768a29, 0xe1ef0576, 0xfce4a312), 0, 7, 0x6b901122, 0xf56c7cf1);
    Next(q, X, 13, Regs(0xfce4a312, 0xf56c7cf1, 0x70768a29, 0xe1ef0576), 0, 12, 0xfd987193, 0x374943a7);
    Next(q, X, 14, Regs(0xe1ef0576, 0x374943a7, 0xf56c7cf1, 0x70768a29), 0, 17, 0xa679438e, 0x5aa53f75);
    Next(q, X, 15, Regs(0x70768a29, 0x5aa53f75, 0x374943a7, 0xf56c7cf1), 0, 22, 0x49b40821, 0xd6819c6a);
  }

  lemma Empty32()
    ensures Steps(IV, EmptyWords(), 32) ==
            Regs(0x13707036, 0xa2205f1f, 0x1c31c384, 0xae7813db)
  {
    hide OpOf, Steps, EmptyWords;
    var q, X := IV, EmptyWords();
    Empty16();
    Table2();
    Next(q, X, 16, Regs(0xf56c7cf1, 0xd6819c6a, 0x5aa53f75, 0x374943a7), 0, 5, 0xf61e2562, 0x1c7d7513);
    Next(q, X, 17, Regs(0x374943a7, 0x1c7d7513, 0xd6819c6a, 0x5aa53f75), 0, 9, 0xc040b340, 0x7bd57a3a);
    Next(q, X, 18, Regs(0x5aa53f75, 0x7bd57a3a, 0x1c7d7513, 0xd6819c6a), 0, 14, 0x265e5a51, 0xc095f13a);
    Next(q, X, 19, Regs(0xd6819c6a, 0xc095f13a, 0x7bd57a3a, 0x1c7d7513), 0x80, 20, 0xe9b6c7aa, 0xbd782e17);
    Next(q, X, 20, Regs(0x1c7d7513, 0xbd782e17, 0xc095f13a, 0x7bd57a3a), 0, 5, 0xd62f105d, 0x3d1e3e6c);
    Next(q, X, 21, Regs(0x7bd57a3a, 0x3d1e3e6c, 0xbd782e17, 0xc095f13a), 0, 9, 0x02441453, 0x68b7b3e3);
    Next(q, X, 22, Regs(0xc095f13a, 0x68b7b3e3, 0x3d1e3e6c, 0xbd782e17), 0, 14, 0xd8a1e681, 0xeb41643e);
    Next(q, X, 23, Regs(0xbd782e17, 0xeb41643e, 0x68b7b3e3, 0x3d1e3e6c), 0, 20, 0xe7d3fbc8, 0xe422531a);
    Next(q, X, 24, Regs(0x3d1e3e6c, 0xe422531a, 0xeb41643e, 0x68b7b3e3), 0, 5, 0x21e1cde6, 0x306ec122);
    Next(q, X, 25, Regs(0x68b7b3e3, 0x306ec122, 0xe422531a, 0xeb41643e), 0, 9, 0xc33707d6, 0xd28c77c2);
    Next(q, X, 26, Regs(0xeb41643e, 0xd28c77c2, 0x306ec122, 0xe422531a), 0, 14, 0xf4d50d87, 0xa3c663da);
    Next(q, X, 27, Regs(0xe422531a, 0xa3c663da, 0xd28c77c2, 0x306ec122), 0, 20, 0x455a14ed, 0xa0572807);
    Next(q, X, 28, Regs(0x306ec122, 0xa0572807, 0xa3c663da, 0xd28c77c2), 0, 5, 0xa9e3e905, 0x13707036);
    Next(q, X, 29, Regs(0xd28c77c2, 0x13707036, 0xa0572807, 0xa3c663da), 0, 9, 0xfcefa3f8, 0xae7813db);
    Next(q, X, 30, Regs(0xa3c663da, 0xae7813db, 0x13707036, 0xa0572807), 0, 14, 0x676f02d9, 0x1c31c384);
    Next(q, X, 31, Regs(0xa0572807, 0x1c31c384, 0xae7813db, 0x13707036), 0, 20, 0x8d2a4c8a, 0xa2205f1f);
  }

  lemma Empty48()
    ensures Steps(IV, EmptyWords(), 48) ==
            Regs(0x3f55edfd, 0xca7d2dbd, 0x68d84ea2, 0x22a31f54)
  {
    hide OpOf, Steps, EmptyWords;
    var q, X := IV, EmptyWords();
    Empty32();
    Table3();
    Next(q, X, 32, Regs(0x13707036, 0xa2205f1f, 0x1c31c384, 0xae7813db), 0, 4, 0xfffa3942, 0xdf63eaa1);
    Next(q, X, 33, Regs(0xae7813db, 0xdf63eaa1, 0xa2205f1f, 0x1c31c384), 0, 11, 0x8771f681, 0xc3689f5b);
    Next(q, X, 34, Regs(0x1c31c384, 0xc3689f5b, 0xdf63eaa1, 0xa2205f1f), 0, 16, 0x6d9d6122, 0x12f3e755);
    Next(q, X, 35, Regs(0xa2205f1f, 0x12f3e755, 0xc3689f5b, 0xdf63eaa1), 0, 23, 0xfde5380c, 0x004b6669);
    Next(q, X, 36, Regs(0xdf63eaa1, 0x004b6669, 0x12f3e755, 0xc3689f5b), 0, 4, 0xa4beea44, 0x5f7a9b2e);
    Next(q, X, 37, Regs(0xc3689f5b, 0x5f7a9b2e, 0x004b6669, 0x12f3e755), 0, 11, 0x4bdecfa9, 0xabc34e16);
    Next(q, X, 38, Regs(0x12f3e755, 0xabc34e16, 0x5f7a9b2e, 0x004b6669), 0, 16, 0xf6bb4b60, 0x91ca4cb7);
    Next(q, X, 39, Regs(0x004b6669, 0x91ca4cb7, 0xabc34e16, 0x5f7a9b2e), 0, 23, 0xbebfbc70, 0xc5dc8c15);
    Next(q, X, 40, Regs(0x5f7a9b2e, 0xc5dc8c15, 0x91ca4cb7, 0xabc34e16), 0, 4, 0x289b7ec6, 0x4497169d);
    Next(q, X, 41, Regs(0xabc34e16, 0x4497169d, 0xc5dc8c15, 0x91ca4cb7), 0x80, 11, 0xeaa127fa, 0x76fd93d4);
    Next(q, X, 42, Regs(0x91ca4cb7, 0x76fd93d4, 0x4497169d, 0xc5dc8c15), 0, 16, 0xd4ef3085, 0xfd95f243);
    Next(q, X, 43, Regs(0xc5dc8c15, 0xfd95f243, 0x76fd93d4, 0x4497169d), 0, 23, 0x04881d05, 0x0fe32453);
    Next(q, X, 44, Regs(0x4497169d, 0x0fe32453, 0xfd95f243, 0x76fd93d4), 0, 4, 0xd9d4d039, 0x3f55edfd);
    Next(q, X, 45, Regs(0x76fd93d4, 0x3f55edfd, 0x0fe32453, 0xfd95f243), 0, 11, 0xe6db99e5, 0x22a31f54);
    Next(q, X, 46, Regs(0xfd95f243, 0x22a31f54, 0x3f55edfd, 0x0fe32453), 0, 16, 0x1fa27cf8, 0x68d84ea2);
    Next(q, X, 47, Regs(0x0fe32453, 0x68d84ea2, 0x22a31f54, 0x3f55edfd), 0, 23, 0xc4ac5665, 0xca7d2dbd);
  }

  lemma Empty64()
    ensures Steps(IV, EmptyWords(), 64) ==
            Regs(0x7246fad3, 0x14e45506, 0xff4ea3eb, 0x6e10a476)
  {
    hide OpOf, Steps, EmptyWords;
    var q, X := IV, EmptyWords();
    Empty48();
    Table4();
    Next(q, X, 48, Regs(0x3f55edfd, 0xca7d2dbd, 0x68d84ea2, 0x22a31f54), 0x80, 6, 0xf4292244, 0x93aa2577);
    Next(q, X, 49, Regs(0x22a31f54, 0x93aa2577, 0xca7d2dbd, 0x68d84ea2), 0, 10, 0x432aff97, 0x1688dc85);
    Next(q, X, 50, Regs(0x68d84ea2, 0x1688dc85, 0x93aa2577, 0xca7d2dbd), 0, 15, 0xab9423a7, 0xcd85b8cb);
    Next(q, X, 51, Regs(0xca7d2dbd, 0xcd85b8cb, 0x1688dc85, 0x93aa2577), 0, 21, 0xfc93a039, 0x561e0689);
    Next(q, X, 52, Regs(0x93aa2577, 0x561e0689, 0xcd85b8cb, 0x1688dc85), 0, 6, 0x655b59c3, 0x5625a114);
    Next(q, X, 53, Regs(0x1688dc85, 0x5625a114, 0x561e0689, 0xcd85b8cb), 0, 10, 0x8f0ccc92, 0x3450f42b);
    Next(q, X, 54, Regs(0xcd85b8cb, 0x3450f42b, 0x5625a114, 0x561e0689), 0, 15, 0xffeff47d, 0x392ad0d0);
    Next(q, X, 55, Regs(0x561e0689, 0x392ad0d0, 0x3450f42b, 0x5625a114), 0, 21, 0x85845dd1, 0x1e77fa61);
    Next(q, X, 56, Regs(0x5625a114, 0x1e77fa61, 0x392ad0d0, 0x3450f42b), 0, 6, 0x6fa87e4f, 0x474a9c8c);
    Next(q, X, 57, Regs(0x3450f42b, 0x474a9c8c, 0x1e77fa61, 0x392ad0d0), 0, 10, 0xfe2ce6e0, 0xdfce00bc);
    Next(q, X, 58, Regs(0x392ad0d0, 0xdfce00bc, 0x474a9c8c, 0x1e77fa61), 0, 15, 0xa3014314, 0x36594b14);
    Next(q, X, 59, Regs(0x1e77fa61, 0x36594b14, 0xdfce00bc, 0x474a9c8c), 0, 21, 0x4e0811a1, 0x30130182);
    Next(q, X, 60, Regs(0x474a9c8c, 0x30130182, 0x36594b14, 0xdfce00bc), 0, 6, 0xf7537e82, 0x7246fad3);
    Next(q, X, 61, Regs(0xdfce00bc, 0x7246fad3, 0x30130182, 0x36594b14), 0, 10, 0xbd3af235, 0x6e10a476);
    Next(q, X, 62, Regs(0x36594b14, 0x6e10a476, 0x7246fad3, 0x30130182), 0, 15, 0x2ad7d2bb, 0xff4ea3eb);
    Next(q, X, 63, Regs(0x30130182, 0xff4ea3eb, 0x6e10a476, 0x7246fad3), 0, 21, 0xeb86d391, 0x14e45506);
  }

  lemma EmptyLength()
    ensures PadZeros(0) == 55 && BitLength(0) == [0, 0, 0, 0, 0, 0, 0, 0]
  {
    hide Le32;
    Lengths();
  }

  lemma EmptyMessage()
    ensures Digest([]) == [0xd4, 0x1d, 0x8c, 0xd9, 0x8f, 0, 0xb2, 4, 0xe9, 0x80, 9, 0x98, 0xec, 0xf8, 0x42, 0x7e]
  {
    hide Steps, PadWith, Compress, Output, Word, PadZeros, BitLength;
    var zeros: seq<byte> := seq(55, _ => 0);
    var p := [] + [0x80] + zeros + [0, 0, 0, 0, 0, 0, 0, 0];
    EmptyLength();
    Padded([], zeros, [0, 0, 0, 0, 0, 0, 0, 0]);
    EmptyBlock1Words(p, zeros);
    Empty64();
    NextBlock(p, 0, IV, EmptyWords(),
              Regs(0x7246fad3, 0x14e45506, 0xff4ea3eb, 0x6e10a476));
    Output16(0xd98c1dd4, 0x04b2008f, 0x980980e9, 0x7e42f8ec,
             [0xd4, 0x1d, 0x8c, 0xd9, 0x8f, 0, 0xb2, 4, 0xe9, 0x80, 9, 0x98, 0xec, 0xf8, 0x42, 0x7e]);
  }

  lemma EmptyBlock1Words(p: seq<byte>, zeros: seq<byte>)
    requires zeros == seq(55, _ => 0) && p == [] + [0x80] + zeros + [0, 0, 0, 0, 0, 0, 0, 0]
    ensures forall i :: 0 <= i < 16 ==> EmptyWords()[i] == Word(p, 4 * i)
  {
    assert Word(p, 0) == 0x80 && Word(p, 52) == 0 && Word(p, 56) == 0 && Word(p, 60) == 0;
    forall i | 1 <= i < 16 ensures Word(p, 4 * i) == 0 { }
  }

  // ---------------------------------------------------------------- eighty digits, two blocks

  function Row1(): (s: seq<byte>)
    ensures |s| == 16
    ensures Word(s, 0) == 0x34333231 && Word(s, 4) == 0x38373635 && Word(s, 8) == 0x32313039 && Word(s, 12) == 0x36353433
  {
    [0x31, 0x32, 0x33, 0x34, 0x35, 0x36, 0x37, 0x38, 0x39, 0x30, 0x31, 0x32, 0x33, 0x34, 0x35, 0x36]
  }

  function Row2(): (s: seq<byte>)
    ensures |s| == 16
    ensures Word(s, 0) == 0x30393837 && Word(s, 4) == 0x34333231 && Word(s, 8) == 0x38373635 && Word(s, 12) == 0x32313039
  {
    [0x37, 0x38, 0x39, 0x30, 0x31, 0x32, 0x33, 0x34, 0x35, 0x36, 0x37, 0x38, 0x39, 0x30, 0x31, 0x32]
  }

  function Row3(): (s: seq<byte>)
    ensures |s| == 16
    ensures Word(s, 0) == 0x36353433 && Word(s, 4) == 0x30393837 && Word(s, 8) == 0x34333231 && Word(s, 12) == 0x38373635
  {
    [0x33, 0x34, 0x35, 0x36, 0x37, 0x38, 0x39, 0x30, 0x31, 0x32, 0x33, 0x34, 0x35, 0x36, 0x37, 0x38]
  }

  function Row4(): (s: seq<byte>)
    ensures |s| == 16
    ensures Word(s, 0) == 0x32313039 && Word(s, 4) == 0x36353433 && Word(s, 8) == 0x30393837 && Word(s, 12) == 0x34333231
  {
    [0x39, 0x30, 0x31, 0x32, 0x33, 0x34, 0x35, 0x36, 0x37, 0x38, 0x39, 0x30, 0x31, 0x32, 0x33, 0x34]
  }

  function Row5(): (s: seq<byte>)
    ensures |s| == 16
    ensures Word(s, 0) == 0x38373635 && Word(s, 4) == 0x32313039 && Word(s, 8) == 0x36353433 && Word(s, 12) == 0x30393837
  {
    [0x35, 0x36, 0x37, 0x38, 0x39, 0x30, 0x31, 0x32, 0x33, 0x34, 0x35, 0x36, 0x37, 0x38, 0x39, 0x30]
  }

  function Digits(): (m: seq<byte>)
    ensures |m| == 80
  {
    Row1() + Row2() + Row3() + Row4() + Row5()
  }

  function Tail(): (s: seq<byte>)
    ensures |s| == 48
    ensures forall i :: 0 <= i < 12 ==> Word(s, 4 * i) == if i == 0 then 0x80 else if i == 10 then 0x280 else 0
  {
    var s: seq<byte> := [0x80] + seq(39, _ => 0) + [0x80, 2, 0, 0, 0, 0, 0, 0];
    assert Word(s, 0) == 0x80 && Word(s, 36) == 0 && Word(s, 40) == 0x280 && Word(s, 44) == 0;
    s
  }

  lemma DigitsLength()
    ensures PadZeros(80) == 39 && BitLength(80) == [0x80, 2, 0, 0, 0, 0, 0, 0]
  {
    hide Le32;
    Lengths();
  }

  lemma DigitsPadded()
    ensures PadWith(Digits(), 80) == Digits() + Tail()
  {
    hide Digits, PadWith, PadZeros, BitLength;
    var zeros: seq<byte> := seq(39, _ => 0);
    DigitsLength();
    Padded(Digits(), zeros, [0x80, 2, 0, 0, 0, 0, 0, 0]);
    var end := [0x80, 2, 0, 0, 0, 0, 0, 0];
    assert Digits() + [0x80] + zeros + end == Digits() + ([0x80] + zeros + end);
  }

  lemma WordsOf(p: seq<byte>, at: nat, s: seq<byte>)
    requires at + |s| <= |p| && p[at..at+|s|] == s
    ensures forall i :: at <= i && i + 4 <= at + |s| ==> Word(p, i) == Word(s, i - at)
  {
    forall i | at <= i && i + 4 <= at + |s| ensures Word(p, i) == Word(s, i - at) { SameWord(p, at, s, i - at); }
  }

  function DigitsWords1(): (X: seq<bv32>)
    ensures |X| == 16
    ensures X[0] == 0x34333231 && X[1] == 0x38373635 && X[2] == 0x32313039 && X[3] == 0x36353433
    ensures X[4] == 0x30393837 && X[5] == 0x34333231 && X[6] == 0x38373635 && X[7] == 0x32313039
    ensures X[8] == 0x36353433 && X[9] == 0x30393837 && X[10] == 0x34333231 && X[11] == 0x38373635
    ensures X[12] == 0x32313039 && X[13] == 0x36353433 && X[14] == 0x30393837 && X[15] == 0x34333231
  {
    [0x34333231, 0x38373635, 0x32313039, 0x36353433, 0x30393837, 0x34333231, 0x38373635, 0x32313039,
     0x36353433, 0x30393837, 0x34333231, 0x38373635, 0x32313039, 0x36353433, 0x30393837, 0x34333231]
  }

  lemma DigitsBlock1_16()
    ensures Steps(IV, DigitsWords1(), 16) ==
            Regs(0x5157e49e, 0xaf506a03, 0x27e983a0, 0xffac907e)
  {
    hide OpOf, Steps, DigitsWords1;
    var q, X := IV, DigitsWords1();
    NoSteps(q, X);
    Table1();
    Next(q, X, 0, IV, 0x34333231, 7, 0xd76aa478, 0xbeb8ff8e);
    Next(q, X, 1, Regs(0x10325476, 0xbeb8ff8e, 0xefcdab89, 0x98badcfe), 0x38373635, 12, 0xe8c7b756, 0x7d989d89);
    Next(q, X, 2, Regs(0x98badcfe, 0x7d989d89, 0xbeb8ff8e, 0xefcdab89), 0x32313039, 17, 0x242070db, 0xf8cdf95d);
    Next(q, X, 3, Regs(0xefcdab89, 0xf8cdf95d, 0x7d989d89, 0xbeb8ff8e), 0x36353433, 22, 0xc1bdceee, 0x862797b0);
    Next(q, X, 4, Regs(0xbeb8ff8e, 0x862797b0, 0xf8cdf95d, 0x7d989d89), 0x30393837, 7, 0xf57c0faf, 0x8c17de9f);
    Next(q, X, 5, Regs(0x7d989d89, 0x8c17de9f, 0x862797b0, 0xf8cdf95d), 0x34333231, 12, 0x4787c62a, 0xc0f32d81);
    Next(q, X, 6, Regs(0xf8cdf95d, 0xc0f32d81, 0x8c17de9f, 0x862797b0), 0x38373635, 17, 0xa8304613, 0xe99fec1b);
    Next(q, X, 7, Regs(0x862797b0, 0xe99fec1b, 0xc0f32d81, 0x8c17de9f), 0x32313039, 22, 0xfd469501, 0xc57e78c1);
    Next(q, X, 8, Regs(0x8c17de9f, 0xc57e78c1, 0xe99fec1b, 0xc0f32d81), 0x36353433, 7, 0x698098d8, 0x7c0aceb7);
    Next(q, X, 9, Regs(0xc0f32d81, 0x7c0aceb7, 0xc57e78c1, 0xe99fec1b), 0x30393837, 12, 0x8b44f7af, 0x8869d2d8);
    Next(q, X, 10, Regs(0xe99fec1b, 0x8869d2d8, 0x7c0aceb7, 0xc57e78c1), 0x34333231, 17, 0xffff5bb1, 0x5186a8ba);
    Next(q, X, 11, Regs(0xc57e78c1, 0x5186a8ba, 0x8869d2d8, 0x7c0aceb7), 0x38373635, 22, 0x895cd7be, 0xa5f36f8d);
    Next(q, X, 12, Regs(0x7c0aceb7, 0xa5f36f8d, 0x5186a8ba, 0x8869d2d8), 0x32313039, 7, 0x6b901122, 0x5157e49e);
    Next(q, X, 13, Regs(0x8869d2d8, 0x5157e49e, 0xa5f36f8d, 0x5186a8ba), 0x36353433, 12, 0xfd987193, 0xffac907e);
    Next(q, X, 14, Regs(0x5186a8ba, 0xffac907e, 0x5157e49e, 0xa5f36f8d), 0x30393837, 17, 0xa679438e, 0x27e983a0);
    Next(q, X, 15, Regs(0xa5f36f8d, 0x27e983a0, 0xffac907e, 0x5157e49e), 0x34333231, 22, 0x49b40821, 0xaf506a03);
  }

  lemma DigitsBlock1_32()
    ensures Steps(IV, DigitsWords1(), 32) ==
            Regs(0xf8bcfbb0, 0x1bf25662, 0x99a0f1b8, 0xd760ed39)
  {
    hide OpOf, Steps, DigitsWords1;
    var q, X := IV, DigitsWords1();
    DigitsBlock1_16();
    Table2();
    Next(q, X, 16, Regs(0x5157e49e, 0xaf506a03, 0x27e983a0, 0xffac907e), 0x38373635, 5, 0xf61e2562, 0x8d18e0e8);
    Next(q, X, 17, Regs(0xffac907e, 0x8d18e0e8, 0xaf506a03, 0x27e983a0), 0x38373635, 9, 0xc040b340, 0x07de0df2);
    Next(q, X, 18, Regs(0x27e983a0, 0x07de0df2, 0x8d18e0e8, 0xaf506a03), 0x38373635, 14, 0x265e5a51, 0xef223167);
    Next(q, X, 19, Regs(0xaf506a03, 0xef223167, 0x07de0df2, 0x8d18e0e8), 0x34333231, 20, 0xe9b6c7aa, 0x04280170);
    Next(q, X, 20, Regs(0x8d18e0e8, 0x04280170, 0xef223167, 0x07de0df2), 0x34333231, 5, 0xd62f105d, 0x78929ee0);
    Next(q, X, 21, Regs(0x07de0df2, 0x78929ee0, 0x04280170, 0xef223167), 0x34333231, 9, 0x02441453, 0x375c6c2c);
    Next(q, X, 22, Regs(0xef223167, 0x375c6c2c, 0x78929ee0, 0x04280170), 0x34333231, 14, 0xd8a1e681, 0xb18aca50);
    Next(q, X, 23, Regs(0x04280170, 0xb18aca50, 0x375c6c2c, 0x78929ee0), 0x30393837, 20, 0xe7d3fbc8, 0xad400a91);
    Next(q, X, 24, Regs(0x78929ee0, 0xad400a91, 0xb18aca50, 0x375c6c2c), 0x30393837, 5, 0x21e1cde6, 0xbb45f43f);
    Next(q, X, 25, Regs(0x375c6c2c, 0xbb45f43f, 0xad400a91, 0xb18aca50), 0x30393837, 9, 0xc33707d6, 0xd61f8a0f);
    Next(q, X, 26, Regs(0xb18aca50, 0xd61f8a0f, 0xbb45f43f, 0xad400a91), 0x36353433, 14, 0xf4d50d87, 0x98ade6b5);
    Next(q, X, 27, Regs(0xad400a91, 0x98ade6b5, 0xd61f8a0f, 0xbb45f43f), 0x36353433, 20, 0x455a14ed, 0xb70e35a9);
    Next(q, X, 28, Regs(0xbb45f43f, 0xb70e35a9, 0x98ade6b5, 0xd61f8a0f), 0x36353433, 5, 0xa9e3e905, 0xf8bcfbb0);
    Next(q, X, 29, Regs(0xd61f8a0f, 0xf8bcfbb0, 0xb70e35a9, 0x98ade6b5), 0x32313039, 9, 0xfcefa3f8, 0xd760ed39);
    Next(q, X, 30, Regs(0x98ade6b5, 0xd760ed39, 0xf8bcfbb0, 0xb70e35a9), 0x32313039, 14, 0x676f02d9, 0x99a0f1b8);
    Next(q, X, 31, Regs(0xb70e35a9, 0x99a0f1b8, 0xd760ed39, 0xf8bcfbb0), 0x32313039, 20, 0x8d2a4c8a, 0x1bf25662);
  }

  lemma DigitsBlock1_48()
    ensures Steps(IV, DigitsWords1(), 48) ==
            Regs(0x697032ec, 0xdb4197da, 0xefc2c171, 0xfa597bfc)
  {
    hide OpOf, Steps, DigitsWords1;
    var q, X := IV, DigitsWords1();
    DigitsBlock1_32();
    Table3();
    Next(q, X, 32, Regs(0xf8bcfbb0, 0x1bf25662, 0x99a0f1b8, 0xd760ed39), 0x34333231, 4, 0xfffa3942, 0x3dbd76ca);
    Next(q, X, 33, Regs(0xd760ed39, 0x3dbd76ca, 0x1bf25662, 0x99a0f1b8), 0x36353433, 11, 0x8771f681, 0xfd056171);
    Next(q, X, 34, Regs(0x99a0f1b8, 0xfd056171, 0x3dbd76ca, 0x1bf25662), 0x38373635, 16, 0x6d9d6122, 0xc7ed7c30);
    Next(q, X, 35, Regs(0x1bf25662, 0xc7ed7c30, 0xfd056171, 0x3dbd76ca), 0x30393837, 23, 0xfde5380c, 0xe0162f49);
    Next(q, X, 36, Regs(0x3dbd76ca, 0xe0162f49, 0xc7ed7c30, 0xfd056171), 0x38373635, 4, 0xa4beea44, 0x3b32c408);
    Next(q, X, 37, Regs(0xfd056171, 0x3b32c408, 0xe0162f49, 0xc7ed7c30), 0x30393837, 11, 0x4bdecfa9, 0x7338d8b7);
    Next(q, X, 38, Regs(0xc7ed7c30, 0x7338d8b7, 0x3b32c408, 0xe0162f49), 0x32313039, 16, 0xf6bb4b60, 0x9ef871ad);
    Next(q, X, 39, Regs(0xe0162f49, 0x9ef871ad, 0x7338d8b7, 0x3b32c408), 0x34333231, 23, 0xbebfbc70, 0x1d4d6f72);
    Next(q, X, 40, Regs(0x3b32c408, 0x1d4d6f72, 0x9ef871ad, 0x7338d8b7), 0x36353433, 4, 0x289b7ec6, 0xc661460a);
    Next(q, X, 41, Regs(0x7338d8b7, 0xc661460a, 0x1d4d6f72, 0x9ef871ad), 0x34333231, 11, 0xeaa127fa, 0xd2bf04c9);
    Next(q, X, 42, Regs(0x9ef871ad, 0xd2bf04c9, 0xc661460a, 0x1d4d6f72), 0x36353433, 16, 0xd4ef3085, 0xd6d5b879);
    Next(q, X, 43, Regs(0x1d4d6f72, 0xd6d5b879, 0xd2bf04c9, 0xc661460a), 0x38373635, 23, 0x04881d05, 0x89e3c4d7);
    Next(q, X, 44, Regs(0xc661460a, 0x89e3c4d7, 0xd6d5b879, 0xd2bf04c9), 0x30393837, 4, 0xd9d4d039, 0x697032ec);
    Next(q, X, 45, Regs(0xd2bf04c9, 0x697032ec, 0x89e3c4d7, 0xd6d5b879), 0x32313039, 11, 0xe6db99e5, 0xfa597bfc);
    Next(q, X, 46, Regs(0xd6d5b879, 0xfa597bfc, 0x697032ec, 0x89e3c4d7), 0x34333231, 16, 0x1fa27cf8, 0xefc2c171);
    Next(q, X, 47, Regs(0x89e3c4d7, 0xefc2c171, 0xfa597bfc, 0x697032ec), 0x32313039, 23, 0xc4ac5665, 0xdb4197da);
  }

  lemma DigitsBlock1_64()
    ensures Steps(IV, DigitsWords1(), 64) ==
            Regs(0x614868eb, 0xb4d33102, 0x5133129b, 0xa09f38a7)
  {
    hide OpOf, Steps, DigitsWords1;
    var q, X := IV, DigitsWords1();
    DigitsBlock1_48();
    Table4();
    Next(q, X, 48, Regs(0x697032ec, 0xdb4197da, 0xefc2c171, 0xfa597bfc), 0x34333231, 6, 0xf4292244, 0x57b91aca);
    Next(q, X, 49, Regs(0xfa597bfc, 0x57b91aca, 0xdb4197da, 0xefc2c171), 0x32313039, 10, 0x432aff97, 0x210c9ebc);
    Next(q, X, 50, Regs(0xefc2c171, 0x210c9ebc, 0x57b91aca, 0xdb4197da), 0x30393837, 15, 0xab9423a7, 0x21efbd88);
    Next(q, X, 51, Regs(0xdb4197da, 0x21efbd88, 0x210c9ebc, 0x57b91aca), 0x34333231, 21, 0xfc93a039, 0xcaa25b01);
    Next(q, X, 52, Regs(0x57b91aca, 0xcaa25b01, 0x21efbd88, 0x210c9ebc), 0x32313039, 6, 0x655b59c3, 0x633d3f7c);
    Next(q, X, 53, Regs(0x210c9ebc, 0x633d3f7c, 0xcaa25b01, 0x21efbd88), 0x36353433, 10, 0x8f0ccc92, 0x1a4d3beb);
    Next(q, X, 54, Regs(0x21efbd88, 0x1a4d3beb, 0x633d3f7c, 0xcaa25b01), 0x34333231, 15, 0xffeff47d, 0xccaa1524);
    Next(q, X, 55, Regs(0xcaa25b01, 0xccaa1524, 0x1a4d3beb, 0x633d3f7c), 0x38373635, 21, 0x85845dd1, 0x7713f5df);
    Next(q, X, 56, Regs(0x633d3f7c, 0x7713f5df, 0xccaa1524, 0x1a4d3beb), 0x36353433, 6, 0x6fa87e4f, 0x8448b430);
    Next(q, X, 57, Regs(0x1a4d3beb, 0x8448b430, 0x7713f5df, 0xccaa1524), 0x34333231, 10, 0xfe2ce6e0, 0x71c93463);
    Next(q, X, 58, Regs(0xccaa1524, 0x71c93463, 0x8448b430, 0x7713f5df), 0x38373635, 15, 0xa3014314, 0x7e294727);
    Next(q, X, 59, Regs(0x7713f5df, 0x7e294727, 0x71c93463, 0x8448b430), 0x36353433, 21, 0x4e0811a1, 0x660a801d);
    Next(q, X, 60, Regs(0x8448b430, 0x660a801d, 0x7e294727, 0x71c93463), 0x30393837, 6, 0xf7537e82, 0x614868eb);
    Next(q, X, 61, Regs(0x71c93463, 0x614868eb, 0x660a801d, 0x7e294727), 0x38373635, 10, 0xbd3af235, 0xa09f38a7);
    Next(q, X, 62, Regs(0x7e294727, 0xa09f38a7, 0x614868eb, 0x660a801d), 0x32313039, 15, 0x2ad7d2bb, 0x5133129b);
    Next(q, X, 63, Regs(0x660a801d, 0x5133129b, 0xa09f38a7, 0x614868eb), 0x30393837, 21, 0xeb86d391, 0xb4d33102);
  }

  function DigitsWords2(): (X: seq<bv32>)
    ensures |X| == 16
    ensures X[0] == 0x38373635 && X[1] == 0x32313039 && X[2] == 0x36353433 && X[3] == 0x30393837
    ensures X[4] == 0x80 && X[5] == 0 && X[6] == 0 && X[7] == 0
    ensures X[8] == 0 && X[9] == 0 && X[10] == 0 && X[11] == 0
    ensures X[12] == 0 && X[13] == 0 && X[14] == 0x280 && X[15] == 0
  {
    [0x38373635, 0x32313039, 0x36353433, 0x30393837, 0x80, 0, 0, 0,
     0, 0, 0, 0, 0, 0, 0x280, 0]
  }

  lemma DigitsBlock2_16()
    ensures Steps(Regs(0xc88d8bec, 0xa4a0dc8b, 0xe9edef99, 0xb0d18d1d), DigitsWords2(), 16) ==
            Regs(0xdb4ff71c, 0x58b12eab, 0x04396a39, 0x9b6b4960)
  {
    hide OpOf, Steps, DigitsWords2;
    var q, X := Regs(0xc88d8bec, 0xa4a0dc8b, 0xe9edef99, 0xb0d18d1d), DigitsWords2();
    NoSteps(q, X);
    Table1();
    Next(q, X, 0, Regs(0xc88d8bec, 0xa4a0dc8b, 0xe9edef99, 0xb0d18d1d), 0x38373635, 7, 0xd76aa478, 0x353af7cf);
    Next(q, X, 1, Regs(0xb0d18d1d, 0x353af7cf, 0xa4a0dc8b, 0xe9edef99), 0x32313039, 12, 0xe8c7b756, 0x3a4f735a);
    Next(q, X, 2, Regs(0xe9edef99, 0x3a4f735a, 0x353af7cf, 0xa4a0dc8b), 0x36353433, 17, 0x242070db, 0x63356537);
    Next(q, X, 3, Regs(0xa4a0dc8b, 0x63356537, 0x3a4f735a, 0x353af7cf), 0x30393837, 22, 0xc1bdceee, 0x45e88f2c);
    Next(q, X, 4, Regs(0x353af7cf, 0x45e88f2c, 0x63356537, 0x3a4f735a), 0x80, 7, 0xf57c0faf, 0x3527497e);
    Next(q, X, 5, Regs(0x3a4f735a, 0x3527497e, 0x45e88f2c, 0x63356537), 0, 12, 0x4787c62a, 0xab92660e);
    Next(q, X, 6, Regs(0x63356537, 0xab92660e, 0x3527497e, 0x45e88f2c), 0, 17, 0xa8304613, 0x948347ae);
    Next(q, X, 7, Regs(0x45e88f2c, 0x948347ae, 0xab92660e, 0x3527497e), 0, 22, 0xfd469501, 0x377c7d0a);
    Next(q, X, 8, Regs(0x3527497e, 0x377c7d0a, 0x948347ae, 0xab92660e), 0, 7, 0x698098d8, 0xcc912f27);
    Next(q, X, 9, Regs(0xab92660e, 0xcc912f27, 0x377c7d0a, 0x948347ae), 0, 12, 0x8b44f7af, 0x6945a3d5);
    Next(q, X, 10, Regs(0x948347ae, 0x6945a3d5, 0xcc912f27, 0x377c7d0a), 0, 17, 0xffff5bb1, 0xae23894d);
    Next(q, X, 11, Regs(0x377c7d0a, 0xae23894d, 0x6945a3d5, 0xcc912f27), 0, 22, 0x895cd7be, 0xb9ede40c);
    Next(q, X, 12, Regs(0xcc912f27, 0xb9ede40c, 0xae23894d, 0x6945a3d5), 0, 7, 0x6b901122, 0xdb4ff71c);
    Next(q, X, 13, Regs(0x6945a3d5, 0xdb4ff71c, 0xb9ede40c, 0xae23894d), 0, 12, 0xfd987193, 0x9b6b4960);
    Next(q, X, 14, Regs(0xae23894d, 0x9b6b4960, 0xdb4ff71c, 0xb9ede40c), 0x280, 17, 0xa679438e, 0x04396a39);
    Next(q, X, 15, Regs(0xb9ede40c, 0x04396a39, 0x9b6b4960, 0xdb4ff71c), 0, 22, 0x49b40821, 0x58b12eab);
  }

  lemma DigitsBlock2_32()
    ensures Steps(Regs(0xc88d8bec, 0xa4a0dc8b, 0xe9edef99, 0xb0d18d1d), DigitsWords2(), 32) ==
            Regs(0x8761f38e, 0x67092c33, 0x061bc867, 0x7a516116)
  {
    hide OpOf, Steps, DigitsWords2;
    var q, X := Regs(0xc88d8bec, 0xa4a0dc8b, 0xe9edef99, 0xb0d18d1d), DigitsWords2();
    DigitsBlock2_16();
    Table2();
    Next(q, X, 16, Regs(0xdb4ff71c, 0x58b12eab, 0x04396a39, 0x9b6b4960), 0x32313039, 5, 0xf61e2562, 0x52c00cae);
    Next(q, X, 17, Regs(0x9b6b4960, 0x52c00cae, 0x58b12eab, 0x04396a39), 0, 9, 0xc040b340, 0xaad2a216);
    Next(q, X, 18, Regs(0x04396a39, 0xaad2a216, 0x52c00cae, 0x58b12eab), 0, 14, 0x265e5a51, 0xa476af6f);
    Next(q, X, 19, Regs(0x58b12eab, 0xa476af6f, 0xaad2a216, 0x52c00cae), 0x38373635, 20, 0xe9b6c7aa, 0x50f8de8c);
    Next(q, X, 20, Regs(0x52c00cae, 0x50f8de8c, 0xa476af6f, 0xaad2a216), 0, 5, 0xd62f105d, 0x0d6e6d91);
    Next(q, X, 21, Regs(0xaad2a216, 0x0d6e6d91, 0x50f8de8c, 0xa476af6f), 0, 9, 0x02441453, 0x17d64195);
    Next(q, X, 22, Regs(0xa476af6f, 0x17d64195, 0x0d6e6d91, 0x50f8de8c), 0, 14, 0xd8a1e681, 0xd5b7a850);
    Next(q, X, 23, Regs(0x50f8de8c, 0xd5b7a850, 0x17d64195, 0x0d6e6d91), 0x80, 20, 0xe7d3fbc8, 0x043cb080);
    Next(q, X, 24, Regs(0x0d6e6d91, 0x043cb080, 0xd5b7a850, 0x17d64195), 0, 5, 0x21e1cde6, 0x74f9377e);
    Next(q, X, 25, Regs(0x17d64195, 0x74f9377e, 0x043cb080, 0xd5b7a850), 0x280, 9, 0xc33707d6, 0x01f2addd);
    Next(q, X, 26, Regs(0xd5b7a850, 0x01f2addd, 0x74f9377e, 0x043cb080), 0x30393837, 14, 0xf4d50d87, 0xe775c8ca);
    Next(q, X, 27, Regs(0x043cb080, 0xe775c8ca, 0x01f2addd, 0x74f9377e), 0, 20, 0x455a14ed, 0xcb00b96e);
    Next(q, X, 28, Regs(0x74f9377e, 0xcb00b96e, 0xe775c8ca, 0x01f2addd), 0, 5, 0xa9e3e905, 0x8761f38e);
    Next(q, X, 29, Regs(0x01f2addd, 0x8761f38e, 0xcb00b96e, 0xe775c8ca), 0x36353433, 9, 0xfcefa3f8, 0x7a516116);
    Next(q, X, 30, Regs(0xe775c8ca, 0x7a516116, 0x8761f38e, 0xcb00b96e), 0, 14, 0x676f02d9, 0x061bc867);
    Next(q, X, 31, Regs(0xcb00b96e, 0x061bc867, 0x7a516116, 0x8761f38e), 0, 20, 0x8d2a4c8a, 0x67092c33);
  }

  lemma DigitsBlock2_48()
    ensures Steps(Regs(0xc88d8bec, 0xa4a0dc8b, 0xe9edef99, 0xb0d18d1d), DigitsWords2(), 48) ==
            Regs(0x71123afa, 0x1df7010a, 0xe6a8a386, 0xdc9c8ddb)
  {
    hide OpOf, Steps, DigitsWords2;
    var q, X := Regs(0xc88d8bec, 0xa4a0dc8b, 0xe9edef99, 0xb0d18d1d), DigitsWords2();
    DigitsBlock2_32();
    Table3();
    Next(q, X, 32, Regs(0x8761f38e, 0x67092c33, 0x061bc867, 0x7a516116), 0, 4, 0xfffa3942, 0x91044d5d);
    Next(q, X, 33, Regs(0x7a516116, 0x91044d5d, 0x67092c33, 0x061bc867), 0, 11, 0x8771f681, 0x610954eb);
    Next(q, X, 34, Regs(0x061bc867, 0x610954eb, 0x91044d5d, 0x67092c33), 0, 16, 0x6d9d6122, 0xc0175fa8);
    Next(q, X, 35, Regs(0x67092c33, 0xc0175fa8, 0x610954eb, 0x91044d5d), 0x280, 23, 0xfde5380c, 0x2ee1e3fe);
    Next(q, X, 36, Regs(0x91044d5d, 0x2ee1e3fe, 0xc0175fa8, 0x610954eb), 0x32313039, 4, 0xa4beea44, 0xae26ed7d);
    Next(q, X, 37, Regs(0x610954eb, 0xae26ed7d, 0x2ee1e3fe, 0xc0175fa8), 0x80, 11, 0x4bdecfa9, 0x71d8ecea);
    Next(q, X, 38, Regs(0xc0175fa8, 0x71d8ecea, 0xae26ed7d, 0x2ee1e3fe), 0, 16, 0xf6bb4b60, 0xff4a94dc);
    Next(q, X, 39, Regs(0x2ee1e3fe, 0xff4a94dc, 0x71d8ecea, 0xae26ed7d), 0, 23, 0xbebfbc70, 0xdbd1bff6);
    Next(q, X, 40, Regs(0xae26ed7d, 0xdbd1bff6, 0xff4a94dc, 0x71d8ecea), 0, 4, 0x289b7ec6, 0x9c350028);
    Next(q, X, 41, Regs(0x71d8ecea, 0x9c350028, 0xdbd1bff6, 0xff4a94dc), 0x38373635, 11, 0xeaa127fa, 0x97e5da92);
    Next(q, X, 42, Regs(0xff4a94dc, 0x97e5da92, 0x9c350028, 0xdbd1bff6), 0x30393837, 16, 0xd4ef3085, 0xfacaaf06);
    Next(q, X, 43, Regs(0xdbd1bff6, 0xfacaaf06, 0x97e5da92, 0x9c350028), 0, 23, 0x04881d05, 0x56b3692f);
    Next(q, X, 44, Regs(0x9c350028, 0x56b3692f, 0xfacaaf06, 0x97e5da92), 0, 4, 0xd9d4d039, 0x71123afa);
    Next(q, X, 45, Regs(0x97e5da92, 0x71123afa, 0x56b3692f, 0xfacaaf06), 0, 11, 0xe6db99e5, 0xdc9c8ddb);
    Next(q, X, 46, Regs(0xfacaaf06, 0xdc9c8ddb, 0x71123afa, 0x56b3692f), 0, 16, 0x1fa27cf8, 0xe6a8a386);
    Next(q, X, 47, Regs(0x56b3692f, 0xe6a8a386, 0xdc9c8ddb, 0x71123afa), 0x36353433, 23, 0xc4ac5665, 0x1df7010a);
  }

  lemma DigitsBlock2_64()
    ensures Steps(Regs(0xc88d8bec, 0xa4a0dc8b, 0xe9edef99, 0xb0d18d1d), DigitsWords2(), 64) ==
            Regs(0xda67616b, 0xb12906a0, 0x44ec5a13, 0xc9e47a04)
  {
    hide OpOf, Steps, DigitsWords2;
    var q, X := Regs(0xc88d8bec, 0xa4a0dc8b, 0xe9edef99, 0xb0d18d1d), DigitsWords2();
    DigitsBlock2_48();
    Table4();
    Next(q, X, 48, Regs(0x71123afa, 0x1df7010a, 0xe6a8a386, 0xdc9c8ddb), 0x38373635, 6, 0xf4292244, 0xd29007e7);
    Next(q, X, 49, Regs(0xdc9c8ddb, 0xd29007e7, 0x1df7010a, 0xe6a8a386), 0, 10, 0x432aff97, 0x7241a77e);
    Next(q, X, 50, Regs(0xe6a8a386, 0x7241a77e, 0xd29007e7, 0x1df7010a), 0x280, 15, 0xab9423a7, 0xd3248109);
    Next(q, X, 51, Regs(0x1df7010a, 0xd3248109, 0x7241a77e, 0xd29007e7), 0, 21, 0xfc93a039, 0xc8797828);
    Next(q, X, 52, Regs(0xd29007e7, 0xc8797828, 0xd3248109, 0x7241a77e), 0, 6, 0x655b59c3, 0x7a504abd);
    Next(q, X, 53, Regs(0x7241a77e, 0x7a504abd, 0xc8797828, 0xd3248109), 0x30393837, 10, 0x8f0ccc92, 0x211cc65d);
    Next(q, X, 54, Regs(0xd3248109, 0x211cc65d, 0x7a504abd, 0xc8797828), 0, 15, 0xffeff47d, 0xa290d6ce);
    Next(q, X, 55, Regs(0xc8797828, 0xa290d6ce, 0x211cc65d, 0x7a504abd), 0x32313039, 21, 0x85845dd1, 0x9b31b114);
    Next(q, X, 56, Regs(0x7a504abd, 0x9b31b114, 0xa290d6ce, 0x211cc65d), 0, 6, 0x6fa87e4f, 0x723fd22d);
    Next(q, X, 57, Regs(0x211cc65d, 0x723fd22d, 0x9b31b114, 0xa290d6ce), 0, 10, 0xfe2ce6e0, 0xd21d6a3b);
    Next(q, X, 58, Regs(0xa290d6ce, 0xd21d6a3b, 0x723fd22d, 0x9b31b114), 0, 15, 0xa3014314, 0x3d79cf74);
    Next(q, X, 59, Regs(0x9b31b114, 0x3d79cf74, 0xd21d6a3b, 0x723fd22d), 0, 21, 0x4e0811a1, 0x4dc4f33d);
    Next(q, X, 60, Regs(0x723fd22d, 0x4dc4f33d, 0x3d79cf74, 0xd21d6a3b), 0x80, 6, 0xf7537e82, 0xda67616b);
    Next(q, X, 61, Regs(0xd21d6a3b, 0xda67616b, 0x4dc4f33d, 0x3d79cf74), 0, 10, 0xbd3af235, 0xc9e47a04);
    Next(q, X, 62, Regs(0x3d79cf74, 0xc9e47a04, 0xda67616b, 0x4dc4f33d), 0x36353433, 15, 0x2ad7d2bb, 0x44ec5a13);
    Next(q, X, 63, Regs(0x4dc4f33d, 0x44ec5a13, 0xc9e47a04, 0xda67616b), 0, 21, 0xeb86d391, 0xb12906a0);
  }

  lemma DigitsFirst(p: seq<byte>)
    requires p == Digits() + Tail()
    ensures forall i :: 0 <= i < 16 ==> DigitsWords1()[i] == Word(p, 4 * i)
  {
    hide Word, Row1, Row2, Row3, Row4, Row5, Tail;
    WordsOf(p, 0, Row1());
    WordsOf(p, 16, Row2());
    WordsOf(p, 32, Row3());
    WordsOf(p, 48, Row4());
  }

  lemma DigitsSecond(p: seq<byte>)
    requires p == Digits() + Tail()
    ensures forall i :: 0 <= i < 16 ==> DigitsWords2()[i] == Word(p, 64 + 4 * i)
  {
    hide Word, Row1, Row2, Row3, Row4, Row5, Tail;
    WordsOf(p, 64, Row5());
    WordsOf(p, 80, Tail());
  }

  lemma EightyDigits()
    ensures Digest(Digits()) == [0x57, 0xed, 0xf4, 0xa2, 0x2b, 0xe3, 0xc9, 0x55, 0xac, 0x49, 0xda, 0x2e, 0x21, 7, 0xb6, 0x7a]
  {
    hide Steps, PadWith, Compress, Output, Word, Digits, Tail;
    var p := Digits() + Tail();
    DigitsPadded();
    DigitsFirst(p);
    DigitsSecond(p);
    DigitsBlock1_64();
    NextBlock(p, 0, IV, DigitsWords1(),
              Regs(0x614868eb, 0xb4d33102, 0x5133129b, 0xa09f38a7));
    DigitsBlock2_64();
    NextBlock(p, 1, Regs(0xc88d8bec, 0xa4a0dc8b, 0xe9edef99, 0xb0d18d1d), DigitsWords2(),
              Regs(0xda67616b, 0xb12906a0, 0x44ec5a13, 0xc9e47a04));
    Output16(0xa2f4ed57, 0x55c9e32b, 0x2eda49ac, 0x7ab60721,
             [0x57, 0xed, 0xf4, 0xa2, 0x2b, 0xe3, 0xc9, 0x55, 0xac, 0x49, 0xda, 0x2e, 0x21, 7, 0xb6, 0x7a]);
  }
}
