/** MD5 as RFC 1321 defines it. */
module Md5Rfc {

  type byte = bv8

  /** The four registers A, B, C, D. */
  datatype Regs = Regs(a: bv32, b: bv32, c: bv32, d: bv32)

  const IV := Regs(0x67452301, 0xEFCDAB89, 0x98BADCFE, 0x10325476)

  // The auxiliary functions of section 3.4.
  function F(x: bv32, y: bv32, z: bv32): bv32 { (x & y) | (!x & z) }
  function G(x: bv32, y: bv32, z: bv32): bv32 { (x & z) | (y & !z) }
  function H(x: bv32, y: bv32, z: bv32): bv32 { x ^ y ^ z }
  function I(x: bv32, y: bv32, z: bv32): bv32 { y ^ (x | !z) }

  function Aux(i: nat, x: bv32, y: bv32, z: bv32): bv32
    requires i < 64
  {
    if i < 16 then F(x, y, z) else if i < 32 then G(x, y, z) else if i < 48 then H(x, y, z) else I(x, y, z)
  }

  /** What a step reads, how far it rotates, and its constant: section 3.4, round by round. */
  datatype Op = Op(k: nat, s: nat, t: bv32)

  function Table1(i: nat): (op: Op) ensures op.k < 16 && op.s < 32 {
    match i
    case 0 => Op(0, 7, 0xd76aa478) case 1 => Op(1, 12, 0xe8c7b756) case 2 => Op(2, 17, 0x242070db) case 3 => Op(3, 22, 0xc1bdceee)
    case 4 => Op(4, 7, 0xf57c0faf) case 5 => Op(5, 12, 0x4787c62a) case 6 => Op(6, 17, 0xa8304613) case 7 => Op(7, 22, 0xfd469501)
    case 8 => Op(8, 7, 0x698098d8) case 9 => Op(9, 12, 0x8b44f7af) case 10 => Op(10, 17, 0xffff5bb1) case 11 => Op(11, 22, 0x895cd7be)
    case 12 => Op(12, 7, 0x6b901122) case 13 => Op(13, 12, 0xfd987193) case 14 => Op(14, 17, 0xa679438e) case _ => Op(15, 22, 0x49b40821)
  }

  function Table2(i: nat): (op: Op) ensures op.k < 16 && op.s < 32 {
    match i
    case 0 => Op(1, 5, 0xf61e2562) case 1 => Op(6, 9, 0xc040b340) case 2 => Op(11, 14, 0x265e5a51) case 3 => Op(0, 20, 0xe9b6c7aa)
    case 4 => Op(5, 5, 0xd62f105d) case 5 => Op(10, 9, 0x02441453) case 6 => Op(15, 14, 0xd8a1e681) case 7 => Op(4, 20, 0xe7d3fbc8)
    case 8 => Op(9, 5, 0x21e1cde6) case 9 => Op(14, 9, 0xc33707d6) case 10 => Op(3, 14, 0xf4d50d87) case 11 => Op(8, 20, 0x455a14ed)
    case 12 => Op(13, 5, 0xa9e3e905) case 13 => Op(2, 9, 0xfcefa3f8) case 14 => Op(7, 14, 0x676f02d9) case _ => Op(12, 20, 0x8d2a4c8a)
  }

  function Table3(i: nat): (op: Op) ensures op.k < 16 && op.s < 32 {
    match i
    case 0 => Op(5, 4, 0xfffa3942) case 1 => Op(8, 11, 0x8771f681) case 2 => Op(11, 16, 0x6d9d6122) case 3 => Op(14, 23, 0xfde5380c)
    case 4 => Op(1, 4, 0xa4beea44) case 5 => Op(4, 11, 0x4bdecfa9) case 6 => Op(7, 16, 0xf6bb4b60) case 7 => Op(10, 23, 0xbebfbc70)
    case 8 => Op(13, 4, 0x289b7ec6) case 9 => Op(0, 11, 0xeaa127fa) case 10 => Op(3, 16, 0xd4ef3085) case 11 => Op(6, 23, 0x04881d05)
    case 12 => Op(9, 4, 0xd9d4d039) case 13 => Op(12, 11, 0xe6db99e5) case 14 => Op(15, 16, 0x1fa27cf8) case _ => Op(2, 23, 0xc4ac5665)
  }

  function Table4(i: nat): (op: Op) ensures op.k < 16 && op.s < 32 {
    match i
    case 0 => Op(0, 6, 0xf4292244) case 1 => Op(7, 10, 0x432aff97) case 2 => Op(14, 15, 0xab9423a7) case 3 => Op(5, 21, 0xfc93a039)
    case 4 => Op(12, 6, 0x655b59c3) case 5 => Op(3, 10, 0x8f0ccc92) case 6 => Op(10, 15, 0xffeff47d) case 7 => Op(1, 21, 0x85845dd1)
    case 8 => Op(8, 6, 0x6fa87e4f) case 9 => Op(15, 10, 0xfe2ce6e0) case 10 => Op(6, 15, 0xa3014314) case 11 => Op(13, 21, 0x4e0811a1)
    case 12 => Op(4, 6, 0xf7537e82) case 13 => Op(11, 10, 0xbd3af235) case 14 => Op(2, 15, 0x2ad7d2bb) case _ => Op(9, 21, 0xeb86d391)
  }

  function OpOf(i: nat): (op: Op)
    requires i < 64
    ensures op.k < 16 && op.s < 32
  {
    if i < 16 then Table1(i) else if i < 32 then Table2(i - 16) else if i < 48 then Table3(i - 32) else Table4(i - 48)
  }

  function Rotate(x: bv32, s: nat): bv32
    requires s < 32
  {
    x.RotateLeft(s)
  }

  /** Addition of words, modulo 2^32. */
  function Add(x: bv32, y: bv32): bv32 {
    x + y
  }

  /** a = b + ((a + f + x + t) <<< s), all sums modulo 2^32 */
  function Mix(a: bv32, b: bv32, f: bv32, x: bv32, t: bv32, s: nat): bv32
    requires s < 32
  {
    Add(Rotate(Add(a, Add(Add(f, x), t)), s), b)
  }

  /** Step i, after which the registers change their roles. */
  function Step(i: nat, r: Regs, X: seq<bv32>): Regs
    requires i < 64 && |X| == 16
  {
    var op := OpOf(i);
    Regs(r.d, Mix(r.a, r.b, Aux(i, r.b, r.c, r.d), X[op.k], op.t, op.s), r.b, r.c)
  }

  /** Steps 0 to n-1. */
  function Steps(r: Regs, X: seq<bv32>, n: nat): Regs
    requires n <= 64 && |X| == 16
  {
    if n == 0 then r else Step(n - 1, Steps(r, X, n - 1), X)
  }

  function Word(data: seq<byte>, i: nat): bv32
    requires i + 4 <= |data|
  {
    (data[i] as bv32) | ((data[i+1] as bv32) << 8) | ((data[i+2] as bv32) << 16) | ((data[i+3] as bv32) << 24)
  }

  /** A block as sixteen words, low-order byte first. */
  function Words(data: seq<byte>): (X: seq<bv32>)
    requires |data| == 64
    ensures |X| == 16
  {
    seq(16, i requires 0 <= i < 16 => Word(data, 4 * i))
  }

  function Plus(r: Regs, q: Regs): Regs {
    Regs(Add(r.a, q.a), Add(r.b, q.b), Add(r.c, q.c), Add(r.d, q.d))
  }

  function Compress(r: Regs, data: seq<byte>): Regs
    requires |data| == 64
  {
    Plus(r, Steps(r, Words(data), 64))
  }

  /** The registers after the first k blocks of a message. */
  function Blocks(m: seq<byte>, k: nat): Regs
    requires 64 * k <= |m|
  {
    if k == 0 then IV else Compress(Blocks(m, k - 1), m[64*(k-1)..64*k])
  }

  const TWO32 := 0x1_0000_0000
  const TWO64 := 0x1_0000_0000_0000_0000

  function ByteOf(n: nat, k: nat): byte
    requires k < 4
  {
    var d := match k case 0 => n case 1 => n / 0x100 case 2 => n / 0x1_0000 case _ => n / 0x100_0000;
    (d % 256) as byte
  }

  /** A 32-bit number as four bytes, low-order byte first. */
  function Le32(n: nat): (s: seq<byte>)
    ensures |s| == 4
  {
    [ByteOf(n, 0), ByteOf(n, 1), ByteOf(n, 2), ByteOf(n, 3)]
  }

  /** The length of a message of `n` bytes in bits, modulo 2^64 ... */
  function BitCount(n: nat): (bits: nat)
    ensures bits < TWO64
  {
    (8 * n) % TWO64
  }

  /** ... and the field that holds it. */
  function BitLength(n: nat): (s: seq<byte>)
    ensures |s| == 8
  {
    var bits := BitCount(n);
    Le32(bits % TWO32) + Le32(bits / TWO32)
  }

  function PadZeros(n: nat): (z: nat)
    ensures z < 64 && (n + 1 + z) % 64 == 56
  {
    (119 - n % 64) % 64
  }

  /** Sections 3.1 and 3.2: a one bit, zero bits up to 56 modulo 64, and the length. */
  function PadWith(m: seq<byte>, length: nat): (p: seq<byte>)
    ensures |p| > |m|
  {
    m + [0x80] + seq(PadZeros(|m|), _ => 0) + BitLength(length)
  }

  function RegBytes(x: bv32): (s: seq<byte>)
    ensures |s| == 4
  {
    [(x & 0xFF) as byte, ((x >> 8) & 0xFF) as byte, ((x >> 16) & 0xFF) as byte, ((x >> 24) & 0xFF) as byte]
  }

  function Output(r: Regs): (s: seq<byte>)
    ensures |s| == 16
  {
    RegBytes(r.a) + RegBytes(r.b) + RegBytes(r.c) + RegBytes(r.d)
  }

  function DigestWith(m: seq<byte>, length: nat): seq<byte> {
    var p := PadWith(m, length);
    Output(Blocks(p, |p| / 64))
  }

  function Digest(m: seq<byte>): seq<byte> {
    DigestWith(m, |m|)
  }

  // ---------------------------------------------------------------- block by block

  lemma {:induction false} BlocksPrefix(m: seq<byte>, x: seq<byte>, k: nat)
    requires 64 * k <= |m|
    ensures Blocks(m + x, k) == Blocks(m, k)
  {
    hide Compress;
    if k > 0 {
      BlocksPrefix(m, x, k - 1);
      assert (m + x)[64*(k-1)..64*k] == m[64*(k-1)..64*k];
    }
  }

  /** Four steps bring every register back to its role. */
  function Four(r: Regs, X: seq<bv32>, i: nat): Regs
    requires i + 4 <= 64 && |X| == 16
  {
    Step(i + 3, Step(i + 2, Step(i + 1, Step(i, r, X), X), X), X)
  }

  lemma StepsFour(r: Regs, X: seq<bv32>, i: nat)
    requires i + 4 <= 64 && |X| == 16
    ensures Steps(r, X, i + 4) == Four(Steps(r, X, i), X, i)
  {
    hide Step;
    assert Steps(r, X, i + 1) == Step(i, Steps(r, X, i), X);
    assert Steps(r, X, i + 2) == Step(i + 1, Steps(r, X, i + 1), X);
    assert Steps(r, X, i + 3) == Step(i + 2, Steps(r, X, i + 2), X);
  }
}
