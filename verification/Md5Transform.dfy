/** The block function of the second MD5 in md5.c. */
module Md5Transform {
  import opened Md5Rfc
  import Md5Process

  function Rol(x: bv32, n: nat): bv32
    requires n < 32
  {
    (x << n) | (x >> (32 - n))
  }

  lemma RolIs(x: bv32, n: nat)
    requires n < 32
    ensures Rol(x, n) == Md5Process.ShiftBoth(x, n)
  {
    Md5Process.Masked(x);
  }

  /** One step: the register is updated three times. */
  function OP(a: bv32, b: bv32, f: bv32, x: bv32, s: nat, T: bv32): bv32
    requires s < 32
  {
    var a1 := Add(a, Add(Add(f, x), T));
    var a2 := Rol(a1, s);
    Add(a2, b)
  }

  lemma OpIsMix()
    ensures forall a, b, f, x, s: nat, t :: s < 32 && Md5Process.Amount(s) ==> OP(a, b, f, x, s, t) == Mix(a, b, f, x, t, s)
  {
    hide Mix, Md5Process.Amount, Md5Process.ShiftBoth, Rol, Add;
    forall a, b, f, x, s: nat, t | s < 32 && Md5Process.Amount(s) ensures OP(a, b, f, x, s, t) == Mix(a, b, f, x, t, s) {
      Md5Process.PIs(a, b, f, x, s, t);
      RolIs(Add(a, Add(Add(f, x), t)), s);
    }
  }

  function FF(b: bv32, c: bv32, d: bv32): (r: bv32)
    ensures r == F(b, c, d)
  {
    Md5Process.Choose(b, c, d);
    d ^ (b & (c ^ d))
  }

  function FG(b: bv32, c: bv32, d: bv32): (r: bv32)
    ensures r == G(b, c, d)
  {
    assert (d & b) | (!d & c) == (b & d) | (c & !d);
    FF(d, b, c)
  }

  function FH(b: bv32, c: bv32, d: bv32): (r: bv32)
    ensures r == H(b, c, d)
  {
    b ^ c ^ d
  }

  function FI(b: bv32, c: bv32, d: bv32): (r: bv32)
    ensures r == I(b, c, d)
  {
    c ^ (b | !d)
  }

  method Transform1(r: Regs, X: seq<bv32>, ghost r0: Regs) returns (q: Regs)
    requires |X| == 16 && r == Steps(r0, X, 0)
    ensures q == Steps(r0, X, 16)
  {
    hide Steps, Mix, F, G, H, I, OP, FF, Table2, Table3, Table4;
    OpIsMix();
    var A, B, C, D := r.a, r.b, r.c, r.d;
    A := OP(A, B, FF(B, C, D), X[0], 7, 0xd76aa478);
    D := OP(D, A, FF(A, B, C), X[1], 12, 0xe8c7b756);
    C := OP(C, D, FF(D, A, B), X[2], 17, 0x242070db);
    B := OP(B, C, FF(C, D, A), X[3], 22, 0xc1bdceee);
    StepsFour(r0, X, 0);
    assert Regs(A, B, C, D) == Steps(r0, X, 4);
    A := OP(A, B, FF(B, C, D), X[4], 7, 0xf57c0faf);
    D := OP(D, A, FF(A, B, C), X[5], 12, 0x4787c62a);
    C := OP(C, D, FF(D, A, B), X[6], 17, 0xa8304613);
    B := OP(B, C, FF(C, D, A), X[7], 22, 0xfd469501);
    StepsFour(r0, X, 4);
    assert Regs(A, B, C, D) == Steps(r0, X, 8);
    A := OP(A, B, FF(B, C, D), X[8], 7, 0x698098d8);
    D := OP(D, A, FF(A, B, C), X[9], 12, 0x8b44f7af);
    C := OP(C, D, FF(D, A, B), X[10], 17, 0xffff5bb1);
    B := OP(B, C, FF(C, D, A), X[11], 22, 0x895cd7be);
    StepsFour(r0, X, 8);
    assert Regs(A, B, C, D) == Steps(r0, X, 12);
    A := OP(A, B, FF(B, C, D), X[12], 7, 0x6b901122);
    D := OP(D, A, FF(A, B, C), X[13], 12, 0xfd987193);
    C := OP(C, D, FF(D, A, B), X[14], 17, 0xa679438e);
    B := OP(B, C, FF(C, D, A), X[15], 22, 0x49b40821);
    StepsFour(r0, X, 12);
    assert Regs(A, B, C, D) == Steps(r0, X, 16);
    q := Regs(A, B, C, D);
  }

  method Transform2(r: Regs, X: seq<bv32>, ghost r0: Regs) returns (q: Regs)
    requires |X| == 16 && r == Steps(r0, X, 16)
    ensures q == Steps(r0, X, 32)
  {
    hide Steps, Mix, F, G, H, I, OP, FG, Table1, Table3, Table4;
    OpIsMix();
    var A, B, C, D := r.a, r.b, r.c, r.d;
    A := OP(A, B, FG(B, C, D), X[1], 5, 0xf61e2562);
    D := OP(D, A, FG(A, B, C), X[6], 9, 0xc040b340);
    C := OP(C, D, FG(D, A, B), X[11], 14, 0x265e5a51);
    B := OP(B, C, FG(C, D, A), X[0], 20, 0xe9b6c7aa);
    StepsFour(r0, X, 16);
    assert Regs(A, B, C, D) == Steps(r0, X, 20);
    A := OP(A, B, FG(B, C, D), X[5], 5, 0xd62f105d);
    D := OP(D, A, FG(A, B, C), X[10], 9, 0x02441453);
    C := OP(C, D, FG(D, A, B), X[15], 14, 0xd8a1e681);
    B := OP(B, C, FG(C, D, A), X[4], 20, 0xe7d3fbc8);
    StepsFour(r0, X, 20);
    assert Regs(A, B, C, D) == Steps(r0, X, 24);
    A := OP(A, B, FG(B, C, D), X[9], 5, 0x21e1cde6);
    D := OP(D, A, FG(A, B, C), X[14], 9, 0xc33707d6);
    C := OP(C, D, FG(D, A, B), X[3], 14, 0xf4d50d87);
    B := OP(B, C, FG(C, D, A), X[8], 20, 0x455a14ed);
    StepsFour(r0, X, 24);
    assert Regs(A, B, C, D) == Steps(r0, X, 28);
    A := OP(A, B, FG(B, C, D), X[13], 5, 0xa9e3e905);
    D := OP(D, A, FG(A, B, C), X[2], 9, 0xfcefa3f8);
    C := OP(C, D, FG(D, A, B), X[7], 14, 0x676f02d9);
    B := OP(B, C, FG(C, D, A), X[12], 20, 0x8d2a4c8a);
    StepsFour(r0, X, 28);
    assert Regs(A, B, C, D) == Steps(r0, X, 32);
    q := Regs(A, B, C, D);
  }

  method Transform3(r: Regs, X: seq<bv32>, ghost r0: Regs) returns (q: Regs)
    requires |X| == 16 && r == Steps(r0, X, 32)
    ensures q == Steps(r0, X, 48)
  {
    hide Steps, Mix, F, G, H, I, OP, FH, Table1, Table2, Table4;
    OpIsMix();
    var A, B, C, D := r.a, r.b, r.c, r.d;
    A := OP(A, B, FH(B, C, D), X[5], 4, 0xfffa3942);
    D := OP(D, A, FH(A, B, C), X[8], 11, 0x8771f681);
    C := OP(C, D, FH(D, A, B), X[11], 16, 0x6d9d6122);
    B := OP(B, C, FH(C, D, A), X[14], 23, 0xfde5380c);
    StepsFour(r0, X, 32);
    assert Regs(A, B, C, D) == Steps(r0, X, 36);
    A := OP(A, B, FH(B, C, D), X[1], 4, 0xa4beea44);
    D := OP(D, A, FH(A, B, C), X[4], 11, 0x4bdecfa9);
    C := OP(C, D, FH(D, A, B), X[7], 16, 0xf6bb4b60);
    B := OP(B, C, FH(C, D, A), X[10], 23, 0xbebfbc70);
    StepsFour(r0, X, 36);
    assert Regs(A, B, C, D) == Steps(r0, X, 40);
    A := OP(A, B, FH(B, C, D), X[13], 4, 0x289b7ec6);
    D := OP(D, A, FH(A, B, C), X[0], 11, 0xeaa127fa);
    C := OP(C, D, FH(D, A, B), X[3], 16, 0xd4ef3085);
    B := OP(B, C, FH(C, D, A), X[6], 23, 0x04881d05);
    StepsFour(r0, X, 40);
    assert Regs(A, B, C, D) == Steps(r0, X, 44);
    A := OP(A, B, FH(B, C, D), X[9], 4, 0xd9d4d039);
    D := OP(D, A, FH(A, B, C), X[12], 11, 0xe6db99e5);
    C := OP(C, D, FH(D, A, B), X[15], 16, 0x1fa27cf8);
    B := OP(B, C, FH(C, D, A), X[2], 23, 0xc4ac5665);
    StepsFour(r0, X, 44);
    assert Regs(A, B, C, D) == Steps(r0, X, 48);
    q := Regs(A, B, C, D);
  }

  method Transform4(r: Regs, X: seq<bv32>, ghost r0: Regs) returns (q: Regs)
    requires |X| == 16 && r == Steps(r0, X, 48)
    ensures q == Steps(r0, X, 64)
  {
    hide Steps, Mix, F, G, H, I, OP, FI, Table1, Table2, Table3;
    OpIsMix();
    var A, B, C, D := r.a, r.b, r.c, r.d;
    A := OP(A, B, FI(B, C, D), X[0], 6, 0xf4292244);
    D := OP(D, A, FI(A, B, C), X[7], 10, 0x432aff97);
    C := OP(C, D, FI(D, A, B), X[14], 15, 0xab9423a7);
    B := OP(B, C, FI(C, D, A), X[5], 21, 0xfc93a039);
    StepsFour(r0, X, 48);
    assert Regs(A, B, C, D) == Steps(r0, X, 52);
    A := OP(A, B, FI(B, C, D), X[12], 6, 0x655b59c3);
    D := OP(D, A, FI(A, B, C), X[3], 10, 0x8f0ccc92);
    C := OP(C, D, FI(D, A, B), X[10], 15, 0xffeff47d);
    B := OP(B, C, FI(C, D, A), X[1], 21, 0x85845dd1);
    StepsFour(r0, X, 52);
    assert Regs(A, B, C, D) == Steps(r0, X, 56);
    A := OP(A, B, FI(B, C, D), X[8], 6, 0x6fa87e4f);
    D := OP(D, A, FI(A, B, C), X[15], 10, 0xfe2ce6e0);
    C := OP(C, D, FI(D, A, B), X[6], 15, 0xa3014314);
    B := OP(B, C, FI(C, D, A), X[13], 21, 0x4e0811a1);
    StepsFour(r0, X, 56);
    assert Regs(A, B, C, D) == Steps(r0, X, 60);
    A := OP(A, B, FI(B, C, D), X[4], 6, 0xf7537e82);
    D := OP(D, A, FI(A, B, C), X[11], 10, 0xbd3af235);
    C := OP(C, D, FI(D, A, B), X[2], 15, 0x2ad7d2bb);
    B := OP(B, C, FI(C, D, A), X[9], 21, 0xeb86d391);
    StepsFour(r0, X, 60);
    assert Regs(A, B, C, D) == Steps(r0, X, 64);
    q := Regs(A, B, C, D);
  }

  method Transform(regs: Regs, data: seq<byte>) returns (q: Regs)
    requires |data| == 64
    ensures q == Compress(regs, data)
  {
    hide Steps, Words, Plus;
    var words := Words(data);
    assert regs == Steps(regs, words, 0) by { Md5Process.StepsZero(regs, words); }
    var r := Transform1(regs, words, regs);
    r := Transform2(r, words, regs);
    r := Transform3(r, words, regs);
    r := Transform4(r, words, regs);
    q := Plus(regs, r);
  }
}
