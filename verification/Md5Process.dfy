/** The block function of the first MD5 in md5.c. */
module Md5Process {
  import opened Md5Rfc

  /** The amounts MD5 rotates by. */
  predicate Amount(s: nat) {
    s in {4, 5, 6, 7, 9, 10, 11, 12, 14, 15, 16, 17, 20, 21, 22, 23}
  }

  function ShiftBoth(x: bv32, s: nat): bv32
    requires s < 32
  {
    (x << s) | ((x & 0xFFFFFFFF) >> (32 - s))
  }

  /** Shifting both ways rotates. */
  lemma RotateBySum(x: bv32, s: nat)
    requires Amount(s)
    ensures ShiftBoth(x, s) == Rotate(x, s)
  {
    if s == 4 { assert (x << 4) | ((x & 0xFFFFFFFF) >> 28) == x.RotateLeft(4); }
    else if s == 5 { assert (x << 5) | ((x & 0xFFFFFFFF) >> 27) == x.RotateLeft(5); }
    else if s == 6 { assert (x << 6) | ((x & 0xFFFFFFFF) >> 26) == x.RotateLeft(6); }
    else if s == 7 { assert (x << 7) | ((x & 0xFFFFFFFF) >> 25) == x.RotateLeft(7); }
    else if s == 9 { assert (x << 9) | ((x & 0xFFFFFFFF) >> 23) == x.RotateLeft(9); }
    else if s == 10 { assert (x << 10) | ((x & 0xFFFFFFFF) >> 22) == x.RotateLeft(10); }
    else if s == 11 { assert (x << 11) | ((x & 0xFFFFFFFF) >> 21) == x.RotateLeft(11); }
    else if s == 12 { assert (x << 12) | ((x & 0xFFFFFFFF) >> 20) == x.RotateLeft(12); }
    else if s == 14 { assert (x << 14) | ((x & 0xFFFFFFFF) >> 18) == x.RotateLeft(14); }
    else if s == 15 { assert (x << 15) | ((x & 0xFFFFFFFF) >> 17) == x.RotateLeft(15); }
    else if s == 16 { assert (x << 16) | ((x & 0xFFFFFFFF) >> 16) == x.RotateLeft(16); }
    else if s == 17 { assert (x << 17) | ((x & 0xFFFFFFFF) >> 15) == x.RotateLeft(17); }
    else if s == 20 { assert (x << 20) | ((x & 0xFFFFFFFF) >> 12) == x.RotateLeft(20); }
    else if s == 21 { assert (x << 21) | ((x & 0xFFFFFFFF) >> 11) == x.RotateLeft(21); }
    else if s == 22 { assert (x << 22) | ((x & 0xFFFFFFFF) >> 10) == x.RotateLeft(22); }
    else { assert (x << 23) | ((x & 0xFFFFFFFF) >> 9) == x.RotateLeft(23); }
  }

  lemma Masked(x: bv32)
    ensures x & 0xFFFFFFFF == x
  {
  }

  /** One step of the macro: add, rotate by shifting both ways, add. */
  function P(a: bv32, b: bv32, f: bv32, x: bv32, s: nat, t: bv32): bv32
    requires s < 32
  {
    Add(ShiftBoth(Add(a, Add(Add(f, x), t)), s), b)
  }

  lemma PIs(a: bv32, b: bv32, f: bv32, x: bv32, s: nat, t: bv32)
    requires s < 32 && Amount(s)
    ensures P(a, b, f, x, s, t) == Mix(a, b, f, x, t, s)
  {
    hide ShiftBoth, Rotate, Amount, Add;
    var u := Add(a, Add(Add(f, x), t));
    RotateBySum(u, s);
  }

  lemma PIsMix()
    ensures forall a, b, f, x, s: nat, t :: s < 32 && Amount(s) ==> P(a, b, f, x, s, t) == Mix(a, b, f, x, t, s)
  {
    hide P, Mix, Amount;
    forall a, b, f, x, s: nat, t | s < 32 && Amount(s) ensures P(a, b, f, x, s, t) == Mix(a, b, f, x, t, s) {
      PIs(a, b, f, x, s, t);
    }
  }

  /** Selecting by bits, written without the complement. */
  lemma Choose(x: bv32, y: bv32, z: bv32)
    ensures z ^ (x & (y ^ z)) == (x & y) | (!x & z)
  {
  }

  lemma ChooseByLast(x: bv32, y: bv32, z: bv32)
    ensures y ^ (z & (x ^ y)) == (x & z) | (y & !z)
  {
  }

  function F1(x: bv32, y: bv32, z: bv32): (r: bv32)
    ensures r == F(x, y, z)
  {
    Choose(x, y, z);
    z ^ (x & (y ^ z))
  }

  function F2(x: bv32, y: bv32, z: bv32): (r: bv32)
    ensures r == G(x, y, z)
  {
    ChooseByLast(x, y, z);
    y ^ (z & (x ^ y))
  }

  function F3(x: bv32, y: bv32, z: bv32): (r: bv32)
    ensures r == H(x, y, z)
  {
    x ^ y ^ z
  }

  function F4(x: bv32, y: bv32, z: bv32): (r: bv32)
    ensures r == I(x, y, z)
  {
    y ^ (x | !z)
  }

  method Round1(r: Regs, X: seq<bv32>, ghost r0: Regs) returns (q: Regs)
    requires |X| == 16 && r == Steps(r0, X, 0)
    ensures q == Steps(r0, X, 16)
  {
    hide Steps, Mix, F, G, H, I, P, F1, Table2, Table3, Table4;
    PIsMix();
    var A, B, C, D := r.a, r.b, r.c, r.d;
    A := P(A, B, F1(B, C, D), X[0], 7, 0xD76AA478);
    D := P(D, A, F1(A, B, C), X[1], 12, 0xE8C7B756);
    C := P(C, D, F1(D, A, B), X[2], 17, 0x242070DB);
    B := P(B, C, F1(C, D, A), X[3], 22, 0xC1BDCEEE);
    StepsFour(r0, X, 0);
    assert Regs(A, B, C, D) == Steps(r0, X, 4);
    A := P(A, B, F1(B, C, D), X[4], 7, 0xF57C0FAF);
    D := P(D, A, F1(A, B, C), X[5], 12, 0x4787C62A);
    C := P(C, D, F1(D, A, B), X[6], 17, 0xA8304613);
    B := P(B, C, F1(C, D, A), X[7], 22, 0xFD469501);
    StepsFour(r0, X, 4);
    assert Regs(A, B, C, D) == Steps(r0, X, 8);
    A := P(A, B, F1(B, C, D), X[8], 7, 0x698098D8);
    D := P(D, A, F1(A, B, C), X[9], 12, 0x8B44F7AF);
    C := P(C, D, F1(D, A, B), X[10], 17, 0xFFFF5BB1);
    B := P(B, C, F1(C, D, A), X[11], 22, 0x895CD7BE);
    StepsFour(r0, X, 8);
    assert Regs(A, B, C, D) == Steps(r0, X, 12);
    A := P(A, B, F1(B, C, D), X[12], 7, 0x6B901122);
    D := P(D, A, F1(A, B, C), X[13], 12, 0xFD987193);
    C := P(C, D, F1(D, A, B), X[14], 17, 0xA679438E);
    B := P(B, C, F1(C, D, A), X[15], 22, 0x49B40821);
    StepsFour(r0, X, 12);
    assert Regs(A, B, C, D) == Steps(r0, X, 16);
    q := Regs(A, B, C, D);
  }

  method Round2(r: Regs, X: seq<bv32>, ghost r0: Regs) returns (q: Regs)
    requires |X| == 16 && r == Steps(r0, X, 16)
    ensures q == Steps(r0, X, 32)
  {
    hide Steps, Mix, F, G, H, I, P, F2, Table1, Table3, Table4;
    PIsMix();
    var A, B, C, D := r.a, r.b, r.c, r.d;
    A := P(A, B, F2(B, C, D), X[1], 5, 0xF61E2562);
    D := P(D, A, F2(A, B, C), X[6], 9, 0xC040B340);
    C := P(C, D, F2(D, A, B), X[11], 14, 0x265E5A51);
    B := P(B, C, F2(C, D, A), X[0], 20, 0xE9B6C7AA);
    StepsFour(r0, X, 16);
    assert Regs(A, B, C, D) == Steps(r0, X, 20);
    A := P(A, B, F2(B, C, D), X[5], 5, 0xD62F105D);
    D := P(D, A, F2(A, B, C), X[10], 9, 0x02441453);
    C := P(C, D, F2(D, A, B), X[15], 14, 0xD8A1E681);
    B := P(B, C, F2(C, D, A), X[4], 20, 0xE7D3FBC8);
    StepsFour(r0, X, 20);
    assert Regs(A, B, C, D) == Steps(r0, X, 24);
    A := P(A, B, F2(B, C, D), X[9], 5, 0x21E1CDE6);
    D := P(D, A, F2(A, B, C), X[14], 9, 0xC33707D6);
    C := P(C, D, F2(D, A, B), X[3], 14, 0xF4D50D87);
    B := P(B, C, F2(C, D, A), X[8], 20, 0x455A14ED);
    StepsFour(r0, X, 24);
    assert Regs(A, B, C, D) == Steps(r0, X, 28);
    A := P(A, B, F2(B, C, D), X[13], 5, 0xA9E3E905);
    D := P(D, A, F2(A, B, C), X[2], 9, 0xFCEFA3F8);
    C := P(C, D, F2(D, A, B), X[7], 14, 0x676F02D9);
    B := P(B, C, F2(C, D, A), X[12], 20, 0x8D2A4C8A);
    StepsFour(r0, X, 28);
    assert Regs(A, B, C, D) == Steps(r0, X, 32);
    q := Regs(A, B, C, D);
  }

  method Round3(r: Regs, X: seq<bv32>, ghost r0: Regs) returns (q: Regs)
    requires |X| == 16 && r == Steps(r0, X, 32)
    ensures q == Steps(r0, X, 48)
  {
    hide Steps, Mix, F, G, H, I, P, F3, Table1, Table2, Table4;
    PIsMix();
    var A, B, C, D := r.a, r.b, r.c, r.d;
    A := P(A, B, F3(B, C, D), X[5], 4, 0xFFFA3942);
    D := P(D, A, F3(A, B, C), X[8], 11, 0x8771F681);
    C := P(C, D, F3(D, A, B), X[11], 16, 0x6D9D6122);
    B := P(B, C, F3(C, D, A), X[14], 23, 0xFDE5380C);
    StepsFour(r0, X, 32);
    assert Regs(A, B, C, D) == Steps(r0, X, 36);
    A := P(A, B, F3(B, C, D), X[1], 4, 0xA4BEEA44);
    D := P(D, A, F3(A, B, C), X[4], 11, 0x4BDECFA9);
    C := P(C, D, F3(D, A, B), X[7], 16, 0xF6BB4B60);
    B := P(B, C, F3(C, D, A), X[10], 23, 0xBEBFBC70);
    StepsFour(r0, X, 36);
    assert Regs(A, B, C, D) == Steps(r0, X, 40);
    A := P(A, B, F3(B, C, D), X[13], 4, 0x289B7EC6);
    D := P(D, A, F3(A, B, C), X[0], 11, 0xEAA127FA);
    C := P(C, D, F3(D, A, B), X[3], 16, 0xD4EF3085);
    B := P(B, C, F3(C, D, A), X[6], 23, 0x04881D05);
    StepsFour(r0, X, 40);
    assert Regs(A, B, C, D) == Steps(r0, X, 44);
    A := P(A, B, F3(B, C, D), X[9], 4, 0xD9D4D039);
    D := P(D, A, F3(A, B, C), X[12], 11, 0xE6DB99E5);
    C := P(C, D, F3(D, A, B), X[15], 16, 0x1FA27CF8);
    B := P(B, C, F3(C, D, A), X[2], 23, 0xC4AC5665);
    StepsFour(r0, X, 44);
    assert Regs(A, B, C, D) == Steps(r0, X, 48);
    q := Regs(A, B, C, D);
  }

  method Round4(r: Regs, X: seq<bv32>, ghost r0: Regs) returns (q: Regs)
    requires |X| == 16 && r == Steps(r0, X, 48)
    ensures q == Steps(r0, X, 64)
  {
    hide Steps, Mix, F, G, H, I, P, F4, Table1, Table2, Table3;
    PIsMix();
    var A, B, C, D := r.a, r.b, r.c, r.d;
    A := P(A, B, F4(B, C, D), X[0], 6, 0xF4292244);
    D := P(D, A, F4(A, B, C), X[7], 10, 0x432AFF97);
    C := P(C, D, F4(D, A, B), X[14], 15, 0xAB9423A7);
    B := P(B, C, F4(C, D, A), X[5], 21, 0xFC93A039);
    StepsFour(r0, X, 48);
    assert Regs(A, B, C, D) == Steps(r0, X, 52);
    A := P(A, B, F4(B, C, D), X[12], 6, 0x655B59C3);
    D := P(D, A, F4(A, B, C), X[3], 10, 0x8F0CCC92);
    C := P(C, D, F4(D, A, B), X[10], 15, 0xFFEFF47D);
    B := P(B, C, F4(C, D, A), X[1], 21, 0x85845DD1);
    StepsFour(r0, X, 52);
    assert Regs(A, B, C, D) == Steps(r0, X, 56);
    A := P(A, B, F4(B, C, D), X[8], 6, 0x6FA87E4F);
    D := P(D, A, F4(A, B, C), X[15], 10, 0xFE2CE6E0);
    C := P(C, D, F4(D, A, B), X[6], 15, 0xA3014314);
    B := P(B, C, F4(C, D, A), X[13], 21, 0x4E0811A1);
    StepsFour(r0, X, 56);
    assert Regs(A, B, C, D) == Steps(r0, X, 60);
    A := P(A, B, F4(B, C, D), X[4], 6, 0xF7537E82);
    D := P(D, A, F4(A, B, C), X[11], 10, 0xBD3AF235);
    C := P(C, D, F4(D, A, B), X[2], 15, 0x2AD7D2BB);
    B := P(B, C, F4(C, D, A), X[9], 21, 0xEB86D391);
    StepsFour(r0, X, 60);
    assert Regs(A, B, C, D) == Steps(r0, X, 64);
    q := Regs(A, B, C, D);
  }

  method Process(state: Regs, data: seq<byte>) returns (q: Regs)
    requires |data| == 64
    ensures q == Compress(state, data)
  {
    hide Steps, Words, Plus;
    var X := Words(data);
    assert state == Steps(state, X, 0) by { StepsZero(state, X); }
    var r := Round1(state, X, state);
    r := Round2(r, X, state);
    r := Round3(r, X, state);
    r := Round4(r, X, state);
    q := Plus(state, r);
  }

  lemma StepsZero(r: Regs, X: seq<bv32>)
    requires |X| == 16
    ensures Steps(r, X, 0) == r
  {
  }
}
