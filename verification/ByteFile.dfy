/** A file of bytes, and integers in it, least significant byte first. */
module ByteFile {
  type byte = x: int | 0 <= x < 256

  function Pow256(w: nat): nat { if w == 0 then 1 else 256 * Pow256(w - 1) }

  function Bytes(v: nat, w: nat): (s: seq<byte>)
    ensures |s| == w
  {
    if w == 0 then [] else [(v % 256) as byte] + Bytes(v / 256, w - 1)
  }

  function Value(s: seq<byte>): nat {
    if s == [] then 0 else s[0] + 256 * Value(s[1..])
  }

  lemma {:induction false} ValueOfBytes(v: nat, w: nat)
    requires v < Pow256(w)
    ensures Value(Bytes(v, w)) == v
  {
    if w > 0 { ValueOfBytes(v / 256, w - 1); }
  }

  /** The lowest byte comes first. */
  lemma FourBytes(v: nat)
    ensures Bytes(v, 4) == [v % 256, v / 0x100 % 256, v / 0x1_0000 % 256, v / 0x100_0000 % 256]
  {
    var a, b, c := v / 256, v / 256 / 256, v / 256 / 256 / 256;
    assert Bytes(c, 1) == [c % 256] + Bytes(c / 256, 0);
    assert Bytes(b, 2) == [b % 256] + Bytes(c, 1);
    assert Bytes(a, 3) == [a % 256] + Bytes(b, 2);
    assert Bytes(v, 4) == [v % 256] + Bytes(a, 3);
  }

  lemma EightBytes(v: nat)
    ensures Bytes(v, 8) == Bytes(v, 4) + Bytes(v / 0x1_0000_0000, 4)
  {
    hide Bytes;
    var x := v / 256;
    var y := x / 256;
    var z := y / 256;
    BytesSplit(v, 8);
    BytesSplit(x, 7);
    BytesSplit(y, 6);
    BytesSplit(z, 5);
    FourBytes(v);
    Quarters(v);
    InARow((v % 256) as byte, (x % 256) as byte, (y % 256) as byte, (z % 256) as byte, Bytes(z / 256, 4));
  }

  lemma Quarters(v: nat)
    ensures v / 256 / 256 == v / 0x1_0000 && v / 256 / 256 / 256 == v / 0x100_0000
    ensures v / 256 / 256 / 256 / 256 == v / 0x1_0000_0000
  {
  }

  lemma InARow(a: byte, b: byte, c: byte, d: byte, t: seq<byte>)
    ensures [a] + ([b] + ([c] + ([d] + t))) == [a, b, c, d] + t
  {
  }

  lemma BytesSplit(v: nat, w: nat)
    requires w > 0
    ensures Bytes(v, w) == [v % 256] + Bytes(v / 256, w - 1)
  {
  }

  /** `bytes` stand at `at`. */
  ghost predicate At(data: seq<byte>, at: nat, bytes: seq<byte>) {
    at + |bytes| <= |data| && data[at..at+|bytes|] == bytes
  }

  function Zeros(n: nat): (s: seq<byte>)
    ensures |s| == n
  {
    seq(n, i => 0)
  }

  /** Writing past the end fills the gap with zeros. */
  function Splice(data: seq<byte>, at: nat, bytes: seq<byte>): (r: seq<byte>)
    ensures |r| == if at + |bytes| > |data| then at + |bytes| else |data|
    ensures bytes == [] ==> at <= |data| ==> r == data
  {
    var d := if |data| < at then data + Zeros(at - |data|) else data;
    d[..at] + bytes + (if at + |bytes| < |d| then d[at+|bytes|..] else [])
  }

  lemma SpliceWrites(data: seq<byte>, at: nat, bytes: seq<byte>)
    ensures At(Splice(data, at, bytes), at, bytes)
    ensures forall i :: |data| <= i < at ==> Splice(data, at, bytes)[i] == 0
  {
  }

  /** What lies wholly before or wholly behind a write stays. */
  lemma SpliceKeeps(data: seq<byte>, at: nat, bytes: seq<byte>, k: nat, other: seq<byte>)
    requires At(data, k, other) && (k + |other| <= at || at + |bytes| <= k)
    ensures At(Splice(data, at, bytes), k, other)
  {
    var r := Splice(data, at, bytes);
    assert forall i :: k <= i < k + |other| ==> r[i] == data[i];
    assert r[k..k+|other|] == data[k..k+|other|];
  }

  lemma AtJoin(data: seq<byte>, k: nat, a: seq<byte>, b: seq<byte>)
    ensures At(data, k, a + b) <==> At(data, k, a) && At(data, k + |a|, b)
  {
    if At(data, k, a + b) {
      assert data[k..k+|a|] == data[k..k+|a+b|][..|a|] && (a + b)[..|a|] == a;
      assert data[k+|a|..k+|a|+|b|] == data[k..k+|a+b|][|a|..] && (a + b)[|a|..] == b;
    }
    if At(data, k, a) && At(data, k + |a|, b) {
      assert data[k..k+|a+b|] == data[k..k+|a|] + data[k+|a|..k+|a|+|b|];
    }
  }

  lemma ReadsBack(data: seq<byte>, at: nat, x: nat, w: nat)
    requires x < Pow256(w) && At(data, at, Bytes(x, w))
    ensures at + w <= |data| && Value(data[at..at+w]) == x
  {
    ValueOfBytes(x, w);
  }

  /** An open file and its position. */
  class File {
    var data: seq<byte>
    var pos: nat

    constructor ()
      ensures data == [] && pos == 0
    {
      data, pos := [], 0;
    }

    method Seek(p: nat)
      modifies this
      ensures pos == p && data == old(data)
    {
      pos := p;
    }

    /** What is there is read; nothing is said about a read past the end. */
    method Read(n: nat) returns (b: seq<byte>)
      modifies this
      ensures data == old(data) && |b| == n
      ensures old(pos) + n <= |data| ==> b == data[old(pos)..old(pos)+n] && pos == old(pos) + n
    {
      if pos + n <= |data| {
        b := data[pos..pos+n];
        pos := pos + n;
      } else {
        b := Zeros(n);
      }
    }

    method Write(b: seq<byte>)
      modifies this
      ensures data == Splice(old(data), old(pos), b) && pos == old(pos) + |b|
    {
      data := Splice(data, pos, b);
      pos := pos + |b|;
    }

    method ReadInt(w: nat) returns (v: nat)
      modifies this
      ensures data == old(data)
      ensures old(pos) + w <= |data| ==> v == Value(data[old(pos)..old(pos)+w]) && pos == old(pos) + w
    {
      var b := Read(w);
      v := Value(b);
    }

    method WriteInt(w: nat, v: nat)
      modifies this
      ensures data == Splice(old(data), old(pos), Bytes(v, w)) && pos == old(pos) + w
    {
      Write(Bytes(v, w));
    }
  }
}
