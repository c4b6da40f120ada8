/** The encoder of base64.c, writing into a byte array that may be too small. */
module Base64 {
  import opened Base64Rfc

  // ---------------------------------------------------------------- encoding

  /** Store a byte at `at` if there is room up to `limit`. */
  ghost predicate Written(out: seq<byte>, limit: nat, at: nat, text: seq<byte>) {
    && limit <= |out|
    && at == (if |text| < limit then |text| else limit)
    && out[..at] == text[..at]
  }

  method Put(out: array<byte>, limit: nat, at: nat, b: byte, ghost text: seq<byte>) returns (at': nat)
    requires limit <= out.Length && Written(out[..], limit, at, text)
    modifies out
    ensures Written(out[..], limit, at', text + [b])
    ensures at' == if at < limit then at + 1 else at
    ensures forall i :: 0 <= i < out.Length && i != at ==> out[i] == old(out[i])
    ensures at == limit ==> out[..] == old(out[..])
  {
    at' := at;
    if at < limit {
      out[at] := b;
      at' := at + 1;
      assert out[..at] == text[..at] == text;
    }
    assert (text + [b])[..at] == text[..at];
  }

  method PutGroup(out: array<byte>, limit: nat, at: nat, g: seq<byte>, ghost text: seq<byte>) returns (at': nat)
    requires |g| == 4 && limit <= out.Length && Written(out[..], limit, at, text)
    modifies out
    ensures Written(out[..], limit, at', text + g)
    ensures at <= at' <= limit && (at < limit ==> at < at')
    ensures forall i :: limit <= i < out.Length ==> out[i] == old(out[i])
  {
    hide Written;
    WrittenMeans(out[..], limit, at, text);
    at' := at;
    var k := 0;
    assert text + g[..0] == text;
    while k < 4
      invariant 0 <= k <= 4 && at <= at' <= limit && (k > 0 && at < limit ==> at < at')
      invariant Written(out[..], limit, at', text + g[..k])
      invariant forall i :: limit <= i < out.Length ==> out[i] == old(out[i])
    {
      assert text + g[..k] + [g[k]] == text + g[..k+1];
      at' := Put(out, limit, at', g[k], text + g[..k]);
      k := k + 1;
    }
    assert g[..4] == g;
  }

  // The four alphabet positions the encoder computes from a group.
  function Index0(a: byte): byte { (a >> 2) & 0x3F }
  function Index1(a: byte, b: byte): byte { ((a << 4) + (b >> 4)) & 0x3F }
  function Index2(b: byte, c: byte): byte { ((b << 2) + (c >> 6)) & 0x3F }
  function Index3(c: byte): byte { c & 0x3F }

  lemma IndexIsSextet(a: byte, b: byte, c: byte)
    ensures var g := Group(a, b, c);
            && Sextet(g, 0) == Index0(a) && Sextet(g, 1) == Index1(a, b)
            && Sextet(g, 2) == Index2(b, c) && Sextet(g, 3) == Index3(c)
  {
  }

  lemma IndexSmall(a: byte, b: byte, c: byte)
    ensures Index0(a) < 64 && Index1(a, b) < 64 && Index2(b, c) < 64 && Index3(c) < 64
  {
  }

  /** base64_encode: as much of the encoding as fits, and a terminating zero if there is room. */
  method EncodeInto(input: seq<byte>, out: array<byte>, outlen: nat)
    requires outlen <= out.Length
    modifies out
    ensures var n := |Encode(input)|;
            if n < outlen then out[..n] == Encode(input) && out[n] == 0 else out[..outlen] == Encode(input)[..outlen]
    ensures forall i :: outlen <= i < out.Length ==> out[i] == old(out[i])
  {
    hide Encode, EncodeGroup, Char, Written, Index0, Index1, Index2, Index3;
    var inlen, i, o := |input|, 0, 0;
    ghost var text := [];
    assert input[0..] == input;
    assert [] + Encode(input) == Encode(input);
    NothingWritten(out[..], outlen);
    while inlen > 0 && o < outlen
      invariant 0 <= i <= |input| && inlen == |input| - i && 0 <= o <= outlen
      invariant Written(out[..], outlen, o, text)
      invariant Encode(input) == text + Encode(input[i..])
      invariant forall j :: outlen <= j < out.Length ==> out[j] == old(out[j])
      decreases inlen
    {
      var a := input[i];
      var b := if inlen > 1 then input[i+1] else 0;
      var c := if inlen > 2 then input[i+2] else 0;
      IndexSmall(a, b, c);
      var c0 := Char(Index0(a));
      var c1 := Char(Index1(a, b));
      var c2 := if inlen > 1 then Char(Index2(b, c)) else PAD;
      var c3 := if inlen > 2 then Char(Index3(c)) else PAD;
      var used := if inlen > 3 then 3 else inlen;
      EncodeStep(input, i);
      Assoc(text, [c0, c1, c2, c3], Encode(input[i+used..]));
      o := PutGroup(out, outlen, o, [c0, c1, c2, c3], text);
      text := text + [c0, c1, c2, c3];
      inlen := inlen - used;
      i := i + used;
    }
    EncodeNothing(input[i..]);
    WrittenMeans(out[..], outlen, o, text);
    assert inlen == 0 ==> text + [] == text;
    assert o == outlen ==> out[..outlen] == Encode(input)[..outlen];
    if o < outlen { out[o] := 0; }
  }

  lemma Assoc(a: seq<byte>, b: seq<byte>, c: seq<byte>)
    ensures a + (b + c) == (a + b) + c
  {
  }

  lemma NothingWritten(out: seq<byte>, limit: nat)
    requires limit <= |out|
    ensures Written(out, limit, 0, [])
  {
  }

  lemma WrittenMeans(out: seq<byte>, limit: nat, at: nat, text: seq<byte>)
    requires Written(out, limit, at, text)
    ensures limit <= |out| && at <= |text| && out[..at] == text[..at]
    ensures at == if |text| < limit then |text| else limit
  {
  }

  lemma EncodeNothing(m: seq<byte>)
    ensures m == [] ==> Encode(m) == []
  {
  }

  lemma EncodeStep(m: seq<byte>, i: nat)
    requires i < |m|
    ensures var n := |m| - i;
            var a, b, c := m[i], if n > 1 then m[i+1] else 0, if n > 2 then m[i+2] else 0;
            && Index0(a) < 64 && Index1(a, b) < 64 && Index2(b, c) < 64 && Index3(c) < 64
            && Encode(m[i..]) == [Char(Index0(a)), Char(Index1(a, b)),
                 if n > 1 then Char(Index2(b, c)) else PAD, if n > 2 then Char(Index3(c)) else PAD]
               + Encode(m[i + (if n > 3 then 3 else n)..])
  {
    hide Char, Group, Sextet, Index0, Index1, Index2, Index3;
    var n, r := |m| - i, m[i..];
    var a, b, c := m[i], if n > 1 then m[i+1] else 0, if n > 2 then m[i+2] else 0;
    IndexSmall(a, b, c);
    IndexIsSextet(a, b, c);
    assert |r| > 1 ==> r[1] == m[i+1];
    assert |r| > 2 ==> r[2] == m[i+2];
    assert EncodeGroup(r) == [Char(Index0(a)), Char(Index1(a, b)),
                 if n > 1 then Char(Index2(b, c)) else PAD, if n > 2 then Char(Index3(c)) else PAD];
    assert (if n > 3 then r[3..] else []) == m[i + (if n > 3 then 3 else n)..];
  }
}
