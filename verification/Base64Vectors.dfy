/** Base64 in figures: the alphabet and test vectors of RFC 4648, what any four characters decode to, and which texts the
    decoders accept. */
module Base64Vectors {
  import opened Base64Rfc
  import opened Base64Decoder

  /** The digits in their order: table 1 of section 4. */
  lemma Alphabet()
    ensures EncodeGroup([0, 16, 131]) == [65, 66, 67, 68]  // ABCD
    ensures EncodeGroup([16, 81, 135]) == [69, 70, 71, 72]  // EFGH
    ensures EncodeGroup([32, 146, 139]) == [73, 74, 75, 76]  // IJKL
    ensures EncodeGroup([48, 211, 143]) == [77, 78, 79, 80]  // MNOP
    ensures EncodeGroup([65, 20, 147]) == [81, 82, 83, 84]  // QRST
    ensures EncodeGroup([81, 85, 151]) == [85, 86, 87, 88]  // UVWX
    ensures EncodeGroup([97, 150, 155]) == [89, 90, 97, 98]  // YZab
    ensures EncodeGroup([113, 215, 159]) == [99, 100, 101, 102]  // cdef
    ensures EncodeGroup([130, 24, 163]) == [103, 104, 105, 106]  // ghij
    ensures EncodeGroup([146, 89, 167]) == [107, 108, 109, 110]  // klmn
    ensures EncodeGroup([162, 154, 171]) == [111, 112, 113, 114]  // opqr
    ensures EncodeGroup([178, 219, 175]) == [115, 116, 117, 118]  // stuv
    ensures EncodeGroup([195, 28, 179]) == [119, 120, 121, 122]  // wxyz
    ensures EncodeGroup([211, 93, 183]) == [48, 49, 50, 51]  // 0123
    ensures EncodeGroup([227, 158, 187]) == [52, 53, 54, 55]  // 4567
    ensures EncodeGroup([243, 223, 191]) == [56, 57, 43, 47]  // 89+/
  {
  }

  lemma {:induction false} EncodeSplit(x: seq<byte>, y: seq<byte>)
    requires |x| == 3
    ensures Encode(x + y) == EncodeGroup(x) + Encode(y)
  {
    hide EncodeGroup;
    assert (x + y)[3..] == y;
    FirstThree(x, y);
  }

  lemma FirstThree(x: seq<byte>, y: seq<byte>)
    requires |x| == 3
    ensures EncodeGroup(x + y) == EncodeGroup(x)
  {
  }

  /** The encodings of "", "f", "fo", "foo" and "foobar": section 10. */
  lemma FooBar()
    ensures Encode([]) == [] && Encode([102]) == [90, 103, 61, 61] && Encode([102, 111]) == [90, 109, 56, 61]
    ensures Encode([102, 111, 111]) == [90, 109, 57, 118]
    ensures Encode([102, 111, 111, 98, 97, 114]) == [90, 109, 57, 118, 89, 109, 70, 121]
  {
    EncodeSplit([102, 111, 111], [98, 97, 114]);
    assert [102, 111, 111] + [98, 97, 114] == [102 as byte, 111, 111, 98, 97, 114];
  }

  lemma DigitOf(c: byte)
    ensures IsBase64(c) ==> B64(c) < 64 && Char(B64(c)) == c
    ensures forall v: byte :: v < 64 && Char(v) == c ==> IsBase64(c) && B64(c) == v
  {
  }

  /** Four digits as three bytes, in sums and quotients. */
  lemma Sums(a: byte, b: byte, c: byte, d: byte)
    requires a < 64 && b < 64 && c < 64 && d < 64
    ensures First(a, b) == a * 4 + b / 16 && Second(b, c) == b % 16 * 16 + c / 4 && Third(c, d) == c % 4 * 64 + d
  {
  }

  /** When characters decode, and how many bytes they yield if they do not. */
  lemma Decodes(s: seq<byte>)
    ensures Decode4(s).ok <==>
            && |s| >= 4 && IsBase64(s[0]) && IsBase64(s[1])
            && (|| (IsBase64(s[2]) && IsBase64(s[3]))
                || (IsBase64(s[2]) && |s| == 4 && s[3] == 61)
                || (|s| == 4 && s[2] == 61 && s[3] == 61))
    ensures |Decode4(s).out| ==
            if |s| < 2 || !IsBase64(s[0]) || !IsBase64(s[1]) then 0
            else if |s| == 2 || !IsBase64(s[2]) then 1
            else if |s| == 3 || !IsBase64(s[3]) then 2
            else 3
  {
    hide First, Second, Third, B64;
    assert !IsBase64(61);
  }

  /** To what: the digits as one number, the bytes its highest places first. */
  lemma DecodesTo(s: seq<byte>)
    ensures var d := Decode4(s).out;
            && (|d| > 0 ==> |s| > 1 && IsBase64(s[0]) && IsBase64(s[1]) && d[0] == B64(s[0]) * 4 + B64(s[1]) / 16)
            && (|d| > 1 ==> |s| > 2 && IsBase64(s[2]) && d[1] == B64(s[1]) % 16 * 16 + B64(s[2]) / 4)
            && (|d| > 2 ==> |s| > 3 && IsBase64(s[3]) && d[2] == B64(s[2]) % 4 * 64 + B64(s[3]))
  {
    hide First, Second, Third, B64, Decode4;
    Decodes(s);
    Pieces(s);
    var v := (i: nat) => if i < |s| && IsBase64(s[i]) then B64(s[i]) else 0;
    forall c: byte | IsBase64(c) ensures B64(c) < 64 { DigitOf(c); }
    Sums(v(0), v(1), v(2), v(3));
  }

  lemma Pieces(s: seq<byte>)
    ensures var d := Decode4(s).out;
            && (|d| > 0 ==> |s| > 1 && IsBase64(s[0]) && IsBase64(s[1]) && d[0] == First(B64(s[0]), B64(s[1])))
            && (|d| > 1 ==> |s| > 2 && IsBase64(s[2]) && d[1] == Second(B64(s[1]), B64(s[2])))
            && (|d| > 2 ==> |s| > 3 && IsBase64(s[3]) && d[2] == Third(B64(s[2]), B64(s[3])))
  {
    hide First, Second, Third, B64;
    assert !IsBase64(61);
  }

  // ---------------------------------------------------------------- whole texts

  /** Without a context exactly the groups of four digits are accepted, the last of which may end in one or two `=`. */
  lemma {:induction false} PlainAcceptsIff(s: seq<byte>)
    ensures Plain(s).ok <==>
            && |s| % 4 == 0
            && forall i :: 0 <= i < |s| ==>
                 IsBase64(s[i]) || (s[i] == 61 && (i == |s| - 1 || (i == |s| - 2 && s[|s|-1] == 61)))
  {
    hide Decode4;
    Decodes(s);
    assert !IsBase64(61);
    if |s| >= 4 {
      var t := s[4..];
      PlainAcceptsIff(t);
      forall i | 4 <= i < |s| ensures s[i] == t[i-4] { }
      assert Decode4(s).ok && |t| > 0 ==> forall i :: 0 <= i < 4 ==> IsBase64(s[i]);
    }
  }

  /** If the first `k` groups are good, the next characters give the next bytes; if those are bad they give the last. */
  lemma {:induction false} PlainGives(s: seq<byte>, k: nat)
    requires 4 * k < |s| && forall i :: 0 <= i < k ==> Decode4(s[4*i..]).ok
    ensures var d, t := Decode4(s[4*k..]), Plain(s).out;
            && 3 * k + |d.out| <= |t| && t[3*k..3*k+|d.out|] == d.out
            && (!d.ok || 4 * k + 4 == |s| ==> |t| == 3 * k + |d.out|)
  {
    hide Decode4;
    assert s[0..] == s;
    Decodes(s);
    if k == 0 {
      if |s| == 4 { assert s[4..] == []; Decodes([]); }
    } else {
      var t := s[4..];
      assert Decode4(s[4*0..]).ok;
      forall i | 0 <= i < k ensures t[4*i..] == s[4*(i+1)..] { }
      PlainGives(t, k - 1);
      var d := Decode4(s).out;
      assert |d| == 3 && t[4*(k-1)..] == s[4*k..];
      assert (d + Plain(t).out)[3*k..] == Plain(t).out[3*(k-1)..];
    }
  }

  /** With a context line feeds count for nothing. */
  lemma LineFeeds(c: byte)
    ensures NoNewlines([c]) == if c == 10 then [] else [c]
  {
  }

  /** An empty piece ends the text: it is bad if characters are kept, though they may still give bytes. */
  lemma Ends(pending: seq<byte>)
    requires |pending| < 4
    ensures Call(pending, []).ok <==> pending == []
    ensures Call(pending, []).out == Decode4(pending).out
  {
  }

  /** The older decoder: three bytes a group, whatever is no digit counts as 0 and cuts the group short. */
  lemma ValueIs(c: byte)
    requires c != 0
    ensures Value(c) == (if IsBase64(c) then B64(c) else 0) && Value(c) < 64
  {
  }

  lemma TrioIs(q: seq<byte>)
    requires |q| == 4 && 0 !in q
    ensures var a, b, c, d := Value(q[0]), Value(q[1]), Value(q[2]), Value(q[3]);
            Trio(q) == [a * 4 + b / 16, b % 16 * 16 + c / 4, c % 4 * 64 + d]
    ensures GroupLength(q) >= 2 <==> IsBase64(q[1]) && IsBase64(q[2])
    ensures GroupLength(q) == 3 <==> IsBase64(q[1]) && IsBase64(q[2]) && IsBase64(q[3])
  {
    hide First, Second, Third, Value, IsBase64;
    ValueIs(q[0]);
    ValueIs(q[1]);
    ValueIs(q[2]);
    ValueIs(q[3]);
    Sums(Value(q[0]), Value(q[1]), Value(q[2]), Value(q[3]));
    Unmasked(Value(q[0]), Value(q[1]), Value(q[2]), Value(q[3]));
  }

  lemma Unmasked(a: byte, b: byte, c: byte, d: byte)
    requires a < 64 && b < 64 && c < 64 && d < 64
    ensures First(a, b) == (a << 2) | (b >> 4) && Second(b, c) == (b << 4) | (c >> 2) && Third(c, d) == (c << 6) | d
  {
  }

  /** It skips line feeds and carriage returns between groups. */
  lemma BreaksAre(s: seq<byte>)
    requires s != []
    ensures AfterBreaks(s) == if s[0] == 10 || s[0] == 13 then AfterBreaks(s[1..]) else s
  {
  }
}
