/** What escapes in a string literal stand for: RFC 8259, section 7; \u escapes are UTF-16 in, UTF-8
    (RFC 3629, section 3) out. */
module JsonUnicode {
  import opened JsonText
  import opened JsonRoundTrip

  /** A backslash in front of b, f, n, r or t stands for the control character 8, 12, 10, 13 or 9, and is dropped in
      front of any other character but u: a quote, a backslash and a slash stand for themselves. */
  lemma ShortEscapes(e: char, t: string)
    requires Fits(t) && e != 'u'
    ensures var meant := if e == 'b' then 8 else if e == 'f' then 12 else if e == 'n' then 10
                         else if e == 'r' then 13 else if e == 't' then 9 else e as int;
            Fits(['\\', e] + t) && Body(['\\', e] + t) == ([meant as char] + Body(t).0, Body(t).1)
  {
    hide Fits, Body;
    ShortStep(e, t);
  }

  /** A slash may be escaped or not. */
  lemma Slashes(t: string)
    requires Fits(t)
    ensures Fits("\\/" + t) && Fits("/" + t)
    ensures Body("\\/" + t) == Body("/" + t) == ("/" + Body(t).0, Body(t).1)
  {
    hide Fits, Body;
    ShortEscapes('/', t);
    PlainCharacters('/', t);
  }

  lemma PlainCharacters(c: char, t: string)
    requires Fits(t) && c != '\"' && c != '\\'
    ensures Fits([c] + t) && Body([c] + t) == ([c] + Body(t).0, Body(t).1)
  {
    hide Fits, Body;
    PlainStep(c, t);
  }

  /** A literal ends at the first quote it meets, or with the text. */
  lemma LiteralEnds(rest: string)
    ensures Fits("\"" + rest) && Body("\"" + rest) == ("", rest) && Fits("") && Body("") == ("", "")
    ensures Count("") == Count("\"" + rest) == 0
  {
    assert ("\"" + rest)[1..] == rest;
  }

  function Follow(s: string, k: nat): nat
    requires k < |s| && s[k] as int >= 0x80
  {
    s[k] as int - 0x80
  }

  /** The reader's side of UTF-8: the code point and its length, which the first byte tells. */
  function DecodeUtf8(s: string): (p: (nat, nat))
    requires s != [] && forall i :: 0 < i < |s| && i < 4 ==> s[i] as int >= 0x80
  {
    var b := s[0] as int;
    if b < 0x80 then (b, 1)
    else if 0xC0 <= b < 0xE0 && |s| >= 2 then ((b - 0xC0) * 64 + Follow(s, 1), 2)
    else if 0xE0 <= b < 0xF0 && |s| >= 3 then ((b - 0xE0) * 4096 + Follow(s, 1) * 64 + Follow(s, 2), 3)
    else if 0xF0 <= b && |s| >= 4 then ((b - 0xF0) * 262144 + Follow(s, 1) * 4096 + Follow(s, 2) * 64 + Follow(s, 3), 4)
    else (0, 0)
  }

  lemma Utf8RoundTrip(u: nat)
    requires u < 0x110000
    ensures forall i :: 0 < i < |Utf8(u)| ==> 0x80 <= Utf8(u)[i] as int < 0xC0
    ensures DecodeUtf8(Utf8(u)) == (u, |Utf8(u)|)
  {
    SixBitDigits(u);
    var s := Utf8(u);
    if u >= 0x80 { assert Follow(s, 1) == s[1] as int - 0x80; }
    if u >= 0x800 { assert Follow(s, 2) == s[2] as int - 0x80; }
    if u >= 0x10000 { assert Follow(s, 3) == s[3] as int - 0x80; }
  }

  lemma SixBitDigits(u: nat)
    ensures u == u / 64 * 64 + u % 64
    ensures u == u / 4096 * 4096 + u / 64 % 64 * 64 + u % 64
    ensures u == u / 262144 * 262144 + u / 4096 % 64 * 4096 + u / 64 % 64 * 64 + u % 64
  {
    var a := u / 64;
    var b := a / 64;
    assert u == a * 64 + u % 64;
    assert a == b * 64 + a % 64;
    assert b == u / 4096;
    assert b == b / 64 * 64 + b % 64;
    assert b / 64 == u / 262144;
  }

  function UpperHex(d: nat): char
    requires d < 16
  {
    if d < 10 then '0' + d as char else 'A' + (d - 10) as char
  }

  /** One 16-bit unit as an escape; the case of the digits does not matter. */
  function Unit(u: nat, upper: bool): string
    requires u < 0x10000
  {
    var d := (k: nat) requires k < 16 => if upper then UpperHex(k) else HexDigit(k);
    ['\\', 'u', d(u / 4096), d(u / 256 % 16), d(u / 16 % 16), d(u % 16)]
  }

  function Utf16(u: nat, upper: bool): string
    requires u < 0x110000
  {
    if u < 0x10000 then Unit(u, upper)
    else Unit(0xD800 + (u - 0x10000) / 1024, upper) + Unit(0xDC00 + (u - 0x10000) % 1024, upper)
  }

  lemma UnitReads(u: nat, upper: bool)
    requires u < 0x10000
    ensures var s := Unit(u, upper);
            |s| == 6 && Hex4(s[2..6]) == u && '\"' !in s[2..6] && '\\' !in s[2..6] && s[0] == '\\' && s[1] == 'u'
  {
    UnitValues(u, upper);
    var s := Unit(u, upper);
    assert forall k :: 0 <= k < 4 ==> s[2..6][k] == s[k + 2];
    FourDigits(u);
  }

  lemma FourDigits(u: nat)
    requires u < 0x10000
    ensures u / 4096 * 4096 + u / 256 % 16 * 256 + u / 16 % 16 * 16 + u % 16 == u
  {
    var a := u / 16;
    var b := a / 16;
    assert u == a * 16 + u % 16;
    assert a == b * 16 + a % 16;
    assert b == u / 256;
    assert b == b / 16 * 16 + b % 16;
    assert b / 16 == u / 4096;
  }

  lemma UnitValues(u: nat, upper: bool)
    requires u < 0x10000
    ensures var s := Unit(u, upper);
            && HexValue(s[2]) == u / 4096 && HexValue(s[3]) == u / 256 % 16
            && HexValue(s[4]) == u / 16 % 16 && HexValue(s[5]) == u % 16
            && forall k :: 2 <= k < 6 ==> s[k] != '\"' && s[k] != '\\'
  {
    DigitValue(u / 4096);
    DigitValue(u / 256 % 16);
    DigitValue(u / 16 % 16);
    DigitValue(u % 16);
  }

  lemma DigitValue(d: nat)
    requires d < 16
    ensures HexValue(HexDigit(d)) == d && HexDigit(d) != '\"' && HexDigit(d) != '\\'
    ensures HexValue(UpperHex(d)) == d && UpperHex(d) != '\"' && UpperHex(d) != '\\'
  {
  }

  /** Every code point other than zero, escaped in one or two units, is read as its UTF-8 bytes. */
  lemma EscapeReads(u: nat, upper: bool, t: string)
    requires 0 < u < 0x110000 && !IsHigh(u) && !IsLow(u) && Fits(t)
    ensures Fits(Utf16(u, upper) + t)
    ensures Body(Utf16(u, upper) + t) == (Utf8(u) + Body(t).0, Body(t).1)
  {
    hide Unit, Hex4, Utf8, Filled, Counted, Body;
    if u < 0x10000 {
      UnitText(u, upper, t);
      UnicodeReads(Unit(u, upper)[2..6], t);
    } else {
      PairReads(0xD800 + (u - 0x10000) / 1024, 0xDC00 + (u - 0x10000) % 1024, upper, t);
    }
  }

  lemma UnitText(u: nat, upper: bool, t: string)
    requires u < 0x10000
    ensures |Unit(u, upper)| == 6 && Unit(u, upper) + t == ['\\', 'u'] + Unit(u, upper)[2..6] + t
    ensures var h := Unit(u, upper)[2..6]; Hex4(h) == u && '\"' !in h && '\\' !in h
  {
    UnitReads(u, upper);
    assert Unit(u, upper) == ['\\', 'u'] + Unit(u, upper)[2..6];
  }

  lemma PairReads(high: nat, low: nat, upper: bool, t: string)
    requires IsHigh(high) && IsLow(low) && Fits(t)
    ensures var r := Unit(high, upper) + Unit(low, upper) + t;
            Fits(r) && Body(r) == (Utf8(0x10000 + high % 1024 * 1024 + low % 1024) + Body(t).0, Body(t).1)
  {
    hide Unit, Hex4, Utf8, Counted, Filled, Body;
    var r, second := Unit(high, upper) + Unit(low, upper) + t, Unit(low, upper) + t;
    UnitText(high, upper, second);
    UnitText(low, upper, t);
    assert r == Unit(high, upper) + second;
    CountUnicode(Unit(high, upper)[2..6], second);
    CountUnicode(Unit(low, upper)[2..6], t);
    assert r[2..6] == Unit(high, upper)[2..6] && r[8..12] == Unit(low, upper)[2..6] && r[12..] == t;
    assert r[6] == second[0] && r[7] == second[1];
    assert Stride(r) == 12;
    OneStep(r);
  }

  /** A unit that is no character, or half a pair, is dropped. */
  lemma LoneUnitIsDropped(u: nat, upper: bool, t: string)
    requires u < 0x10000 && Fits(t)
    requires u == 0 || IsLow(u) || (IsHigh(u) && !(|t| >= 2 && t[0] == '\\' && t[1] == 'u'))
    ensures Fits(Unit(u, upper) + t) && Body(Unit(u, upper) + t) == Body(t)
  {
    hide Unit, Hex4, Utf8, Body, Fits;
    UnitText(u, upper, t);
    UnicodeReads(Unit(u, upper)[2..6], t);
    assert [] + Body(t).0 == Body(t).0;
  }
}
