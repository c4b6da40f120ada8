/** What the printer writes, letter by letter: escapes, numbers at the borders of their formats, a tree with and without
    its layout, and characters outside ASCII. */
module JsonVectors {
  import opened JsonNumber
  import opened JsonText
  import opened JsonRoundTrip
  import opened JsonUnicode

  /** Control characters are escaped, in two letters where there is such an escape. */
  lemma ControlCharacters(c: nat)
    requires c < 32
    ensures Escaped(c as char) ==
            if c == 8 then "\\b" else if c == 9 then "\\t" else if c == 10 then "\\n" else if c == 12 then "\\f"
            else if c == 13 then "\\r" else "\\u00" + ["01"[c / 16], "0123456789abcdef"[c % 16]]
  {
    Hexadecimal(c / 16);
    Hexadecimal(c % 16);
  }

  lemma Hexadecimal(d: nat)
    requires d < 16
    ensures HexDigit(d) == "0123456789abcdef"[d]
  {
  }

  /** Of all others only the quote and the backslash are. */
  lemma OtherCharacters(c: char)
    requires c as int >= 32
    ensures Escaped(c) == if c == '\"' || c == '\\' then ['\\', c] else [c]
  {
  }

  lemma {:induction false} StringText(a: string, c: char, b: string)
    ensures EscapedAll(a + [c] + b) == EscapedAll(a) + Escaped(c) + EscapedAll(b)
  {
    hide Escaped;
    if a == [] {
      assert ([] + [c] + b)[1..] == b && a + [c] + b == [] + [c] + b;
    } else {
      assert (a + [c] + b)[1..] == a[1..] + [c] + b;
      StringText(a[1..], c, b);
    }
  }

  // ---------------------------------------------------------------- numbers

  /** Whole numbers have no point. */
  lemma WholeNumbers()
    ensures NumberText(0.0) == "0" && NumberText(7.0) == "7" && NumberText(-12.0) == "-12"
    ensures NumberText(2147483647.0) == "2147483647" && NumberText(2147483648.0) == "2147483648"
  {
    hide Decimal;
    Ten(12, 1);
    TenDecimals();
    WholeBeyond();
    Below10(0);
    Below10(1);
    Below10(7);
  }

  lemma Below10(n: nat)
    requires n < 10
    ensures Decimal(n) == [Digit(n)]
  {
  }

  lemma TenDecimals()
    ensures Decimal(2147483647) == "2147483647" && Decimal(2147483648) == "2147483648"
  {
    Ten(2147483647, 214748364);
    Ten(2147483648, 214748364);
    assert Decimal(214748364) == "214748364";
  }

  lemma Ten(n: nat, m: nat)
    requires n / 10 == m > 0
    ensures Decimal(n) == Decimal(m) + [Digit(n % 10)]
  {
  }

  lemma WholeBeyond()
    ensures NumberText(2147483648.0) == Integer(2147483648)
  {
    Pow10Grows(10, 60);
    TenDigits();
    assert !AsInt(2147483648.0) && AsWhole(2147483648.0);
  }

  lemma TenDigits()
    ensures Pow10(9) == 1000000000.0 && Pow10(10) == 10000000000.0
  {
    assert Pow10(3) == 1000.0;
    assert Pow10(6) == 1000000.0;
    assert Pow10(9) == 1000000000.0;
  }

  /** Others have six decimals, or six decimals and a power of ten if they are small or large. */
  lemma Fractions()
    ensures NumberText(0.5) == "0.500000" && NumberText(-2.25) == "-2.250000" && NumberText(0.000001) == "0.000001"
    ensures NumberText(999999999.5) == "999999999.500000"
  {
    hide Point;
    FixedAt(0.5, 500000);
    FixedAt(-2.25, 2250000);
    FixedAt(0.000001, 1);
    FixedAt(999999999.5, 999999999500000);
    SixDecimals();
  }

  lemma FixedAt(d: real, n: nat)
    requires 0.000001 <= Abs(d) <= 1000000000.0 && Abs(d) * 1000000.0 == n as real
    requires EPSILON < d - d.Floor as real < 1.0 - EPSILON
    ensures NumberText(d) == (if d < 0.0 then "-" else "") + Point(n)
  {
    hide Point;
    WholeAt(Abs(d) * MILLION as real, n);
    var m := (-d).Floor;
    assert d.Floor == -m - 1;
  }

  lemma WholeAt(x: real, n: int)
    requires x == n as real
    ensures Nearest(x) == n
  {
  }

  lemma SixDecimals()
    ensures Point(500000) == "0.500000" && Point(2250000) == "2.250000" && Point(1) == "0.000001"
    ensures Point(999999999500000) == "999999999.500000"
  {
    hide Padded;
    SixDigits(500000, 5, 0, 0, 0, 0, 0);
    SixDigits(250000, 2, 5, 0, 0, 0, 0);
    SixDigits(1, 0, 0, 0, 0, 0, 1);
    assert Decimal(999999999) == "999999999";
  }

  lemma SixDigits(n: nat, a: nat, b: nat, c: nat, d: nat, e: nat, f: nat)
    requires a < 10 && b < 10 && c < 10 && d < 10 && e < 10 && f < 10
    requires n == a * 100000 + b * 10000 + c * 1000 + d * 100 + e * 10 + f
    ensures Padded(n, 6) == [Digit(a), Digit(b), Digit(c)] + [Digit(d), Digit(e), Digit(f)]
  {
    hide Padded, Digit;
    var m := a * 100 + b * 10 + c;
    ThreeDigits(0, 0, a, b, c);
    ThreeDigits(m, 3, d, e, f);
    PadStep(0, 0);
    assert Padded(m, 3) == [] + [Digit(a), Digit(b), Digit(c)] == [Digit(a), Digit(b), Digit(c)];
  }

  lemma ThreeDigits(m: nat, k: nat, a: nat, b: nat, c: nat)
    requires a < 10 && b < 10 && c < 10
    ensures Padded(((m * 10 + a) * 10 + b) * 10 + c, k + 3) == Padded(m, k) + [Digit(a), Digit(b), Digit(c)]
  {
    hide Padded, Digit;
    var x := m * 10 + a;
    var y := x * 10 + b;
    PadMore(m, k, a);
    PadMore(x, k + 1, b);
    PadMore(y, k + 2, c);
  }

  lemma PadMore(m: nat, k: nat, d: nat)
    requires d < 10
    ensures Padded(m * 10 + d, k + 1) == Padded(m, k) + [Digit(d)]
  {
    hide Padded, Digit;
    PadStep(m * 10 + d, k + 1);
  }

  lemma PadStep(n: nat, k: nat)
    ensures Padded(n, k) == if k == 0 then "" else Padded(n / 10, k - 1) + [Digit(n % 10)]
  {
  }

  lemma Powers()
    ensures NumberText(0.00000025) == "2.500000e-07" && NumberText(-1000000000.5) == "-1.000000e+09"
  {
    hide Pow10, Point, PowerText, Rounded, AsInt, AsWhole, AsPower;
    Small();
    Large();
    SevenDigits();
    TwoDigits();
    assert NumberText(0.00000025) == "" + "2.500000" + ("e" + "-07");
    assert NumberText(-1000000000.5) == "-" + "1.000000" + ("e" + "+09");
    Together();
  }

  lemma Together()
    ensures "" + "2.500000" + ("e" + "-07") == "2.500000e-07" && "-" + "1.000000" + ("e" + "+09") == "-1.000000e+09"
  {
  }

  lemma SevenDigits()
    ensures Point(2500000) == "2.500000" && Point(1000000) == "1.000000"
  {
    hide Padded;
    SixDigits(500000, 5, 0, 0, 0, 0, 0);
    SixDigits(0, 0, 0, 0, 0, 0, 0);
  }

  lemma TwoDigits()
    ensures PowerText(-7) == "-07" && PowerText(-6) == "-06" && PowerText(9) == "+09"
  {
    PadStep(6, 2);
    PadStep(7, 2);
    PadStep(9, 2);
    PadStep(0, 1);
  }

  lemma Small()
    ensures var d := 0.00000025; !AsInt(d) && !AsWhole(d) && AsPower(d) && Rounded(d) == Power(2500000, -7)
  {
    TenToSeven();
    ExpIs(0.00000025, -7);
    assert Scale(0.00000025) == 2500000.0;
    WholeAt(2500000.0, 2500000);
  }

  lemma Large()
    ensures var d := -1000000000.5; !AsInt(d) && !AsWhole(d) && AsPower(d) && Rounded(-d) == Power(1000000, 9)
  {
    TenDigits();
    ExpIs(1000000000.5, 9);
    assert (-1000000000.5).Floor == -1000000001;
    assert Scale(1000000000.5) == 1000000.0005;
    assert (1000000.0005).Floor == 1000000;
  }

  lemma TenToSeven()
    ensures Pow10(-7) == 0.0000001 && Pow10(-6) == 0.000001 && Pow10(9) == 1000000000.0
  {
    assert Pow10(-3) == 0.001;
    assert Pow10(3) == 1000.0 && Pow10(6) == 1000000.0;
  }

  /** Where rounding carries into another digit, the power goes up. */
  lemma Carried()
    ensures NumberText(0.00000099999999) == "1.000000e-06"
  {
    hide Pow10, Point, PowerText, Rounded, AsInt, AsWhole, AsPower;
    CarriedPower();
    SevenDigits();
    assert PowerText(-6) == "-06" by { TwoDigits(); }
    assert NumberText(0.00000099999999) == "" + "1.000000" + ("e" + "-06");
    assert "" + "1.000000" + ("e" + "-06") == "1.000000e-06";
  }

  lemma CarriedPower()
    ensures var d := 0.00000099999999; !AsInt(d) && !AsWhole(d) && AsPower(d) && Rounded(d) == Power(1000000, -6)
  {
    TenToSeven();
    ExpIs(0.00000099999999, -7);
    assert Scale(0.00000099999999) == 9999999.9;
    assert (9999999.9).Floor == 9999999;
  }

  /** Halves go to the even side. */
  lemma HalfWay()
    ensures Nearest(0.5) == 0 && Nearest(1.5) == 2 && Nearest(2.5) == 2
  {
    assert (0.5).Floor == 0 && (1.5).Floor == 1 && (2.5).Floor == 2;
  }

  /** Two to the -52 is still nothing, and from ten to the 60 on whole numbers have a power of ten. */
  lemma Borders()
    ensures EPSILON == 1.0 / 4503599627370496.0 && AsInt(EPSILON) && AsWhole(4294967296.0 + EPSILON)
    ensures AsWhole(999999999999999999999999999999999999999999999999999999999999.0) && !AsWhole(1000000000000000000000000000000000000000000000000000000000000.0)
  {
    PowerSixty();
    assert EPSILON.Floor == 0 && (4294967296.0 + EPSILON).Floor == 4294967296;
  }

  lemma PowerSixty()
    ensures Pow10(60) == 1000000000000000000000000000000000000000000000000000000000000.0
  {
    assert Pow10(3) == 1000.0;
    assert Pow10(6) == 1000000.0;
    assert Pow10(9) == 1000000000.0;
    assert Pow10(12) == 1000000000000.0;
    assert Pow10(15) == 1000000000000000.0;
    assert Pow10(18) == 1000000000000000000.0;
    assert Pow10(21) == 1000000000000000000000.0;
    assert Pow10(24) == 1000000000000000000000000.0;
    assert Pow10(27) == 1000000000000000000000000000.0;
    assert Pow10(30) == 1000000000000000000000000000000.0;
    assert Pow10(33) == 1000000000000000000000000000000000.0;
    assert Pow10(36) == 1000000000000000000000000000000000000.0;
    assert Pow10(39) == 1000000000000000000000000000000000000000.0;
    assert Pow10(42) == 1000000000000000000000000000000000000000000.0;
    assert Pow10(45) == 1000000000000000000000000000000000000000000000.0;
    assert Pow10(48) == 1000000000000000000000000000000000000000000000000.0;
    assert Pow10(51) == 1000000000000000000000000000000000000000000000000000.0;
    assert Pow10(54) == 1000000000000000000000000000000000000000000000000000000.0;
    assert Pow10(57) == 1000000000000000000000000000000000000000000000000000000000.0;
  }

  lemma ExpIs(x: real, e: int)
    requires x > 0.0 && Pow10(e) <= x < Pow10(e + 1)
    ensures Exp10(x) == e
  {
    var k := Exp10(x);
    if k < e { Pow10Grows(k + 1, e); } else if k > e { Pow10Grows(e + 1, k); }
  }

  /** Texts that RFC 8259 does not allow are read as far as they go. */
  lemma OddNumbers()
    ensures ParseNumber("-") == Done(Number(0.0), "") && ParseNumber("012") == Done(Number(12.0), "")
    ensures ParseNumber("00") == Done(Number(0.0), "0") && ParseNumber("1.") == Done(Number(1.0), ".")
  {
    assert "-"[1..] == "" && "0"[1..] == "" && "00"[1..] == "0" && "1."[1..] == ".";
    assert "012"[1..] == "12" && "12"[1..] == "2" && "2"[1..] == "";
    assert Digits(0, "12") == Digits(1, "2") == Digits(12, "") == (12, "");
    assert Digits(0, "1.") == Digits(1, ".") == (1, ".");
  }

  lemma OddPowers()
    ensures ParseNumber("1e") == Done(Number(1.0), "") && ParseNumber("1e+") == Done(Number(1.0), "")
  {
    assert "+"[1..] == "" && "e"[1..] == "" && "e+"[1..] == "+" && "1e"[1..] == "e" && "1e+"[1..] == "e+";
    assert Digits(0, "1e") == Digits(1, "e") == (1, "e");
    assert Digits(0, "1e+") == Digits(1, "e+") == (1, "e+");
    assert Exponent("e") == (0, "") && Exponent("e+") == (0, "");
  }

  // ---------------------------------------------------------------- a tree

  lemma Compact()
    ensures Print(Obj([Member("a", Arr([Number(1.0), True]))]), 0, false) == "{\"a\":[1,true]}"
  {
    hide Print, PrintMembers, Quoted, If, Tabs;
    Single("a", Arr([Number(1.0), True]), 0, false);
    Items(false);
    Quotes();
    Spaces();
  }

  lemma Formatted()
    ensures Print(Obj([Member("a", Arr([Number(1.0), True]))]), 0, true) == "{\n\t\"a\":\t[1, true]\n}"
  {
    hide Print, PrintMembers, Quoted, If, Tabs;
    Single("a", Arr([Number(1.0), True]), 0, true);
    Items(true);
    Quotes();
    Spaces();
    OneLine();
  }

  lemma OneLine()
    ensures "{" + "\n" + ("\t" + "\"a\"" + ":" + "\t" + "[1, true]" + "\n") + "" + "}" == "{\n\t\"a\":\t[1, true]\n}"
  {
    assert "\t" + "\"a\"" + ":" + "\t" + "[1, true]" + "\n" == "\t\"a\":\t[1, true]\n";
  }

  /** Empty objects are closed one level further out than others. */
  lemma Nested()
    ensures Print(Obj([Member("c", Obj([]))]), 1, true) == "{\n\t\t\"c\":\t{\n\t}\n\t}"
    ensures Print(Obj([Member("c", Obj([]))]), 1, false) == "{\"c\":{}}"
  {
    hide PrintMembers, Quoted, If, Tabs;
    Single("c", Obj([]), 1, true);
    Single("c", Obj([]), 1, false);
    Quotes();
    Spaces();
    assert Print(Obj([]), 2, true) == "{" + ("\n" + "\t") + "}";
    assert Print(Obj([]), 2, false) == "{" + "" + "}";
  }

  lemma Single(name: string, value: Json, depth: nat, fmt: bool)
    ensures Print(Obj([Member(name, value)]), depth, fmt) ==
            "{" + If(fmt, "\n")
            + (If(fmt, Tabs(depth + 1)) + Quoted(name) + ":" + If(fmt, "\t") + Print(value, depth + 1, fmt) + If(fmt, "\n"))
            + If(fmt, Tabs(depth)) + "}"
  {
    hide Quoted, If, Tabs;
    var s := [Member(name, value)];
    assert s[1..] == [] && PrintMembers([], depth + 1, fmt) == "";
    assert Print(Obj(s), depth, fmt) == "{" + If(fmt, "\n") + PrintMembers(s, depth + 1, fmt) + If(fmt, Tabs(depth)) + "}";
    var x := If(fmt, Tabs(depth + 1)) + Quoted(name) + ":" + If(fmt, "\t") + Print(value, depth + 1, fmt);
    assert PrintMembers(s, depth + 1, fmt) == x + "" + If(fmt, "\n") + "" == x + If(fmt, "\n");
  }

  lemma Quotes()
    ensures Quoted("a") == "\"a\"" && Quoted("c") == "\"c\""
  {
  }

  lemma Spaces()
    ensures Tabs(0) == "" && Tabs(1) == "\t" && Tabs(2) == "\t\t" && forall s :: If(false, s) == "" && If(true, s) == s
  {
  }

  lemma Items(fmt: bool)
    ensures Print(Arr([Number(1.0), True]), 1, fmt) == if fmt then "[1, true]" else "[1,true]"
  {
    hide NumberText;
    var x := Number(1.0);
    assert [x, True][1..] == [True] && [True][1..] == [];
    assert Print(x, 2, fmt) == "1" by { One(); }
    assert PrintItems([True], 2, fmt) == "true";
    assert PrintItems([x, True], 2, fmt) == "1" + ("," + If(fmt, " ") + "true");
  }

  lemma One()
    ensures NumberText(1.0) == "1"
  {
  }

  // ---------------------------------------------------------------- characters outside ASCII

  /** The examples of RFC 3629, section 7. */
  lemma Utf8Examples()
    ensures Utf8(0x41) == [0x41 as char] && Utf8(0x391) == [0xCE as char, 0x91 as char]
    ensures Utf8(0x2262) == [0xE2 as char, 0x89 as char, 0xA2 as char]
    ensures Utf8(0x233B4) == [0xF0 as char, 0xA3 as char, 0x8E as char, 0xB4 as char]
  {
  }

  lemma Units()
    ensures Utf16(0x233B4, false) == "\\ud84c\\udfb4"
  {
    hide Unit;
    UnitIs(0xD84C, 13, 8, 4, 12);
    UnitIs(0xDFB4, 13, 15, 11, 4);
  }

  lemma UnitIs(u: nat, a: nat, b: nat, c: nat, d: nat)
    requires a < 16 && b < 16 && c < 16 && d < 16 && u == a * 4096 + b * 256 + c * 16 + d
    ensures Unit(u, false) == ['\\', 'u', "0123456789abcdef"[a], "0123456789abcdef"[b], "0123456789abcdef"[c], "0123456789abcdef"[d]]
  {
    hide HexDigit, Unit;
    UnitHas(u);
    assert u / 4096 == a && u / 256 % 16 == b && u / 16 % 16 == c && u % 16 == d by { HexParts(u, a, b, c, d); }
    Hexadecimal(a);
    Hexadecimal(b);
    Hexadecimal(c);
    Hexadecimal(d);
  }

  lemma UnitHas(u: nat)
    requires u < 0x10000
    ensures Unit(u, false) == ['\\', 'u', HexDigit(u / 4096), HexDigit(u / 256 % 16), HexDigit(u / 16 % 16), HexDigit(u % 16)]
  {
    hide HexDigit;
  }

  lemma HexParts(u: nat, a: nat, b: nat, c: nat, d: nat)
    requires a < 16 && b < 16 && c < 16 && d < 16 && u == a * 4096 + b * 256 + c * 16 + d
    ensures u / 4096 == a && u / 256 % 16 == b && u / 16 % 16 == c && u % 16 == d
  {
    assert u / 16 == a * 256 + b * 16 + c;
    assert u / 256 == a * 16 + b;
  }

  /** The last of them as an escape, in two units. */
  lemma PairExample(t: string)
    requires Fits(t)
    ensures Fits("\\ud84c\\udfb4" + t)
    ensures Body("\\ud84c\\udfb4" + t) == ([0xF0 as char, 0xA3 as char, 0x8E as char, 0xB4 as char] + Body(t).0, Body(t).1)
  {
    hide Fits, Body, Utf16, Unit, Utf8;
    EscapeReads(0x233B4, false, t);
    Utf8Examples();
    Units();
  }
}
