/** Parsing a printed tree gives the tree back. */
module JsonRoundTrip {
  import opened JsonNumber
  import opened JsonText

  // ---------------------------------------------------------------- strings

  lemma EscapedStep(c: char, t: string)
    requires 0 < c as int < 256 && Fits(t)
    ensures Fits(Escaped(c) + t) && Body(Escaped(c) + t) == ([c] + Body(t).0, Body(t).1)
  {
    hide Body, Filled, Counted;
    var r := Escaped(c) + t;
    if |Escaped(c)| == 1 {
      PlainStep(c, t);
    } else if |Escaped(c)| == 2 {
      ShortStep(r[1], t);
    } else {
      UnicodeStep(c, t);
    }
  }

  lemma PlainStep(c: char, t: string)
    requires c != '\"' && c != '\\' && Fits(t)
    ensures Fits([c] + t) && Body([c] + t) == ([c] + Body(t).0, Body(t).1)
  {
    assert ([c] + t)[1..] == t;
  }

  lemma ShortStep(c: char, t: string)
    requires c != 'u' && Fits(t)
    ensures Fits(['\\', c] + t) && Body(['\\', c] + t) == ([Unescaped(c)] + Body(t).0, Body(t).1)
  {
    var r := ['\\', c] + t;
    assert r[2..] == t && r[1..][1..] == t && r[1..][0] == c;
    CountShort(r);
  }

  /** The first pass counts one for a backslash and the character after it. */
  lemma CountShort(r: string)
    requires |r| >= 2 && r[0] == '\\'
    ensures r[1..][1..] == r[2..] && Count(r) == Onto(1, Count(r[2..]))
  {
    assert Counted(r[1..], true) == Onto(0, Counted(r[1..][1..], false));
  }

  lemma HexRoundTrip(d: nat)
    requires d < 16
    ensures HexValue(HexDigit(d)) == d && HexDigit(d) != '\"' && HexDigit(d) != '\\'
  {
  }

  lemma UnicodeStep(c: char, t: string)
    requires 0 < c as int < 32 && Fits(t)
    ensures var r := ['\\', 'u', '0', '0', HexDigit(c as int / 16), HexDigit(c as int % 16)] + t;
            Fits(r) && Body(r) == ([c] + Body(t).0, Body(t).1)
  {
    hide Body, Filled, Counted;
    var a, b := c as int / 16, c as int % 16;
    HexRoundTrip(a);
    HexRoundTrip(b);
    var h := ['0', '0', HexDigit(a), HexDigit(b)];
    assert Hex4(h) == c as int;
    assert ['\\', 'u', '0', '0', HexDigit(a), HexDigit(b)] + t == ['\\', 'u'] + h + t;
    UnicodeReads(h, t);
  }

  /** A \u escape whose four digits make no pair. */
  lemma UnicodeReads(h: string, t: string)
    requires |h| == 4 && '\"' !in h && '\\' !in h && Fits(t)
    requires var u := Hex4(h); !IsHigh(u) || !(|t| >= 2 && t[0] == '\\' && t[1] == 'u')
    ensures var r := ['\\', 'u'] + h + t;
            && Count(r) == 5 + Count(t) && Fits(r)
            && Body(r) == ((if Hex4(h) == 0 || IsLow(Hex4(h)) || IsHigh(Hex4(h)) then [] else Utf8(Hex4(h))) + Body(t).0, Body(t).1)
  {
    hide Hex4, Utf8, Counted, Filled, Body;
    var r := ['\\', 'u'] + h + t;
    CountUnicode(h, t);
    assert r[2..6] == h && r[6..] == t;
    assert |t| >= 1 ==> r[6] == t[0];
    assert |t| >= 2 ==> r[7] == t[1];
    assert Stride(r) == 6;
    OneStep(r);
  }

  /** The first pass counts the four digits of a \u. */
  lemma CountUnicode(h: string, t: string)
    requires |h| == 4 && '\"' !in h && '\\' !in h
    ensures Count(['\\', 'u'] + h + t) == Onto(5, Count(t))
  {
    hide Counted;
    var r := ['\\', 'u'] + h + t;
    CountShort(r);
    assert r[2..] == [h[0]] + ([h[1]] + ([h[2]] + ([h[3]] + t)));
    CountPlain(h[3], t);
    CountPlain(h[2], [h[3]] + t);
    CountPlain(h[1], [h[2]] + ([h[3]] + t));
    CountPlain(h[0], [h[1]] + ([h[2]] + ([h[3]] + t)));
  }

  lemma CountPlain(c: char, t: string)
    requires c != '\"' && c != '\\'
    ensures Count([c] + t) == Onto(1, Count(t))
  {
    assert ([c] + t)[1..] == t;
  }

  /** A printed literal reads back as the string. */
  lemma {:induction false} BodyOfEscaped(s: string, rest: string)
    requires CString(s)
    ensures Fits(EscapedAll(s) + "\"" + rest) && Body(EscapedAll(s) + "\"" + rest) == (s, rest)
  {
    hide Escaped;
    var tail := "\"" + rest;
    if s == [] {
      assert EscapedAll(s) + "\"" + rest == tail && tail[1..] == rest;
    } else {
      BodyOfEscaped(s[1..], rest);
      EscapedStep(s[0], EscapedAll(s[1..]) + "\"" + rest);
      assert EscapedAll(s) + "\"" + rest == Escaped(s[0]) + (EscapedAll(s[1..]) + "\"" + rest);
      assert s == [s[0]] + s[1..];
    }
  }

  lemma StringRoundTrip(s: string, rest: string)
    requires CString(s)
    ensures ParseString(Quoted(s) + rest) == Done(s, rest)
  {
    hide Fits, Body, EscapedAll;
    BodyOfEscaped(s, rest);
    assert (Quoted(s) + rest)[1..] == EscapedAll(s) + "\"" + rest;
  }

  // ---------------------------------------------------------------- numbers

  predicate Delimited(rest: string) {
    rest == [] || (!IsDigit(rest[0]) && rest[0] != '.' && rest[0] != 'e' && rest[0] != 'E')
  }

  lemma {:induction false} DigitsOfDecimal(n: nat, rest: string)
    ensures Digits(0, Decimal(n) + rest) == Digits(n, rest)
  {
    if n < 10 {
      assert (Decimal(n) + rest)[1..] == rest;
    } else {
      var t := [Digit(n % 10)] + rest;
      DigitsOfDecimal(n / 10, t);
      assert Decimal(n) + rest == Decimal(n / 10) + t && t[1..] == rest;
    }
  }

  lemma {:induction false} DecimalHead(n: nat)
    ensures |Decimal(n)| > 0 && IsDigit(Decimal(n)[0]) && (n > 0 ==> Decimal(n)[0] != '0')
  {
    if n >= 10 { DecimalHead(n / 10); }
  }

  lemma NumberRoundTrip(n: int, rest: string)
    requires Delimited(rest)
    ensures var s := Integer(n) + rest;
            (Begins(s, '-') || (s != [] && IsDigit(s[0]))) && ParseNumber(s) == Done(Number(n as real), rest)
  {
    var m: nat := if n < 0 then -n else n;
    var s, a := Integer(n) + rest, Decimal(m) + rest;
    DecimalHead(m);
    assert if n < 0 then s[0] == '-' && s[1..] == a else s == a;
    if m == 0 {
      assert a[1..] == rest;
    } else {
      DigitsOfDecimal(m, rest);
    }
    assert Digits(m, rest) == (m, rest);
    assert Exponent(rest) == (0, rest);
  }

  function Tens(k: nat): nat { if k == 0 then 1 else 10 * Tens(k - 1) }

  lemma {:induction false} DigitsOfPadded(m: nat, n: nat, k: nat, rest: string)
    requires n < Tens(k)
    ensures Digits(m, Padded(n, k) + rest) == Digits(m * Tens(k) + n, rest)
  {
    hide Digits, Digit;
    if k == 0 {
      assert "" + rest == rest;
    } else {
      var t := [Digit(n % 10)] + rest;
      DigitsOfPadded(m, n / 10, k - 1, t);
      assert Padded(n, k) + rest == Padded(n / 10, k - 1) + t;
      TenTimes(m, Tens(k - 1), n);
      OneDigit(m * Tens(k - 1) + n / 10, n % 10, rest);
    }
  }

  lemma OneDigit(n: nat, d: nat, rest: string)
    requires d < 10
    ensures Digits(n, [Digit(d)] + rest) == Digits(n * 10 + d, rest)
  {
    assert ([Digit(d)] + rest)[1..] == rest;
  }

  lemma TenTimes(m: nat, t: nat, n: nat)
    ensures (m * t + n / 10) * 10 + n % 10 == m * (10 * t) + n
  {
    assert m * (10 * t) == 10 * (m * t);
  }

  /** The digits before the point ... */
  lemma WholeReads(whole: nat, frac: string)
    ensures var a := Decimal(whole) + ("." + frac);
            var b := if Begins(a, '0') then a[1..] else a;
            && a != [] && IsDigit(a[0])
            && (if b != [] && '1' <= b[0] <= '9' then Digits(0, b) else (0, b)) == (whole, "." + frac)
  {
    var a := Decimal(whole) + ("." + frac);
    DecimalHead(whole);
    if whole == 0 {
      assert a[1..] == "." + frac;
    } else {
      DigitsOfDecimal(whole, "." + frac);
    }
  }

  /** ... and behind it. */
  lemma PartReads(n: nat, tail: string)
    requires tail == [] || !IsDigit(tail[0])
    ensures var frac := Padded(n % MILLION, 6) + tail;
            |frac| == 6 + |tail| && IsDigit(frac[0]) && Digits(n / MILLION, frac) == (n, tail)
  {
    SixTens();
    DigitsOfPadded(n / MILLION, n % MILLION, 6, tail);
    PaddedHead(n % MILLION, 6);
    assert n / MILLION * MILLION + n % MILLION == n;
  }

  /** Digits with a point among them, and what the exponent adds. */
  lemma PointReads(d: real, n: nat, tail: string, x: int, rest: string)
    requires (tail == [] || !IsDigit(tail[0])) && Exponent(tail) == (x, rest)
    ensures var s := Minus(d) + Point(n) + tail;
            && (Begins(s, '-') || (s != [] && IsDigit(s[0])))
            && ParseNumber(s) == Done(Number(Scaled(Sign(d), n, x - 6)), rest)
  {
    hide Exponent, Scaled, Decimal, Padded, Digits;
    var s, frac := Minus(d) + Point(n) + tail, Padded(n % MILLION, 6) + tail;
    var a := Decimal(n / MILLION) + ("." + frac);
    assert Point(n) + tail == a;
    WholeReads(n / MILLION, frac);
    PartReads(n, tail);
    assert ("." + frac)[1..] == frac;
    assert if d < 0.0 then s[0] == '-' && s[1..] == a else s == a;
  }

  lemma SixTens()
    ensures Tens(6) == 1000000 && Tens(2) == 100
  {
    assert Tens(1) == 10 && Tens(2) == 100 && Tens(3) == 1000 && Tens(4) == 10000 && Tens(5) == 100000;
  }

  lemma {:induction false} PaddedHead(n: nat, k: nat)
    requires k > 0
    ensures IsDigit(Padded(n, k)[0])
  {
    if k > 1 { PaddedHead(n / 10, k - 1); }
  }

  lemma NoDigits(n: nat, rest: string)
    requires rest == [] || !IsDigit(rest[0])
    ensures Digits(n, rest) == (n, rest)
  {
  }

  lemma Behind(a: string, b: string, c: string)
    requires |a| == 1
    ensures a + b + c != [] && (a + b + c)[0] == a[0] && (a + b + c)[1..] == b + c
  {
  }

  lemma PowerReads(e: int, rest: string)
    requires Delimited(rest)
    ensures Exponent("e" + PowerText(e) + rest) == (e, rest)
  {
    hide Decimal, Padded, Digits;
    var a: nat := if e < 0 then -e else e;
    var sign, digits := if e < 0 then "-" else "+", if a < 100 then Padded(a, 2) else Decimal(a);
    var s, t := "e" + PowerText(e) + rest, sign + digits + rest;
    Behind("e", PowerText(e), rest);
    Behind(sign, digits, rest);
    assert s[1..] == t && t[1..] == digits + rest;
    NoDigits(a, rest);
    if a < 100 {
      SixTens();
      DigitsOfPadded(0, a, 2, rest);
    } else {
      DigitsOfDecimal(a, rest);
    }
  }

  /** Any number, printed, reads back as the number its text stands for. */
  lemma NumberReads(d: real, rest: string)
    requires Delimited(rest)
    ensures var s := NumberText(d) + rest;
            (Begins(s, '-') || (s != [] && IsDigit(s[0]))) && ParseNumber(s) == Done(Number(Shown(d)), rest)
  {
    hide AsInt, AsWhole, AsPower, Integer, Point, Scaled, ParseNumber, Exponent, Rounded, Nearest, PowerText;
    NotZero(d);
    if AsInt(d) {
      NumberRoundTrip(Toward0(d), rest);
    } else if AsWhole(d) {
      NumberRoundTrip(d.Floor, rest);
    } else if AsPower(d) {
      var p := Rounded(Abs(d));
      var tail := "e" + PowerText(p.e) + rest;
      PowerReads(p.e, rest);
      PointReads(d, p.m, tail, p.e, rest);
      assert Minus(d) + Point(p.m) + ("e" + PowerText(p.e)) + rest == Minus(d) + Point(p.m) + tail;
    } else {
      PlainExponent(rest);
      PointReads(d, Nearest(Abs(d) * MILLION as real), rest, 0, rest);
    }
  }

  lemma PlainExponent(rest: string)
    requires Delimited(rest)
    ensures Exponent(rest) == (0, rest)
  {
  }

  // ---------------------------------------------------------------- white space

  predicate Dark(s: string) {
    s != [] && s[0] as int > 32
  }

  predicate White(w: string) {
    forall i :: 0 <= i < |w| ==> w[i] as int <= 32
  }

  lemma {:induction false} SkipWhite(w: string, s: string)
    requires White(w) && Dark(s)
    ensures Skip(w + s) == s
  {
    if w == [] {
      assert w + s == s;
    } else {
      assert (w + s)[1..] == w[1..] + s;
      SkipWhite(w[1..], s);
    }
  }

  lemma SkipDark(s: string)
    requires Dark(s)
    ensures Skip(s) == s
  {
  }

  lemma WhiteDelimits(w: string, c: char, rest: string)
    requires White(w) && (c == '}' || c == ']' || c == ',')
    ensures Delimited(w + ([c] + rest)) && Skip(w + ([c] + rest)) == [c] + rest
  {
    SkipWhite(w, [c] + rest);
  }

  lemma Breaks(depth: nat, fmt: bool)
    ensures White(If(fmt, Tabs(depth))) && White(If(fmt, "\n")) && White(If(fmt, "\t")) && White(If(fmt, " "))
  {
  }

  // ---------------------------------------------------------------- the steps of the grammar

  lemma Word(word: string, rest: string)
    requires word in {"null", "false", "true"}
    ensures ParseValue(word + rest) == Done(if word == "null" then Null else if word == "false" then False else True, rest)
  {
    var s := word + rest;
    assert s[..|word|] == word && s[|word|..] == rest;
    assert s[0] == word[0];
    NotTheWord(s, "null");
    NotTheWord(s, "false");
    NotTheWord(s, "true");
  }

  lemma NotTheWord(s: string, word: string)
    requires s != [] && word != []
    ensures s[0] != word[0] ==> !StartsWith(s, word)
  {
    if |word| <= |s| { assert s[..|word|][0] == s[0]; }
  }

  lemma NoWord(s: string)
    requires s != [] && s[0] != 'n' && s[0] != 'f' && s[0] != 't'
    ensures !StartsWith(s, "null") && !StartsWith(s, "false") && !StartsWith(s, "true")
  {
    NotTheWord(s, "null");
    NotTheWord(s, "false");
    NotTheWord(s, "true");
  }

  lemma EmptyArray(rest: string)
    ensures ParseValue("[" + "]" + rest) == Done(Arr([]), rest)
  {
    hide ParseItems;
    var s := "[" + "]" + rest;
    NoWord(s);
    assert s[1..] == "]" + rest;
    WhiteDelimits("", ']', rest);
    assert "" + ([']'] + rest) == s[1..];
    assert s[1..][1..] == rest;
  }

  lemma EmptyObject(w: string, rest: string)
    requires White(w)
    ensures ParseValue("{" + w + "}" + rest) == Done(Obj([]), rest)
  {
    hide ParseMembers;
    var s := "{" + w + "}" + rest;
    NoWord(s);
    WhiteDelimits(w, '}', rest);
    assert s[1..] == w + (['}'] + rest);
    assert (['}'] + rest)[1..] == rest;
  }

  lemma ArrayStep(inner: string, items: seq<Json>, rest: string)
    requires ParseItems(inner) == Done(items, rest) && !Begins(Skip(inner), ']')
    ensures ParseValue("[" + inner) == Done(Arr(items), rest)
  {
    hide ParseItems;
    var s := "[" + inner;
    NoWord(s);
    assert s[1..] == inner;
  }

  lemma ObjectStep(inner: string, members: seq<Member>, rest: string)
    requires ParseMembers(inner) == Done(members, rest) && !Begins(Skip(inner), '}')
    ensures ParseValue("{" + inner) == Done(Obj(members), rest)
  {
    hide ParseMembers;
    var s := "{" + inner;
    NoWord(s);
    assert s[1..] == inner;
  }

  /** One item: white space, its text, and the white space before what follows. */
  lemma ItemStep(w: string, v: Json, text: string, tail: string)
    requires White(w) && Dark(text) && ParseValue(text + tail) == Done(v, tail)
    ensures ParseItems(w + (text + tail)) == Prepend([v], MoreItems(Skip(tail)))
  {
    hide ParseValue, MoreItems;
    SkipWhite(w, text + tail);
  }

  lemma MemberStep(w: string, name: string, x: string, v: Json, text: string, tail: string)
    requires White(w) && White(x) && CString(name) && Dark(text) && ParseValue(text + tail) == Done(v, tail)
    ensures ParseMember(w + (Quoted(name) + ":" + x + text + tail)) == Done(Member(name, v), tail)
  {
    hide ParseValue, ParseString, Quoted, CString;
    var after := ":" + x + text + tail;
    QuotedIsDark(name);
    assert Quoted(name) + ":" + x + text + tail == Quoted(name) + after;
    SkipWhite(w, Quoted(name) + after);
    StringRoundTrip(name, after);
    SkipDark(after);
    assert after[1..] == x + (text + tail);
    SkipWhite(x, text + tail);
  }

  lemma QuotedIsDark(s: string)
    ensures Dark(Quoted(s)) && Begins(Quoted(s), '\"')
  {
  }

  // ---------------------------------------------------------------- trees

  lemma PrintIsDark(v: Json, depth: nat, fmt: bool)
    ensures Dark(Print(v, depth, fmt)) && Print(v, depth, fmt)[0] != ']'
  {
    match v
    case Number(d) => NumberIsDark(d);
    case _ =>
  }

  lemma NumberIsDark(d: real)
    ensures Dark(NumberText(d)) && NumberText(d)[0] != ']'
  {
    hide NumberText, ParseNumber;
    NumberReads(d, "");
    assert NumberText(d) + "" == NumberText(d);
  }

  /** The main result: any tree, printed, reads back as the tree its text stands for; what follows the text is left
      alone. */
  lemma {:induction false} RoundTrip(v: Json, depth: nat, fmt: bool, rest: string)
    requires Printable(v) && Delimited(rest)
    ensures ParseValue(Print(v, depth, fmt) + rest) == Done(Reads(v), rest)
    decreases v
  {
    hide Quoted, NumberText, Shown, ParseString, ParseNumber, ParseValue, ParseItems, ParseMembers, Print, PrintItems, PrintMembers;
    PrintAtoms(v, depth, fmt);
    match v
    case Null => Word("null", rest);
    case False => Word("false", rest);
    case True => Word("true", rest);
    case Number(d) => NumberStep(d, rest);
    case Str(t) => StringStep(t, rest);
    case Arr(items) =>
      ArrayText(items, depth, fmt, rest);
      if items == [] {
        EmptyArray(rest);
      } else {
        var inner := PrintItems(items, depth + 1, fmt) + ("]" + rest);
        ItemsRoundTrip(items, depth + 1, fmt, "", rest);
        ItemsBegin(items, depth + 1, fmt, "]" + rest);
        assert "" + inner == inner;
        ArrayStep(inner, ReadsItems(items), rest);
      }
    case Obj(members) =>
      Breaks(depth, fmt);
      ObjectText(members, depth, fmt, rest);
      if members == [] {
        EmptyObject(If(fmt, "\n" + Tabs(if depth == 0 then 0 else depth - 1)), rest);
      } else {
        var end := If(fmt, Tabs(depth)) + ("}" + rest);
        MembersRoundTrip(members, depth + 1, fmt, If(fmt, "\n"), If(fmt, Tabs(depth)), rest);
        MembersBegin(members, depth + 1, fmt, If(fmt, "\n"), end);
        ObjectStep(If(fmt, "\n") + (PrintMembers(members, depth + 1, fmt) + end), ReadsMembers(members), rest);
      }
  }

  lemma PrintAtoms(v: Json, depth: nat, fmt: bool)
    ensures match v
            case Null => Print(v, depth, fmt) == "null"
            case False => Print(v, depth, fmt) == "false"
            case True => Print(v, depth, fmt) == "true"
            case Number(d) => Print(v, depth, fmt) == NumberText(d)
            case Str(t) => Print(v, depth, fmt) == Quoted(t)
            case _ => true
  {
  }

  lemma ArrayText(items: seq<Json>, depth: nat, fmt: bool, rest: string)
    ensures Print(Arr(items), depth, fmt) + rest ==
            if items == [] then "[" + "]" + rest else "[" + (PrintItems(items, depth + 1, fmt) + ("]" + rest))
  {
    if items == [] { NoItems(depth + 1, fmt); }
  }

  lemma ObjectText(members: seq<Member>, depth: nat, fmt: bool, rest: string)
    ensures Print(Obj(members), depth, fmt) + rest ==
            if members == [] then "{" + If(fmt, "\n" + Tabs(if depth == 0 then 0 else depth - 1)) + "}" + rest
            else "{" + (If(fmt, "\n") + (PrintMembers(members, depth + 1, fmt) + (If(fmt, Tabs(depth)) + ("}" + rest))))
  {
    hide PrintMembers, If;
  }

  lemma NumberStep(d: real, rest: string)
    requires Delimited(rest)
    ensures ParseValue(NumberText(d) + rest) == Done(Number(Shown(d)), rest)
  {
    hide ParseNumber, NumberText, Shown;
    NumberReads(d, rest);
    NoWord(NumberText(d) + rest);
  }

  lemma StringStep(t: string, rest: string)
    requires CString(t)
    ensures ParseValue(Quoted(t) + rest) == Done(Str(t), rest)
  {
    hide ParseString, EscapedAll;
    StringRoundTrip(t, rest);
    NoWord(Quoted(t) + rest);
  }

  lemma NoItems(depth: nat, fmt: bool)
    ensures PrintItems([], depth, fmt) == ""
  {
  }

  lemma ItemsBegin(items: seq<Json>, depth: nat, fmt: bool, tail: string)
    requires items != []
    ensures !Begins(Skip(PrintItems(items, depth, fmt) + tail), ']')
  {
    hide Print;
    PrintIsDark(items[0], depth, fmt);
    SkipDark(PrintItems(items, depth, fmt) + tail);
  }

  lemma MembersBegin(members: seq<Member>, depth: nat, fmt: bool, w: string, tail: string)
    requires members != [] && White(w)
    ensures !Begins(Skip(w + (PrintMembers(members, depth, fmt) + tail)), '}')
  {
    hide Print, Quoted;
    Breaks(depth, fmt);
    var q := Quoted(members[0].name);
    QuotedIsDark(members[0].name);
    var x := If(fmt, Tabs(depth));
    var all := PrintMembers(members, depth, fmt) + tail;
    var dark := all[|x|..];
    assert all[..|x|] == x && all == x + dark && Begins(dark, '\"');
    assert w + (x + dark) == (w + x) + dark;
    SkipWhite(w + x, dark);
  }

  lemma {:induction false} ItemsRoundTrip(items: seq<Json>, depth: nat, fmt: bool, w: string, rest: string)
    requires items != [] && (forall i :: 0 <= i < |items| ==> Printable(items[i]))
    requires White(w)
    ensures ParseItems(w + (PrintItems(items, depth, fmt) + ("]" + rest))) == Done(ReadsItems(items), rest)
    decreases items
  {
    hide ParseItems, ParseValue, PrintItems, Print, Printable, Reads;
    var v, end := items[0], "]" + rest;
    PrintIsDark(v, depth, fmt);
    Breaks(depth, fmt);
    if |items| == 1 {
      WhiteDelimits("", ']', rest);
      assert "" + ([']'] + rest) == end;
      RoundTrip(v, depth, fmt, end);
      ItemStep(w, Reads(v), Print(v, depth, fmt), end);
      LastItem(items, depth, fmt, rest);
    } else {
      var more := If(fmt, " ") + (PrintItems(items[1..], depth, fmt) + end);
      var tail := "," + more;
      SkipDark(tail);
      RoundTrip(v, depth, fmt, tail);
      ItemStep(w, Reads(v), Print(v, depth, fmt), tail);
      ItemsRoundTrip(items[1..], depth, fmt, If(fmt, " "), rest);
      NextItem(items, depth, fmt, end);
    }
  }

  lemma LastItem(items: seq<Json>, depth: nat, fmt: bool, rest: string)
    requires |items| == 1
    ensures PrintItems(items, depth, fmt) == Print(items[0], depth, fmt)
    ensures MoreItems("]" + rest) == Done([], rest)
    ensures Prepend([Reads(items[0])], MoreItems("]" + rest)) == Done(ReadsItems(items), rest)
  {
    hide Reads;
    assert ("]" + rest)[1..] == rest;
    assert [Reads(items[0])] + [] == ReadsItems(items);
  }

  lemma NextItem(items: seq<Json>, depth: nat, fmt: bool, end: string)
    requires |items| > 1
    ensures var more := If(fmt, " ") + (PrintItems(items[1..], depth, fmt) + end);
            && PrintItems(items, depth, fmt) + end == Print(items[0], depth, fmt) + ("," + more)
            && MoreItems("," + more) == ParseItems(more)
    ensures [Reads(items[0])] + ReadsItems(items[1..]) == ReadsItems(items)
  {
    hide ParseItems, Print, If, Reads;
    var more := If(fmt, " ") + (PrintItems(items[1..], depth, fmt) + end);
    Fold(Print(items[0], depth, fmt), ",", If(fmt, " "), PrintItems(items[1..], depth, fmt), end);
    assert ("," + more)[1..] == more;
  }

  lemma Fold(a: string, b: string, c: string, d: string, e: string)
    ensures a + (b + c + d) + e == a + (b + (c + (d + e)))
  {
    Regroup(a, b + c + d, e);
    Regroup(b + c, d, e);
    Regroup(b, c, d + e);
  }

  lemma {:induction false} MembersRoundTrip(members: seq<Member>, depth: nat, fmt: bool, w: string, z: string, rest: string)
    requires members != [] && Printable(Obj(members)) && White(w) && White(z)
    ensures ParseMembers(w + (PrintMembers(members, depth, fmt) + (z + ("}" + rest)))) == Done(ReadsMembers(members), rest)
    decreases members
  {
    hide Reads, ReadsMembers, ParseMembers, ParseValue, ParseMember, PrintMembers, Print, Printable, Quoted, CString, If;
    var name, v := members[0].name, members[0].value;
    PrintIsDark(v, depth, fmt);
    Breaks(depth, fmt);
    FirstMember(members);
    var end := z + ("}" + rest);
    var lead, x, nl, text := If(fmt, Tabs(depth)), If(fmt, "\t"), If(fmt, "\n"), Print(v, depth, fmt);
    MemberText(members, depth, fmt, end);
    if |members| == 1 {
      var tail := nl + end;
      assert tail == (nl + z) + ("}" + rest);
      WhiteDelimits(nl + z, '}', rest);
      RoundTrip(v, depth, fmt, tail);
      MemberStep(w + lead, name, x, Reads(v), text, tail);
      Regroup(w, lead, Quoted(name) + ":" + x + text + tail);
      LastMember(members, w + (PrintMembers(members, depth, fmt) + end), tail, rest);
    } else {
      var more := nl + (PrintMembers(members[1..], depth, fmt) + end);
      var tail := "," + more;
      WhiteDelimits("", ',', more);
      assert "" + ([','] + more) == tail;
      RoundTrip(v, depth, fmt, tail);
      MemberStep(w + lead, name, x, Reads(v), text, tail);
      Regroup(w, lead, Quoted(name) + ":" + x + text + tail);
      MembersRoundTrip(members[1..], depth, fmt, nl, z, rest);
      NextMember(members, w + (PrintMembers(members, depth, fmt) + end), tail, rest);
    }
  }

  lemma FirstMember(members: seq<Member>)
    requires members != [] && Printable(Obj(members))
    ensures CString(members[0].name) && Printable(members[0].value) && Printable(Obj(members[1..]))
  {
  }

  lemma Regroup(a: string, b: string, c: string)
    ensures a + (b + c) == (a + b) + c
  {
  }

  lemma MemberText(members: seq<Member>, depth: nat, fmt: bool, end: string)
    requires members != []
    ensures var more := If(fmt, "\n") + (PrintMembers(members[1..], depth, fmt) + end);
            var tail := if |members| == 1 then If(fmt, "\n") + end else "," + more;
            PrintMembers(members, depth, fmt) + end ==
            If(fmt, Tabs(depth)) + (Quoted(members[0].name) + ":" + If(fmt, "\t") + Print(members[0].value, depth, fmt) + tail)
  {
    hide If, Quoted, Print, Tabs, PrintMembers;
    var a, q, x, p := If(fmt, Tabs(depth)), Quoted(members[0].name), If(fmt, "\t"), Print(members[0].value, depth, fmt);
    var m, nl := PrintMembers(members[1..], depth, fmt), If(fmt, "\n");
    var comma := if |members| == 1 then "" else ",";
    UnfoldMembers(members, depth, fmt);
    Unnest(a + q + ":" + x + p, comma, nl, m, end);
    Gather(a, q, ":", x, p, comma + (nl + (m + end)));
    if |members| == 1 { NoTail(nl, end); }
  }

  lemma UnfoldMembers(members: seq<Member>, depth: nat, fmt: bool)
    requires members != []
    ensures PrintMembers(members, depth, fmt) ==
            If(fmt, Tabs(depth)) + Quoted(members[0].name) + ":" + If(fmt, "\t") + Print(members[0].value, depth, fmt)
            + (if |members| == 1 then "" else ",") + If(fmt, "\n") + PrintMembers(members[1..], depth, fmt)
    ensures |members| == 1 ==> PrintMembers(members[1..], depth, fmt) == ""
  {
  }

  lemma NoTail(nl: string, end: string)
    ensures "" + (nl + ("" + end)) == nl + end
  {
  }

  lemma Unnest(pre: string, a: string, b: string, c: string, d: string)
    ensures pre + a + b + c + d == pre + (a + (b + (c + d)))
  {
    Regroup(pre + a + b, c, d);
    Regroup(pre + a, b, c + d);
    Regroup(pre, a, b + (c + d));
  }

  lemma Gather(a: string, b: string, c: string, d: string, e: string, t: string)
    ensures a + b + c + d + e + t == a + (b + c + d + e + t)
  {
    Regroup(a, b, c);
    Regroup(a, b + c, d);
    Regroup(a, b + c + d, e);
    Regroup(a, b + c + d + e, t);
  }

  lemma LastMember(members: seq<Member>, s: string, tail: string, rest: string)
    requires |members| == 1 && ParseMember(s) == Done(Member(members[0].name, Reads(members[0].value)), tail)
    requires Skip(tail) == "}" + rest
    ensures ParseMembers(s) == Done(ReadsMembers(members), rest)
  {
    hide Reads;
    assert ("}" + rest)[1..] == rest;
    assert [Member(members[0].name, Reads(members[0].value))] + [] == ReadsMembers(members);
  }

  lemma NextMember(members: seq<Member>, s: string, tail: string, rest: string)
    requires |members| > 1 && ParseMember(s) == Done(Member(members[0].name, Reads(members[0].value)), tail)
    requires Skip(tail) == tail && Begins(tail, ',') && ParseMembers(tail[1..]) == Done(ReadsMembers(members[1..]), rest)
    ensures ParseMembers(s) == Done(ReadsMembers(members), rest)
  {
    hide Reads, ReadsMembers;
    ReadsMembersStep(members);
  }

  lemma ReadsMembersStep(members: seq<Member>)
    requires members != []
    ensures ReadsMembers(members) == [Member(members[0].name, Reads(members[0].value))] + ReadsMembers(members[1..])
  {
  }

  // ---------------------------------------------------------------- whole texts

  /** cJSON_ParseWithOpts: one value, and if asked nothing but white space after it. */
  function Parse(text: string, toTheEnd: bool): Parsed<Json> {
    var p := ParseValue(Skip(text));
    if !p.Done? || !toTheEnd then p
    else if Skip(p.rest) == "" then Done(p.value, "") else Fail
  }

  /** What either printer writes, either way of parsing reads back. */
  lemma PrintThenParse(v: Json, fmt: bool, toTheEnd: bool)
    requires Printable(v)
    ensures Parse(Print(v, 0, fmt), toTheEnd) == Done(Reads(v), "")
  {
    hide ParseValue, Print, Reads;
    PrintIsDark(v, 0, fmt);
    SkipDark(Print(v, 0, fmt));
    RoundTrip(v, 0, fmt, "");
    assert Print(v, 0, fmt) + "" == Print(v, 0, fmt);
  }

  /** That is the tree itself exactly when its numbers are written without loss. */
  lemma {:induction false} ReadsIff(v: Json)
    ensures Reads(v) == v <==> Lossless(v)
    decreases v
  {
    hide Shown, Exact;
    match v
    case Number(d) => ShownIff(d);
    case Arr(items) => ReadsItemsIff(items);
    case Obj(members) => ReadsMembersIff(members);
    case _ =>
  }

  lemma {:induction false} ReadsItemsIff(items: seq<Json>)
    ensures ReadsItems(items) == items <==> forall i :: 0 <= i < |items| ==> Lossless(items[i])
    decreases items
  {
    hide Reads, Lossless;
    if items != [] {
      ReadsIff(items[0]);
      ReadsItemsIff(items[1..]);
      assert items == [items[0]] + items[1..];
      assert ReadsItems(items)[0] == Reads(items[0]) && ReadsItems(items)[1..] == ReadsItems(items[1..]);
      assert forall i :: 0 < i < |items| ==> items[i] == items[1..][i-1];
      assert forall i :: 0 <= i < |items[1..]| ==> items[1..][i] == items[i+1];
    }
  }

  lemma {:induction false} ReadsMembersIff(members: seq<Member>)
    ensures ReadsMembers(members) == members <==> forall i :: 0 <= i < |members| ==> Lossless(members[i].value)
    decreases members
  {
    hide Reads, Lossless;
    if members != [] {
      var m, r := members[0], members[1..];
      ReadsIff(m.value);
      ReadsMembersIff(r);
      assert members == [m] + r;
      assert ReadsMembers(members)[0] == Member(m.name, Reads(m.value)) && ReadsMembers(members)[1..] == ReadsMembers(r);
      assert forall i :: 0 < i < |members| ==> members[i] == r[i-1];
      assert forall i :: 0 <= i < |r| ==> r[i] == members[i+1];
    }
  }

  /** A tree survives printing and parsing exactly when its numbers are written without loss. */
  lemma SurvivesIff(v: Json, fmt: bool, toTheEnd: bool)
    requires Printable(v)
    ensures Parse(Print(v, 0, fmt), toTheEnd) == Done(v, "") <==> Lossless(v)
  {
    hide Parse, Print, Reads, Lossless;
    PrintThenParse(v, fmt, toTheEnd);
    ReadsIff(v);
  }

  /** 32-bit integers are printed as such and survive. */
  lemma IntegersSurvive(n: int)
    requires -0x8000_0000 <= n < 0x8000_0000
    ensures Printable(Number(n as real)) && Lossless(Number(n as real)) && NumberText(n as real) == Integer(n)
  {
    IntegerIsInt(n);
    Pow10Grows(10, 309);
    TenDigits();
  }

  lemma TenDigits()
    ensures Pow10(10) == 10000000000.0
  {
    TenMillion(9);
    assert Pow10(3) == 1000.0;
  }

  lemma IntegerIsInt(n: int)
    requires -0x8000_0000 <= n < 0x8000_0000
    ensures AsInt(n as real) && Toward0(n as real) == n && Whole(n as real)
  {
    IntFloor(n);
    IntFloor(-n);
    assert (-n) as real == -(n as real);
  }

  /** Ten to the -17 is written as 0. */
  lemma TinyIsLost()
    ensures AsInt(0.00000000000000001) && !Lossless(Number(0.00000000000000001))
  {
  }

  /** Of seven decimals the last is lost. */
  lemma SeventhDecimalIsLost()
    ensures !Lossless(Number(0.1234567))
  {
    assert (123456.7).Floor == 123456;
    assert Abs(0.1234567) * MILLION as real == 123456.7;
  }

  /** Different trees whose numbers are written without loss have different texts. */
  lemma PrintIsInjective(v: Json, w: Json, fmt: bool)
    requires Printable(v) && Printable(w) && Lossless(v) && Lossless(w) && Print(v, 0, fmt) == Print(w, 0, fmt)
    ensures v == w
  {
    hide Parse, Print, Reads, Lossless;
    SurvivesIff(v, fmt, false);
    SurvivesIff(w, fmt, false);
  }
}
