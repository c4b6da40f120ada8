/** JSON texts as they may be written (RFC 8259), with any white space, any escapes and any form of a number; the parser
    reads every one of them as what it means. */
module JsonGrammar {
  import opened JsonNumber
  import opened JsonText
  import opened JsonRoundTrip
  import opened JsonUnicode

  // ---------------------------------------------------------------- texts and what they mean

  datatype Doc =
    | Word(value: Json)
    | Figures(number: Figure)
    | Literal(pieces: seq<Piece>)
    | List(gap: string, items: seq<Item>)
    | Table(gap: string, pairs: seq<Pair>)

  datatype Item = Item(before: string, doc: Doc, after: string)
  datatype Pair = Pair(before: string, name: seq<Piece>, colon: string, space: string, doc: Doc, after: string)

  /** A character of a literal: as it is, after a backslash, or as a code point in one or two \u escapes. */
  datatype Piece = Plain(c: char) | Short(e: char) | Code(u: CodePoint, upper: bool)
  type CodePoint = u: nat | u < 0x110000

  /** A number: its digits, `places` of them behind the point, and perhaps a power of ten. */
  datatype Figure = Figure(negative: bool, whole: nat, part: nat, places: nat, power: TenTo)
  datatype TenTo = One | TenTo(letter: char, sign: string, x: nat, width: nat)

  predicate Proper(d: Doc)
    decreases d
  {
    match d
    case Word(v) => v == Null || v == False || v == True
    case Figures(f) => ProperFigure(f)
    case Literal(p) => ProperPieces(p)
    case List(gap, items) => White(gap) && forall i :: 0 <= i < |items| ==> ProperItem(items[i])
    case Table(gap, pairs) => White(gap) && forall i :: 0 <= i < |pairs| ==> ProperPair(pairs[i])
  }

  predicate ProperItem(i: Item) { White(i.before) && White(i.after) && Proper(i.doc) }

  predicate ProperPair(p: Pair) {
    White(p.before) && ProperPieces(p.name) && White(p.colon) && White(p.space) && White(p.after) && Proper(p.doc)
  }

  predicate ProperPieces(p: seq<Piece>) {
    forall i :: 0 <= i < |p| ==> ProperPiece(p[i])
  }

  predicate ProperPiece(p: Piece) {
    match p
    case Plain(c) => c != '\"' && c != '\\'
    case Short(e) => e in "\"\\/bfnrt"
    case Code(u, _) => u > 0 && !IsHigh(u) && !IsLow(u)
  }

  predicate ProperFigure(f: Figure) {
    f.part < Tens(f.places) && ProperPower(f.power)
  }

  predicate ProperPower(p: TenTo) {
    p.TenTo? ==> (p.letter == 'e' || p.letter == 'E') && p.sign in {"", "+", "-"} && p.width > 0 && p.x < Tens(p.width)
  }

  function Spell(d: Doc): string
    decreases d
  {
    match d
    case Word(v) => if v == Null then "null" else if v == False then "false" else "true"
    case Figures(f) => SpellFigure(f)
    case Literal(p) => "\"" + SpellPieces(p) + "\""
    case List(gap, items) => "[" + (if items == [] then gap else SpellItems(items)) + "]"
    case Table(gap, pairs) => "{" + (if pairs == [] then gap else SpellPairs(pairs)) + "}"
  }

  function SpellItems(items: seq<Item>): string
    decreases items
  {
    if items == [] then ""
    else
      items[0].before + (Spell(items[0].doc) + (items[0].after + (if |items| == 1 then "" else "," + SpellItems(items[1..]))))
  }

  function SpellPairs(pairs: seq<Pair>): string
    decreases pairs
  {
    if pairs == [] then ""
    else
      var p := pairs[0];
      p.before + ("\"" + SpellPieces(p.name) + "\"" + (p.colon + (":" + (p.space + (Spell(p.doc) + (p.after
      + (if |pairs| == 1 then "" else "," + SpellPairs(pairs[1..]))))))))
  }

  function SpellPieces(p: seq<Piece>): string {
    if p == [] then "" else SpellPiece(p[0]) + SpellPieces(p[1..])
  }

  function SpellPiece(p: Piece): string {
    match p
    case Plain(c) => [c]
    case Short(e) => ['\\', e]
    case Code(u, upper) => Utf16(u, upper)
  }

  function SpellFigure(f: Figure): string {
    (if f.negative then "-" else "") + Decimal(f.whole) + (if f.places == 0 then "" else "." + Padded(f.part, f.places))
    + SpellPower(f.power)
  }

  function SpellPower(p: TenTo): string {
    match p
    case One => ""
    case TenTo(letter, sign, x, width) => [letter] + sign + Padded(x, width)
  }

  function Meaning(d: Doc): Json
    decreases d
  {
    match d
    case Word(v) => v
    case Figures(f) => Number(Value(f))
    case Literal(p) => Str(MeaningOf(p))
    case List(_, items) => Arr(Meanings(items))
    case Table(_, pairs) => Obj(Members(pairs))
  }

  function Meanings(items: seq<Item>): (r: seq<Json>)
    ensures |r| == |items|
    decreases items
  {
    if items == [] then [] else [Meaning(items[0].doc)] + Meanings(items[1..])
  }

  function Members(pairs: seq<Pair>): (r: seq<Member>)
    ensures |r| == |pairs|
    decreases pairs
  {
    if pairs == [] then [] else [Member(MeaningOf(pairs[0].name), Meaning(pairs[0].doc))] + Members(pairs[1..])
  }

  function MeaningOf(p: seq<Piece>): string {
    if p == [] then "" else MeaningOfPiece(p[0]) + MeaningOf(p[1..])
  }

  function MeaningOfPiece(p: Piece): string {
    match p
    case Plain(c) => [c]
    case Short(e) =>
      [if e == 'b' then 8 as char else if e == 'f' then 12 as char else if e == 'n' then 10 as char
       else if e == 'r' then 13 as char else if e == 't' then 9 as char else e]
    case Code(u, _) => Utf8(u)
  }

  /** The whole number and the part behind the point, times a power of ten. */
  function Value(f: Figure): real {
    PowerShift(0, f.places);
    (if f.negative then -1.0 else 1.0) * (f.whole as real + f.part as real / Tens(f.places) as real) * Pow10(Power10(f.power))
  }

  function Power10(p: TenTo): int {
    if p.One? then 0 else if p.sign == "-" then 0 - p.x else p.x
  }

  // ---------------------------------------------------------------- literals

  lemma {:induction false} PiecesRead(p: seq<Piece>, rest: string)
    requires ProperPieces(p)
    ensures Fits(SpellPieces(p) + "\"" + rest) && Body(SpellPieces(p) + "\"" + rest) == (MeaningOf(p), rest)
  {
    hide Fits, Body, Utf16, Utf8;
    if p == [] {
      assert SpellPieces(p) + "\"" + rest == "\"" + rest;
      LiteralEnds(rest);
    } else {
      var t := SpellPieces(p[1..]) + "\"" + rest;
      PiecesRead(p[1..], rest);
      assert SpellPieces(p) + "\"" + rest == SpellPiece(p[0]) + t;
      match p[0]
      case Plain(c) => PlainCharacters(c, t);
      case Short(e) => ShortEscapes(e, t);
      case Code(u, upper) => EscapeReads(u, upper, t);
    }
  }

  lemma LiteralReads(p: seq<Piece>, rest: string)
    requires ProperPieces(p)
    ensures ParseString("\"" + SpellPieces(p) + "\"" + rest) == Done(MeaningOf(p), rest)
  {
    hide Fits, Body, SpellPieces, MeaningOf;
    PiecesRead(p, rest);
    assert ("\"" + SpellPieces(p) + "\"" + rest)[1..] == SpellPieces(p) + "\"" + rest;
  }

  // ---------------------------------------------------------------- numbers

  /** Digits in front of something else. */
  lemma WholeIs(whole: nat, t: string)
    requires t == [] || !IsDigit(t[0])
    ensures var a := Decimal(whole) + t;
            var b := if Begins(a, '0') then a[1..] else a;
            && a != [] && IsDigit(a[0])
            && (if b != [] && '1' <= b[0] <= '9' then Digits(0, b) else (0, b)) == (whole, t)
  {
    var a := Decimal(whole) + t;
    DecimalHead(whole);
    if whole == 0 {
      assert a[1..] == t;
    } else {
      DigitsOfDecimal(whole, t);
      NoDigits(whole, t);
    }
  }

  lemma PartIs(n: nat, part: nat, k: nat, t: string)
    requires (t == [] || !IsDigit(t[0])) && k > 0 && part < Tens(k)
    ensures var c := "." + Padded(part, k) + t;
            && |c| >= 2 && c[0] == '.' && IsDigit(c[1]) && |c| - 1 == k + |t|
            && Digits(n, c[1..]) == (n * Tens(k) + part, t)
  {
    var c := "." + Padded(part, k) + t;
    assert c[1..] == Padded(part, k) + t;
    PaddedHead(part, k);
    DigitsOfPadded(n, part, k, t);
    NoDigits(n * Tens(k) + part, t);
  }

  lemma PowerIs(p: TenTo, rest: string)
    requires Delimited(rest) && ProperPower(p)
    ensures var t := SpellPower(p) + rest;
            Exponent(t) == (Power10(p), rest) && (t == [] || (!IsDigit(t[0]) && t[0] != '.'))
  {
    hide Digits, Padded;
    match p
    case One => assert "" + rest == rest;
    case TenTo(letter, sign, x, width) =>
      var t, digits := SpellPower(p) + rest, Padded(x, width) + rest;
      assert t[1..] == sign + digits;
      PaddedHead(x, width);
      DigitsOfPadded(0, x, width, rest);
      NoDigits(x, rest);
      if sign == "" { assert sign + digits == digits; } else { assert (sign + digits)[1..] == digits; }
  }

  lemma FigureReads(f: Figure, rest: string)
    requires ProperFigure(f) && Delimited(rest)
    ensures var s := SpellFigure(f) + rest;
            (Begins(s, '-') || (s != [] && IsDigit(s[0]))) && ParseNumber(s) == Done(Number(Value(f)), rest)
  {
    hide Exponent, Value, Power10, Tens, SpellPower, ParseNumber;
    var t := SpellPower(f.power) + rest;
    var c := if f.places == 0 then t else "." + Padded(f.part, f.places) + t;
    PowerIs(f.power, rest);
    FigureText(f, t, c, rest);
    WholeIs(f.whole, c);
    if f.places > 0 { PartIs(f.whole, f.part, f.places, t); }
    var n := if f.places == 0 then f.whole else f.whole * Tens(f.places) + f.part;
    NumberIs(f.negative, f.whole, c, n, f.places, t, Power10(f.power), rest);
    ValueIs(f, n);
  }

  lemma FigureText(f: Figure, t: string, c: string, rest: string)
    requires t == SpellPower(f.power) + rest && c == if f.places == 0 then t else "." + Padded(f.part, f.places) + t
    ensures SpellFigure(f) + rest == (if f.negative then "-" else "") + (Decimal(f.whole) + c)
  {
    hide Decimal, Padded, SpellPower;
  }

  /** A number in its three parts. */
  lemma NumberIs(negative: bool, whole: nat, c: string, n: nat, k: nat, t: string, x: int, rest: string)
    requires var a := Decimal(whole) + c;
             var b := if Begins(a, '0') then a[1..] else a;
             && a != [] && IsDigit(a[0])
             && (if b != [] && '1' <= b[0] <= '9' then Digits(0, b) else (0, b)) == (whole, c)
    requires if k == 0 then c == t && n == whole && (t == [] || t[0] != '.')
             else |c| >= 2 && c[0] == '.' && IsDigit(c[1]) && |c| - 1 == k + |t| && Digits(whole, c[1..]) == (n, t)
    requires Exponent(t) == (x, rest)
    ensures var s := (if negative then "-" else "") + (Decimal(whole) + c);
            && (Begins(s, '-') || (s != [] && IsDigit(s[0])))
            && ParseNumber(s) == Done(Number(Scaled(if negative then -1.0 else 1.0, n, x - k)), rest)
  {
    hide Digits, Decimal, Exponent, Scaled;
    var a := Decimal(whole) + c;
    var s := (if negative then "-" else "") + a;
    assert negative ==> s[0] == '-' && s[1..] == a;
    assert !negative ==> s == a;
  }

  lemma ValueIs(f: Figure, n: nat)
    requires ProperFigure(f) && n == if f.places == 0 then f.whole else f.whole * Tens(f.places) + f.part
    ensures Value(f) == Scaled(if f.negative then -1.0 else 1.0, n, Power10(f.power) - f.places)
  {
    hide Pow10;
    var x, t := Power10(f.power), Tens(f.places) as real;
    PowerShift(x, f.places);
    assert f.places == 0 ==> f.part == 0 && Tens(f.places) == 1;
    assert n as real == f.whole as real * t + f.part as real;
    Distribute(f.whole as real, f.part as real, t, Pow10(x - f.places), n as real);
  }

  lemma Distribute(whole: real, part: real, t: real, p: real, n: real)
    requires t > 0.0 && n == whole * t + part
    ensures (whole + part / t) * (t * p) == n * p
  {
    var q := part / t;
    assert q * t == part;
    assert (whole + q) * t == n;
    assert (whole + q) * (t * p) == ((whole + q) * t) * p;
  }

  lemma {:induction false} PowerShift(x: int, k: nat)
    ensures Tens(k) > 0 && Tens(k) as real * Pow10(x - k) == Pow10(x)
  {
    if k > 0 {
      PowerShift(x, k - 1);
      Pow10Step(x - k);
      var a, b := Tens(k - 1) as real, Pow10(x - k);
      assert (10 * Tens(k - 1)) as real == 10.0 * a;
      assert (10.0 * a) * b == a * (10.0 * b);
    }
  }

  // ---------------------------------------------------------------- values

  lemma SpellIsDark(d: Doc)
    requires Proper(d)
    ensures Dark(Spell(d)) && Spell(d)[0] != ']' && Spell(d)[0] != '}'
  {
    hide SpellItems, SpellPairs, SpellPieces;
    match d
    case Figures(f) =>
      hide ParseNumber;
      FigureReads(f, "");
      assert SpellFigure(f) + "" == SpellFigure(f);
    case _ =>
  }

  /** Every text that is written like this is read as what it means, and what follows it is left alone. */
  lemma {:induction false} Parses(d: Doc, rest: string)
    requires Proper(d) && Delimited(rest)
    ensures ParseValue(Spell(d) + rest) == Done(Meaning(d), rest)
    decreases d
  {
    hide ParseString, ParseNumber, ParseValue, ParseItems, ParseMembers, SpellItems, SpellPairs, SpellPieces, SpellFigure,
         ProperFigure, ProperPieces, White, Meanings, Members;
    match d
    case Word(v) => JsonRoundTrip.Word(Spell(d), rest);
    case Figures(f) => FigureStep(f, rest);
    case Literal(p) => LiteralStep(p, rest);
    case List(gap, items) =>
      if items == [] {
        EmptyList(gap, rest);
      } else {
        var inner := SpellItems(items) + ("]" + rest);
        ItemsRead(items, rest);
        ArrayStep(inner, Meanings(items), rest);
        assert Spell(d) + rest == "[" + inner;
      }
    case Table(gap, pairs) =>
      if pairs == [] {
        EmptyObject(gap, rest);
        assert Spell(d) + rest == "{" + gap + "}" + rest;
        NoMembers();
      } else {
        var inner := SpellPairs(pairs) + ("}" + rest);
        PairsRead(pairs, rest);
        ObjectStep(inner, Members(pairs), rest);
        assert Spell(d) + rest == "{" + inner;
      }
  }

  lemma NoMembers()
    ensures Members([]) == [] && Meanings([]) == []
  {
  }

  lemma EmptyList(gap: string, rest: string)
    requires White(gap)
    ensures ParseValue(Spell(List(gap, [])) + rest) == Done(Meaning(List(gap, [])), rest)
  {
    hide ParseItems;
    var s := "[" + gap + "]" + rest;
    assert Spell(List(gap, [])) + rest == s;
    NoWord(s);
    WhiteDelimits(gap, ']', rest);
    assert s[1..] == gap + ([']'] + rest) && ([']'] + rest)[1..] == rest;
    NoMembers();
  }

  lemma FigureStep(f: Figure, rest: string)
    requires ProperFigure(f) && Delimited(rest)
    ensures ParseValue(SpellFigure(f) + rest) == Done(Number(Value(f)), rest)
  {
    hide ParseNumber, SpellFigure, Value;
    FigureReads(f, rest);
    NoWord(SpellFigure(f) + rest);
  }

  lemma LiteralStep(p: seq<Piece>, rest: string)
    requires ProperPieces(p)
    ensures ParseValue(Spell(Literal(p)) + rest) == Done(Str(MeaningOf(p)), rest)
  {
    hide ParseString, SpellPieces, MeaningOf;
    LiteralReads(p, rest);
    NoWord(Spell(Literal(p)) + rest);
  }

  lemma ItemsRead(items: seq<Item>, rest: string)
    requires items != [] && forall i :: 0 <= i < |items| ==> ProperItem(items[i])
    ensures ParseItems(SpellItems(items) + ("]" + rest)) == Done(Meanings(items), rest)
    ensures !Begins(Skip(SpellItems(items) + ("]" + rest)), ']')
    decreases items, 1
  {
    hide ParseItems, SpellItems, Meanings;
    ItemsThen(items, "]" + rest);
    assert ("]" + rest)[1..] == rest && Meanings(items) + [] == Meanings(items);
    LastOf("]" + rest, rest);
  }

  /** After items, what follows decides. */
  lemma {:induction false} ItemsThen(items: seq<Item>, tail: string)
    requires items != [] && (forall i :: 0 <= i < |items| ==> ProperItem(items[i])) && Delimited(tail)
    ensures ParseItems(SpellItems(items) + tail) == Prepend(Meanings(items), MoreItems(Skip(tail)))
    ensures !Begins(Skip(SpellItems(items) + tail), ']')
    decreases items, 0
  {
    hide ParseItems, ParseValue, MoreItems, SpellItems, Spell, Meanings, Meaning, Proper, Prepend;
    var i := items[0];
    var more := if |items| == 1 then "" else SpellItems(items[1..]) + tail;
    var next := if |items| == 1 then tail else "," + more;
    var text, behind := Spell(i.doc), i.after + next;
    ItemsText(items, tail, next);
    Gap(i.after, next);
    Parses(i.doc, behind);
    SpellIsDark(i.doc);
    ItemStep(i.before, Meaning(i.doc), text, behind);
    SkipWhite(i.before, text + behind);
    MeaningsStep(items);
    if |items| == 1 {
      assert [Meaning(i.doc)] + [] == [Meaning(i.doc)];
    } else {
      ItemsThen(items[1..], tail);
      MoreOf(next, more);
      PrependTwice([Meaning(i.doc)], Meanings(items[1..]), MoreItems(Skip(tail)));
    }
  }

  /** White space changes nothing about what follows it. */
  lemma {:induction false} Gap(w: string, s: string)
    requires White(w) && Delimited(s)
    ensures Delimited(w + s) && Skip(w + s) == Skip(s)
  {
    if w == [] {
      assert w + s == s;
    } else {
      assert (w + s)[1..] == w[1..] + s;
      Gap(w[1..], s);
    }
  }

  lemma PrependTwice<T>(a: seq<T>, b: seq<T>, p: Parsed<seq<T>>)
    ensures Prepend(a, Prepend(b, p)) == Prepend(a + b, p)
  {
    if p.Done? { assert a + (b + p.value) == (a + b) + p.value; }
  }

  lemma ItemsText(items: seq<Item>, end: string, next: string)
    requires items != [] && next == if |items| == 1 then end else "," + (SpellItems(items[1..]) + end)
    ensures SpellItems(items) + end == items[0].before + (Spell(items[0].doc) + (items[0].after + next))
  {
    hide Spell, SpellItems;
    var i, t := items[0], if |items| == 1 then "" else "," + SpellItems(items[1..]);
    ItemsUnfold(items, t);
    Joined(t, if |items| == 1 then "" else SpellItems(items[1..]), end, |items| == 1);
    Behind3(i.before, Spell(i.doc), i.after, t, end);
  }

  lemma ItemsUnfold(items: seq<Item>, t: string)
    requires items != [] && t == if |items| == 1 then "" else "," + SpellItems(items[1..])
    ensures SpellItems(items) == items[0].before + (Spell(items[0].doc) + (items[0].after + t))
  {
    hide Spell;
  }

  lemma Joined(t: string, more: string, end: string, last: bool)
    requires t == if last then "" else "," + more
    ensures t + end == if last then end else "," + (more + end)
  {
    if last { assert "" + end == end; } else { Regroup(",", more, end); }
  }

  lemma Behind3(a: string, b: string, c: string, t: string, end: string)
    ensures a + (b + (c + t)) + end == a + (b + (c + (t + end)))
  {
    Regroup(c, t, end);
    Regroup(b, c + t, end);
    Regroup(a, b + (c + t), end);
  }

  lemma MeaningsStep(items: seq<Item>)
    requires items != []
    ensures Meanings(items) == [Meaning(items[0].doc)] + Meanings(items[1..])
    ensures |items| == 1 ==> Meanings(items[1..]) == []
  {
    hide Meaning;
  }

  lemma LastOf(next: string, rest: string)
    requires next != [] && next[0] == ']' && next[1..] == rest
    ensures MoreItems(next) == Done([], rest)
  {
  }

  lemma MoreOf(next: string, more: string)
    requires next != [] && next[0] == ',' && next[1..] == more
    ensures MoreItems(next) == ParseItems(more)
  {
    hide ParseItems;
  }

  /** A name, a colon and a value, with white space around them. */
  lemma PairStep(p: Pair, v: Json, text: string, tail: string)
    requires White(p.before) && White(p.colon) && White(p.space) && ProperPieces(p.name)
    requires Dark(text) && ParseValue(text + tail) == Done(v, tail)
    ensures var s := p.before + ("\"" + SpellPieces(p.name) + "\"" + (p.colon + (":" + (p.space + (text + tail)))));
            ParseMember(s) == Done(Member(MeaningOf(p.name), v), tail) && !Begins(Skip(s), '}')
  {
    hide ParseValue, ParseString, SpellPieces, MeaningOf, ProperPieces;
    var after := ":" + (p.space + (text + tail));
    var rest := p.colon + after;
    var name := "\"" + SpellPieces(p.name) + "\"" + rest;
    SkipWhite(p.before, name);
    LiteralReads(p.name, rest);
    SkipWhite(p.colon, after);
    assert after[1..] == p.space + (text + tail);
    SkipWhite(p.space, text + tail);
  }

  lemma PairsRead(pairs: seq<Pair>, rest: string)
    requires pairs != [] && forall i :: 0 <= i < |pairs| ==> ProperPair(pairs[i])
    ensures ParseMembers(SpellPairs(pairs) + ("}" + rest)) == Done(Members(pairs), rest)
    ensures !Begins(Skip(SpellPairs(pairs) + ("}" + rest)), '}')
    decreases pairs, 1
  {
    hide ParseMembers, SpellPairs, Members;
    PairsThen(pairs, "}" + rest);
    assert ("}" + rest)[1..] == rest && Members(pairs) + [] == Members(pairs);
    LastMemberOf("}" + rest, rest);
  }

  lemma {:induction false} PairsThen(pairs: seq<Pair>, tail: string)
    requires pairs != [] && (forall i :: 0 <= i < |pairs| ==> ProperPair(pairs[i])) && Delimited(tail)
    ensures ParseMembers(SpellPairs(pairs) + tail) == Prepend(Members(pairs), MoreMembers(Skip(tail)))
    ensures !Begins(Skip(SpellPairs(pairs) + tail), '}')
    decreases pairs, 0
  {
    hide ParseMembers, ParseMember, ParseValue, MoreMembers, SpellPairs, Spell, SpellPieces, Members, Meaning, MeaningOf, Proper,
         Prepend;
    var p := pairs[0];
    var more := if |pairs| == 1 then "" else SpellPairs(pairs[1..]) + tail;
    var next := if |pairs| == 1 then tail else "," + more;
    var text, behind := Spell(p.doc), p.after + next;
    PairsText(pairs, tail, next);
    Gap(p.after, next);
    Parses(p.doc, behind);
    SpellIsDark(p.doc);
    PairStep(p, Meaning(p.doc), text, behind);
    MembersStep(pairs);
    FirstMember(SpellPairs(pairs) + tail, Member(MeaningOf(p.name), Meaning(p.doc)), behind);
    if |pairs| == 1 {
      assert [Members(pairs)[0]] + [] == [Members(pairs)[0]];
    } else {
      PairsThen(pairs[1..], tail);
      MoreMembersOf(next, more);
      PrependTwice([Members(pairs)[0]], Members(pairs[1..]), MoreMembers(Skip(tail)));
    }
  }

  lemma PairsText(pairs: seq<Pair>, end: string, next: string)
    requires pairs != [] && next == if |pairs| == 1 then end else "," + (SpellPairs(pairs[1..]) + end)
    ensures var p := pairs[0];
            SpellPairs(pairs) + end ==
            p.before + ("\"" + SpellPieces(p.name) + "\"" + (p.colon + (":" + (p.space + (Spell(p.doc) + (p.after + next))))))
  {
    hide Spell, SpellPieces, SpellPairs;
    var p, t := pairs[0], if |pairs| == 1 then "" else "," + SpellPairs(pairs[1..]);
    PairsUnfold(pairs, t);
    Joined(t, if |pairs| == 1 then "" else SpellPairs(pairs[1..]), end, |pairs| == 1);
    Behind7(p.before, "\"" + SpellPieces(p.name) + "\"", p.colon, p.space, Spell(p.doc), p.after, t, end);
  }

  lemma PairsUnfold(pairs: seq<Pair>, t: string)
    requires pairs != [] && t == if |pairs| == 1 then "" else "," + SpellPairs(pairs[1..])
    ensures var p := pairs[0];
            SpellPairs(pairs) ==
            p.before + ("\"" + SpellPieces(p.name) + "\"" + (p.colon + (":" + (p.space + (Spell(p.doc) + (p.after + t))))))
  {
    hide Spell, SpellPieces;
  }

  lemma Behind7(a: string, b: string, c: string, d: string, e: string, f: string, t: string, end: string)
    ensures a + (b + (c + (":" + (d + (e + (f + t)))))) + end == a + (b + (c + (":" + (d + (e + (f + (t + end)))))))
  {
    var v := d + (e + (f + t));
    Behind3(d, e, f, t, end);
    Behind3(b, c, ":", v, end);
    Regroup(a, b + (c + (":" + v)), end);
  }

  lemma MembersStep(pairs: seq<Pair>)
    requires pairs != []
    ensures Members(pairs) == [Member(MeaningOf(pairs[0].name), Meaning(pairs[0].doc))] + Members(pairs[1..])
    ensures |pairs| == 1 ==> Members(pairs[1..]) == []
  {
    hide Meaning, MeaningOf;
  }

  lemma FirstMember(s: string, m: Member, tail: string)
    requires ParseMember(s) == Done(m, tail)
    ensures ParseMembers(s) == Prepend([m], MoreMembers(Skip(tail)))
  {
    hide ParseMember, MoreMembers;
  }

  lemma LastMemberOf(next: string, rest: string)
    requires next != [] && next[0] == '}' && next[1..] == rest
    ensures MoreMembers(next) == Done([], rest)
  {
  }

  lemma MoreMembersOf(next: string, more: string)
    requires next != [] && next[0] == ',' && next[1..] == more
    ensures MoreMembers(next) == ParseMembers(more)
  {
    hide ParseMembers;
  }

  /** A whole text, with white space around it. */
  lemma TextParses(before: string, d: Doc, after: string, toTheEnd: bool)
    requires White(before) && White(after) && Proper(d)
    ensures Parse(before + Spell(d) + after, toTheEnd) == Done(Meaning(d), if toTheEnd then "" else after)
  {
    hide ParseValue, Spell, Meaning, Proper;
    SpellIsDark(d);
    Parses(d, after) by { assert after != [] ==> after[0] as int <= 32; }
    assert before + Spell(d) + after == before + (Spell(d) + after);
    SkipWhite(before, Spell(d) + after);
    AllWhite(after);
  }

  lemma {:induction false} AllWhite(w: string)
    requires White(w)
    ensures Skip(w) == ""
  {
    if w != [] { AllWhite(w[1..]); }
  }

  // ---------------------------------------------------------------- what is refused

  /** Nothing else begins a value. */
  lemma NoValue(s: string)
    requires s == "" || s[0] !in "-0123456789\"[{"
    requires !StartsWith(s, "null") && !StartsWith(s, "false") && !StartsWith(s, "true")
    ensures ParseValue(s) == Fail
  {
    assert forall c: char :: '0' <= c <= '9' ==> c in "-0123456789\"[{";
  }

  /** After an item there must be a comma or the bracket. */
  lemma ArrayRefused(items: seq<Item>, tail: string)
    requires items != [] && (forall i :: 0 <= i < |items| ==> ProperItem(items[i])) && Delimited(tail)
    requires Skip(tail) == "" || (Skip(tail)[0] != ',' && Skip(tail)[0] != ']')
    ensures ParseValue("[" + (SpellItems(items) + tail)) == Fail
  {
    hide ParseItems, SpellItems, Meanings;
    ItemsThen(items, tail);
    Bracketed('[', SpellItems(items) + tail);
  }

  /** After a comma there must be another item. */
  lemma TrailingComma(items: seq<Item>, tail: string)
    requires items != [] && forall i :: 0 <= i < |items| ==> ProperItem(items[i])
    requires ParseValue(Skip(tail)) == Fail
    ensures ParseValue("[" + (SpellItems(items) + ("," + tail))) == Fail
  {
    hide ParseValue, ParseItems, SpellItems, Meanings;
    var next := "," + tail;
    ItemsThen(items, next);
    SkipDark(next);
    assert next[1..] == tail;
    MoreOf(next, tail);
    assert ParseItems(tail) == Fail by { NoItem(tail); }
    Bracketed('[', SpellItems(items) + next);
  }

  lemma NoItem(s: string)
    requires ParseValue(Skip(s)) == Fail
    ensures ParseItems(s) == Fail
  {
    hide ParseValue;
  }

  lemma Bracketed(c: char, s: string)
    ensures c == '[' && ParseItems(s) == Fail && !Begins(Skip(s), ']') ==> ParseValue([c] + s) == Fail
    ensures c == '{' && ParseMembers(s) == Fail && !Begins(Skip(s), '}') ==> ParseValue([c] + s) == Fail
  {
    hide ParseItems, ParseMembers;
    assert ([c] + s)[1..] == s;
    if c == '[' || c == '{' { NoWord([c] + s); }
  }

  /** After a member there must be a comma or the brace, */
  lemma ObjectRefused(pairs: seq<Pair>, tail: string)
    requires pairs != [] && (forall i :: 0 <= i < |pairs| ==> ProperPair(pairs[i])) && Delimited(tail)
    requires Skip(tail) == "" || (Skip(tail)[0] != ',' && Skip(tail)[0] != '}')
    ensures ParseValue("{" + (SpellPairs(pairs) + tail)) == Fail
  {
    hide ParseMembers, SpellPairs, Members;
    PairsThen(pairs, tail);
    Bracketed('{', SpellPairs(pairs) + tail);
  }

  /** and after a comma another member. */
  lemma TrailingMember(pairs: seq<Pair>, tail: string)
    requires pairs != [] && (forall i :: 0 <= i < |pairs| ==> ProperPair(pairs[i])) && ParseMember(tail) == Fail
    ensures ParseValue("{" + (SpellPairs(pairs) + ("," + tail))) == Fail
  {
    hide ParseMember, SpellPairs, Members;
    var next := "," + tail;
    PairsThen(pairs, next);
    SkipDark(next);
    assert next[1..] == tail;
    MoreMembersOf(next, tail);
    Bracketed('{', SpellPairs(pairs) + next);
  }

  /** A member begins with a literal and has a colon behind it. */
  lemma NoMember(s: string)
    requires Skip(s) == "" || Skip(s)[0] != '\"'
    ensures ParseMember(s) == Fail
  {
  }

  lemma NoColon(before: string, name: seq<Piece>, rest: string)
    requires White(before) && ProperPieces(name)
    requires Skip(rest) == "" || Skip(rest)[0] != ':'
    ensures ParseMember(before + ("\"" + SpellPieces(name) + "\"" + rest)) == Fail
  {
    hide ParseValue, ParseString, SpellPieces, MeaningOf;
    SkipWhite(before, "\"" + SpellPieces(name) + "\"" + rest);
    LiteralReads(name, rest);
  }

  /** If asked, nothing but white space may follow a text. */
  lemma TextRefused(before: string, d: Doc, tail: string)
    requires White(before) && Proper(d) && Delimited(tail) && Skip(tail) != ""
    ensures Parse(before + Spell(d) + tail, true) == Fail && Parse(before + Spell(d) + tail, false) == Done(Meaning(d), tail)
  {
    hide ParseValue, Spell, Meaning, Proper;
    SpellIsDark(d);
    Parses(d, tail);
    assert before + Spell(d) + tail == before + (Spell(d) + tail);
    SkipWhite(before, Spell(d) + tail);
  }
}
