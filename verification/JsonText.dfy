/** JSON trees and their texts. A text is a zero-free string; a pointer into it is a suffix of it. */
module JsonText {
  import opened JsonNumber

  datatype Json =
    | Null
    | False
    | True
    | Number(value: real)
    | Str(text: string)
    | Arr(items: seq<Json>)
    | Obj(members: seq<Member>)

  datatype Member = Member(name: string, value: Json)

  // ---------------------------------------------------------------- printing

  predicate CString(s: string) {
    forall i :: 0 <= i < |s| ==> 0 < s[i] as int < 256
  }

  /** Trees of null, booleans, numbers, zero-free byte strings, arrays and objects. */
  predicate Printable(v: Json) {
    match v
    case Null | False | True => true
    case Number(d) => Finite(d)
    case Str(s) => CString(s)
    case Arr(items) => forall i :: 0 <= i < |items| ==> Printable(items[i])
    case Obj(members) => forall i :: 0 <= i < |members| ==> CString(members[i].name) && Printable(members[i].value)
  }

  function HexDigit(d: nat): char
    requires d < 16
  {
    if d < 10 then '0' + d as char else 'a' + (d - 10) as char
  }

  /** A character inside a string literal. */
  function Escaped(c: char): string {
    if c == '\\' then "\\\\"
    else if c == '\"' then "\\\""
    else if c as int == 8 then "\\b"
    else if c as int == 12 then "\\f"
    else if c == '\n' then "\\n"
    else if c == '\r' then "\\r"
    else if c == '\t' then "\\t"
    else if c as int < 32 then ['\\', 'u', '0', '0', HexDigit(c as int / 16), HexDigit(c as int % 16)]
    else [c]
  }

  function EscapedAll(s: string): string {
    if s == [] then [] else Escaped(s[0]) + EscapedAll(s[1..])
  }

  function Quoted(s: string): string {
    "\"" + EscapedAll(s) + "\""
  }

  function Tabs(n: nat): string {
    seq(n, i => '\t')
  }

  function If(fmt: bool, s: string): string {
    if fmt then s else ""
  }

  /** The tree its text stands for: what a number is written as. */
  function Reads(v: Json): Json
    decreases v
  {
    match v
    case Number(d) => Number(Shown(d))
    case Arr(items) => Arr(ReadsItems(items))
    case Obj(members) => Obj(ReadsMembers(members))
    case _ => v
  }

  function ReadsItems(items: seq<Json>): (r: seq<Json>)
    ensures |r| == |items|
    decreases items
  {
    if items == [] then [] else [Reads(items[0])] + ReadsItems(items[1..])
  }

  function ReadsMembers(members: seq<Member>): (r: seq<Member>)
    ensures |r| == |members|
    decreases members
  {
    if members == [] then []
    else [Member(members[0].name, Reads(members[0].value))] + ReadsMembers(members[1..])
  }

  /** Every number in it is written without loss. */
  predicate Lossless(v: Json)
    decreases v
  {
    match v
    case Number(d) => Exact(d)
    case Arr(items) => forall i :: 0 <= i < |items| ==> Lossless(items[i])
    case Obj(members) => forall i :: 0 <= i < |members| ==> Lossless(members[i].value)
    case _ => true
  }

  /** The text of a tree `depth` levels down; `fmt` adds line breaks and tabs. */
  function Print(v: Json, depth: nat, fmt: bool): string
    decreases v
  {
    match v
    case Null => "null"
    case False => "false"
    case True => "true"
    case Number(d) => NumberText(d)
    case Str(s) => Quoted(s)
    case Arr(items) => "[" + PrintItems(items, depth + 1, fmt) + "]"
    case Obj(members) =>
      if members == [] then "{" + If(fmt, "\n" + Tabs(if depth == 0 then 0 else depth - 1)) + "}"
      else "{" + If(fmt, "\n") + PrintMembers(members, depth + 1, fmt) + If(fmt, Tabs(depth)) + "}"
  }

  function PrintItems(items: seq<Json>, depth: nat, fmt: bool): string
    decreases items
  {
    if items == [] then ""
    else Print(items[0], depth, fmt)
         + (if |items| == 1 then "" else "," + If(fmt, " ") + PrintItems(items[1..], depth, fmt))
  }

  function PrintMembers(members: seq<Member>, depth: nat, fmt: bool): string
    decreases members
  {
    if members == [] then ""
    else If(fmt, Tabs(depth)) + Quoted(members[0].name) + ":" + If(fmt, "\t") + Print(members[0].value, depth, fmt)
         + (if |members| == 1 then "" else ",") + If(fmt, "\n") + PrintMembers(members[1..], depth, fmt)
  }

  // ---------------------------------------------------------------- parsing

  /** `Overrun`: the two passes over a string literal read behind the text or write behind their buffer. */
  datatype Parsed<T> = Done(value: T, rest: string) | Fail | Overrun

  predicate Begins(s: string, c: char) {
    s != [] && s[0] == c
  }

  function Skip(s: string): (r: string)
    ensures |r| <= |s|
  {
    if s != [] && s[0] as int <= 32 then Skip(s[1..]) else s
  }

  // ----- strings

  function HexValue(c: char): int {
    if '0' <= c <= '9' then c as int - '0' as int
    else if 'A' <= c <= 'F' then c as int - 'A' as int + 10
    else if 'a' <= c <= 'f' then c as int - 'a' as int + 10
    else -1
  }

  /** Four hexadecimal digits, or 0. */
  function Hex4(s: string): (h: nat)
    requires |s| >= 4
    ensures h < 0x10000
  {
    var a, b, c, d := HexValue(s[0]), HexValue(s[1]), HexValue(s[2]), HexValue(s[3]);
    if a < 0 || b < 0 || c < 0 || d < 0 then 0 else a * 4096 + b * 256 + c * 16 + d
  }

  /** The bytes of a code point in UTF-8. */
  function Utf8(u: nat): (s: string)
    requires u < 0x110000
    ensures 1 <= |s| <= 4
  {
    if u < 0x80 then [u as char]
    else if u < 0x800 then [(0xC0 + u / 64) as char, (0x80 + u % 64) as char]
    else if u < 0x10000 then [(0xE0 + u / 4096) as char, (0x80 + u / 64 % 64) as char, (0x80 + u % 64) as char]
    else [(0xF0 + u / 262144) as char, (0x80 + u / 4096 % 64) as char, (0x80 + u / 64 % 64) as char, (0x80 + u % 64) as char]
  }

  function Unescaped(c: char): char {
    match c
    case 'b' => 8 as char
    case 'f' => 12 as char
    case 'n' => '\n'
    case 'r' => '\r'
    case 't' => '\t'
    case _ => c
  }

  function IsHigh(u: nat): bool { 0xD800 <= u <= 0xDBFF }
  function IsLow(u: nat): bool { 0xDC00 <= u <= 0xDFFF }

  /** Half a surrogate pair, and another escape behind it. */
  predicate IsPair(r: string)
    requires |r| >= 6
  {
    IsHigh(Hex4(r[2..6])) && |r| >= 8 && r[6] == '\\' && r[7] == 'u'
  }

  /** How many characters the second pass takes in one step; it looks for no closing quote among them. */
  function Stride(r: string): (k: nat)
    requires r != []
    ensures 1 <= k <= 12
  {
    if r[0] != '\\' then 1
    else if |r| < 2 || r[1] != 'u' then 2
    else if |r| < 6 || !IsPair(r) then 6
    else 12
  }

  /** What a \u escape at the front of `r` stands for. */
  function Unicode(r: string): (bytes: string)
    requires Begins(r, '\\') && |r| >= 6 && r[1] == 'u' && Stride(r) <= |r|
    ensures |bytes| <= 4
  {
    var u := Hex4(r[2..6]);
    if IsLow(u) || u == 0 then []
    else if !IsHigh(u) then Utf8(u)
    else if !IsPair(r) then []
    else
      var w := Hex4(r[8..12]);
      if !IsLow(w) then [] else Utf8(0x10000 + u % 1024 * 1024 + w % 1024)
  }

  /** What the second pass writes in one step. */
  function Written(r: string): (bytes: string)
    requires r != [] && Stride(r) <= |r|
    ensures |bytes| <= 4
  {
    if r[0] != '\\' then [r[0]] else if r[1] != 'u' then [Unescaped(r[1])] else Unicode(r)
  }

  /** `n`, and `more` unless that is an end behind the text. */
  function Onto(n: nat, more: int): int { if more < 0 then -1 else n + more }

  /** How many characters the second pass writes up to a quote it sees or the end of the text; -1 if it steps
      behind that. */
  function Filled(r: string): (n: int)
    ensures n >= -1
    decreases |r|
  {
    if r == [] || r[0] == '\"' then 0
    else if Stride(r) > |r| then -1
    else Onto(|Written(r)|, Filled(r[Stride(r)..]))
  }

  /** How many characters the first pass counts, one for each escape; -1 if it steps behind the end. `inside`: it has
      just passed a backslash. */
  function Counted(r: string, inside: bool): (n: int)
    ensures n >= -1
  {
    if r == [] then if inside then -1 else 0
    else if !inside && r[0] == '\"' then 0
    else Onto(if inside then 0 else 1, Counted(r[1..], !inside && r[0] == '\\'))
  }

  function Count(r: string): int { Counted(r, false) }

  /** Both passes stay inside the text, and the second inside the buffer that the first sized. */
  predicate Fits(r: string) { 0 <= Filled(r) <= Count(r) }

  /** The content of a literal and what follows it; the end of the text closes it too. */
  function Body(r: string): (p: (string, string))
    requires Filled(r) >= 0
    ensures |p.1| <= |r| && |p.0| == Filled(r)
    decreases |r|
  {
    if r == [] then ([], [])
    else if r[0] == '\"' then ([], r[1..])
    else var p := Body(r[Stride(r)..]); (Written(r) + p.0, p.1)
  }

  /** One step of the second pass. */
  lemma OneStep(r: string)
    requires r != [] && r[0] != '\"' && Stride(r) <= |r|
    ensures Filled(r) == Onto(|Written(r)|, Filled(r[Stride(r)..]))
    ensures Filled(r) >= 0 ==>
              Body(r) == (Written(r) + Body(r[Stride(r)..]).0, Body(r[Stride(r)..]).1)
  {
  }

  function ParseString(s: string): (p: Parsed<string>)
    ensures p.Done? ==> |p.rest| < |s|
  {
    if !Begins(s, '\"') then Fail
    else if !Fits(s[1..]) then Overrun
    else var (text, rest) := Body(s[1..]); Done(text, rest)
  }

  // ----- numbers

  predicate IsDigit(c: char) { '0' <= c <= '9' }

  /** Read digits onto `n`. */
  function Digits(n: nat, s: string): (p: (nat, string))
    ensures |p.1| <= |s|
    decreases |s|
  {
    if s != [] && IsDigit(s[0]) then Digits(n * 10 + (s[0] as int - '0' as int), s[1..]) else (n, s)
  }

  function Exponent(s: string): (p: (int, string))
    ensures |p.1| <= |s|
  {
    if s == [] || (s[0] != 'e' && s[0] != 'E') then (0, s)
    else
      var t := s[1..];
      var (x, r) := Digits(0, if Begins(t, '+') || Begins(t, '-') then t[1..] else t);
      (if Begins(t, '-') then 0 - x else x, r)
  }

  function ParseNumber(s: string): (p: Parsed<Json>)
    requires Begins(s, '-') || (s != [] && IsDigit(s[0]))
    ensures p.Done? && |p.rest| < |s|
  {
    var negative := s[0] == '-';
    var a := if negative then s[1..] else s;
    var b := if Begins(a, '0') then a[1..] else a;
    var (n, c) := if b != [] && '1' <= b[0] <= '9' then Digits(0, b) else (0, b);
    var (m, d) := if |c| >= 2 && c[0] == '.' && IsDigit(c[1]) then Digits(n, c[1..]) else (n, c);
    var scale := if |c| >= 2 && c[0] == '.' && IsDigit(c[1]) then |d| - (|c| - 1) else 0;
    var (e, r) := Exponent(d);
    DigitsShorter(0, b);
    Done(Number(Scaled(if negative then -1.0 else 1.0, m, scale + e)), r)
  }

  lemma DigitsShorter(n: nat, s: string)
    ensures s != [] && IsDigit(s[0]) ==> |Digits(n, s).1| < |s|
  {
  }

  // ----- values

  function Prepend<T>(front: seq<T>, p: Parsed<seq<T>>): Parsed<seq<T>> {
    if p.Done? then Done(front + p.value, p.rest) else p
  }

  predicate StartsWith(s: string, word: string) {
    |word| <= |s| && s[..|word|] == word
  }

  function ParseValue(s: string): (p: Parsed<Json>)
    ensures p.Done? ==> |p.rest| < |s|
    decreases |s|, 0
  {
    if StartsWith(s, "null") then Done(Null, s[4..])
    else if StartsWith(s, "false") then Done(False, s[5..])
    else if StartsWith(s, "true") then Done(True, s[4..])
    else if s == [] then Fail
    else if s[0] == '\"' then
      (match ParseString(s) case Done(t, r) => Done(Str(t), r) case Fail => Fail case Overrun => Overrun)
    else if s[0] == '-' || IsDigit(s[0]) then ParseNumber(s)
    else if s[0] == '[' then
      if Begins(Skip(s[1..]), ']') then Done(Arr([]), Skip(s[1..])[1..])
      else match ParseItems(s[1..]) case Done(items, r) => Done(Arr(items), r) case Fail => Fail case Overrun => Overrun
    else if s[0] == '{' then
      if Begins(Skip(s[1..]), '}') then Done(Obj([]), Skip(s[1..])[1..])
      else match ParseMembers(s[1..]) case Done(ms, r) => Done(Obj(ms), r) case Fail => Fail case Overrun => Overrun
    else Fail
  }

  function ParseItems(s: string): (p: Parsed<seq<Json>>)
    ensures p.Done? ==> |p.rest| < |s|
    decreases |s|, 2
  {
    match ParseValue(Skip(s))
    case Done(v, r) => Prepend([v], MoreItems(Skip(r)))
    case Fail => Fail
    case Overrun => Overrun
  }

  function MoreItems(s: string): (p: Parsed<seq<Json>>)
    ensures p.Done? ==> |p.rest| < |s|
    decreases |s|, 1
  {
    if Begins(s, ',') then ParseItems(s[1..])
    else if Begins(s, ']') then Done([], s[1..])
    else Fail
  }

  function ParseMember(s: string): (p: Parsed<Member>)
    ensures p.Done? ==> |p.rest| < |s|
    decreases |s|, 1
  {
    match ParseString(Skip(s))
    case Done(name, r) =>
      if !Begins(Skip(r), ':') then Fail
      else (match ParseValue(Skip(Skip(r)[1..]))
            case Done(v, q) => Done(Member(name, v), q)
            case Fail => Fail
            case Overrun => Overrun)
    case Fail => Fail
    case Overrun => Overrun
  }

  function ParseMembers(s: string): (p: Parsed<seq<Member>>)
    ensures p.Done? ==> |p.rest| < |s|
    decreases |s|, 2
  {
    match ParseMember(s)
    case Done(m, r) => Prepend([m], MoreMembers(Skip(r)))
    case Fail => Fail
    case Overrun => Overrun
  }

  function MoreMembers(s: string): (p: Parsed<seq<Member>>)
    ensures p.Done? ==> |p.rest| < |s|
    decreases |s|, 1
  {
    if Begins(s, ',') then ParseMembers(s[1..])
    else if Begins(s, '}') then Done([], s[1..])
    else Fail
  }
}
