/** The printers of cJSON.c: each sizes a buffer first and then fills it. */
module JsonPrinter {
  import opened JsonNumber
  import opened JsonText
  import opened JsonRoundTrip

  /** A buffer with a zero-terminated string in it. */
  ghost predicate Holds(out: array<char>, t: string)
    reads out
  {
    |t| < out.Length && out[..|t|] == t && out[|t|] == '\0'
  }

  method Emit(out: array<char>, p: nat, t: string) returns (q: nat)
    requires p + |t| <= out.Length
    modifies out
    ensures q == p + |t| && out[..q] == old(out[..p]) + t
  {
    var k := 0;
    while k < |t|
      invariant 0 <= k <= |t|
      invariant out[..p+k] == old(out[..p]) + t[..k]
    {
      out[p+k] := t[k];
      assert out[..p+k+1] == out[..p+k] + [t[k]];
      assert t[..k+1] == t[..k] + [t[k]];
      k := k + 1;
    }
    assert t[..|t|] == t;
    q := p + k;
  }

  /** strcpy to `p`, except for the zero */
  method Copy(out: array<char>, p: nat, src: array<char>, ghost t: string) returns (q: nat)
    requires out != src && Holds(src, t) && ('\0' !in t) && p + |t| <= out.Length
    modifies out
    ensures q == p + |t| && out[..q] == old(out[..p]) + t
  {
    var n := Strlen(src, t);
    q := Emit(out, p, src[..n]);
  }

  method Strlen(src: array<char>, ghost t: string) returns (n: nat)
    requires Holds(src, t) && ('\0' !in t)
    ensures n == |t|
  {
    n := 0;
    assert forall i :: 0 <= i < |t| ==> src[i] == src[..|t|][i] == t[i] && t[i] in t;
    while src[n] != '\0'
      invariant n <= |t|
      decreases |t| - n
    {
      n := n + 1;
    }
  }

  // ---------------------------------------------------------------- strings and numbers

  lemma EscapedTail(s: string, i: nat)
    requires i < |s|
    ensures EscapedAll(s[i..]) == Escaped(s[i]) + EscapedAll(s[i+1..])
  {
    assert s[i..][1..] == s[i+1..];
  }

  /** print_string_ptr: the buffer is exactly as long as the literal and its zero. */
  method PrintStringPtr(s: string) returns (out: array<char>)
    requires CString(s)
    ensures fresh(out) && Holds(out, Quoted(s)) && out.Length == |Quoted(s)| + 1
  {
    hide EscapedAll;
    var len, i := 0, 0;
    assert s[0..] == s;
    while i < |s|
      invariant 0 <= i <= |s|
      invariant len + |EscapedAll(s[i..])| == |EscapedAll(s)|
    {
      EscapedTail(s, i);
      len := len + 1;
      if s[i] in "\"\\\n\r\t" || s[i] as int == 8 || s[i] as int == 12 { len := len + 1; }
      else if s[i] as int < 32 { len := len + 5; }
      i := i + 1;
    }
    NothingEscaped(s[i..]);
    out := new char[len + 3];
    out[0] := '\"';
    var p := 1;
    assert out[..p] + EscapedAll(s) == "\"" + EscapedAll(s);
    i := 0;
    while i < |s|
      invariant 0 <= i <= |s| && fresh(out) && out.Length == len + 3
      invariant 1 <= p <= len + 1 && out[..p] + EscapedAll(s[i..]) == "\"" + EscapedAll(s)
    {
      EscapedTail(s, i);
      Regroup(out[..p], Escaped(s[i]), EscapedAll(s[i+1..]));
      p := PutEscaped(out, p, s[i]);
      i := i + 1;
    }
    NothingEscaped(s[i..]);
    assert out[..p] + [] == out[..p];
    out[p] := '\"';
    assert out[..p+1] == Quoted(s);
    out[p+1] := '\0';
    assert out[..p+1] == Quoted(s);
  }

  lemma NothingEscaped(s: string)
    ensures s == [] ==> EscapedAll(s) == []
  {
  }

  method PutEscaped(out: array<char>, p: nat, c: char) returns (q: nat)
    requires p + |Escaped(c)| <= out.Length
    modifies out
    ensures q == p + |Escaped(c)| && out[..q] == old(out[..p]) + Escaped(c)
  {
    if c as int > 31 && c != '\"' && c != '\\' {
      q := Emit(out, p, [c]);
    } else {
      var escape;
      if c == '\\' { escape := "\\"; }
      else if c == '\"' { escape := "\""; }
      else if c as int == 8 { escape := "b"; }
      else if c as int == 12 { escape := "f"; }
      else if c == '\n' { escape := "n"; }
      else if c == '\r' { escape := "r"; }
      else if c == '\t' { escape := "t"; }
      else { escape := ['u', '0', '0', HexDigit(c as int / 16), HexDigit(c as int % 16)]; }
      assert "\\" + escape == Escaped(c);
      q := Emit(out, p, "\\" + escape);
    }
  }

  method Strdup(t: string) returns (out: array<char>)
    ensures fresh(out) && Holds(out, t)
  {
    out := new char[|t| + 1];
    var p := Emit(out, 0, t);
    assert out[..0] + t == t;
    out[p] := '\0';
    assert out[..p] == t;
  }

  lemma {:induction false} DecimalShort(n: nat, k: nat)
    requires 1 <= k && n < Tens(k)
    ensures |Decimal(n)| <= k
  {
    if n >= 10 { DecimalShort(n / 10, k - 1); }
  }

  lemma TensAre()
    ensures Tens(1) == 10 && Tens(3) == 1000 && Tens(10) == 10000000000
  {
    assert Tens(2) == 100 && Tens(3) == 1000 && Tens(4) == 10000 && Tens(5) == 100000 && Tens(6) == 1000000;
    assert Tens(7) == 10000000 && Tens(8) == 100000000 && Tens(9) == 1000000000;
  }

  lemma {:induction false} PowerIsTens(k: nat)
    ensures Pow10(k) == Tens(k) as real
  {
    if k > 0 { PowerIsTens(k - 1); }
  }

  lemma IntegerShort(n: int, k: nat)
    requires 1 <= k && 0 < n + Tens(k) && n < Tens(k)
    ensures |Integer(n)| <= k + 1
  {
    DecimalShort(if n < 0 then -n else n, k);
  }

  lemma WholeFits(d: real)
    requires Abs(d) < Pow10(60)
    ensures |Integer(d.Floor)| < 64
  {
    hide Integer, Tens;
    PowerIsTens(60);
    TensGrow(60);
    IntegerShort(d.Floor, 61);
  }

  lemma TensGrow(k: nat)
    ensures Tens(k + 1) == 10 * Tens(k) && Tens(k) > 0
  {
    PowerIsTens(k);
    Pow10Step(k);
  }

  lemma PointFits(n: nat, k: nat)
    requires 1 <= k && n / MILLION < Tens(k)
    ensures |Point(n)| <= k + 7
  {
    DecimalShort(n / MILLION, k);
  }

  /** The power of ten of a number that is not written as 0. */
  lemma PowerRange(x: real)
    requires EPSILON < x && Finite(x)
    ensures -17 < Exp10(x) < 309
  {
    hide Pow10;
    var e := Exp10(x);
    if e >= 309 { Pow10Grows(309, e); }
    TenMillion(-1);
    TenMillion(-8);
    Pow10Step(-15);
    Pow10Step(-16);
    ZeroPower();
    if e + 1 <= -16 { Pow10Grows(e + 1, -16); }
  }

  lemma ZeroPower()
    ensures Pow10(0) == 1.0
  {
  }

  lemma TinyIsInt(d: real)
    ensures Abs(d) <= EPSILON ==> AsInt(d)
  {
  }

  lemma RoundedRange(x: real)
    requires EPSILON < x && Finite(x)
    ensures var p := Rounded(x); p.m / MILLION < 10 && -17 < p.e < 310
  {
    hide Pow10, Exp10, Nearest, Scale;
    PowerRange(x);
    var m := Nearest(Scale(x));
    assert m as real <= Scale(x) + 0.5;
  }

  lemma PowerTextFits(e: int)
    requires -1000 < e < 1000
    ensures |PowerText(e)| <= 4
  {
    TensAre();
    DecimalShort(if e < 0 then -e else e, 3);
  }

  /** The buffers are large enough. */
  lemma NumberFits(d: real)
    requires Finite(d)
    ensures |NumberText(d)| < if AsInt(d) then 21 else 64
  {
    hide Integer, Point, PowerText, Rounded, Nearest, AsInt, AsWhole, AsPower, Pow10, Tens, Toward0;
    TensAre();
    NotZero(d);
    TinyIsInt(d);
    if AsInt(d) {
      IntRange(d);
      IntegerShort(Toward0(d), 10);
    } else if AsWhole(d) {
      WholeRange(d);
      WholeFits(d);
    } else if AsPower(d) {
      var p := Rounded(Abs(d));
      AbsFinite(d);
      RoundedRange(Abs(d));
      PointFits(p.m, 1);
      PowerTextFits(p.e);
    } else {
      var n := Nearest(Abs(d) * MILLION as real);
      FixedRange(d);
      PointFits(n, 10);
    }
  }

  lemma AbsFinite(d: real)
    requires Finite(d)
    ensures Finite(Abs(d))
  {
    hide Pow10;
  }

  lemma IntRange(d: real)
    requires AsInt(d)
    ensures -10000000000 < Toward0(d) < 10000000000
  {
  }

  lemma WholeRange(d: real)
    requires AsWhole(d)
    ensures Abs(d) < Pow10(60)
  {
    hide Pow10;
  }

  lemma FixedRange(d: real)
    requires !AsPower(d)
    ensures Nearest(Abs(d) * MILLION as real) / MILLION < 10000000000
  {
    hide Nearest;
    assert Nearest(Abs(d) * MILLION as real) as real <= 1000000000.0 * 1000000.0 + 0.5;
  }

  /** print_number: 21 or 64 characters are always enough. */
  method PrintNumber(d: real) returns (out: array<char>)
    requires Finite(d)
    ensures fresh(out) && Holds(out, NumberText(d))
  {
    hide AsInt, AsWhole, AsPower, Toward0, Integer, Point, PowerText, Rounded, Nearest;
    NumberFits(d);
    NotZero(d);
    var text;
    if AsInt(d) {
      out := new char[21];
      text := Integer(Toward0(d));
    } else {
      out := new char[64];
      if AsWhole(d) {
        text := Integer(d.Floor);
      } else if AsPower(d) {
        var p := Rounded(Abs(d));
        text := Minus(d) + Point(p.m) + ("e" + PowerText(p.e));
      } else {
        text := Minus(d) + Point(Nearest(Abs(d) * MILLION as real));
      }
    }
    var p := Emit(out, 0, text);
    assert out[..0] + text == text;
    out[p] := '\0';
    assert out[..p] == text;
  }

  // ---------------------------------------------------------------- zero-free texts

  lemma {:induction false} EscapedNoZero(s: string)
    requires CString(s)
    ensures '\0' !in EscapedAll(s)
  {
    if s != [] {
      EscapedNoZero(s[1..]);
      CharNoZero(s[0]);
    }
  }

  lemma CharNoZero(c: char)
    requires 0 < c as int
    ensures '\0' !in Escaped(c)
  {
  }

  lemma {:induction false} DecimalNoZero(n: nat)
    ensures '\0' !in Decimal(n)
  {
    if n >= 10 { DecimalNoZero(n / 10); }
  }

  lemma {:induction false} PrintNoZero(v: Json, depth: nat, fmt: bool)
    requires Printable(v)
    ensures '\0' !in Print(v, depth, fmt)
    decreases v
  {
    hide Print, PrintItems, PrintMembers, Quoted, NumberText;
    PrintAtoms(v, depth, fmt);
    match v
    case Number(d) => NumberNoZero(d);
    case Str(s) => QuotedNoZero(s);
    case Arr(items) =>
      ItemsNoZero(items, depth + 1, fmt);
      ArrayNoZero(items, depth, fmt);
    case Obj(members) =>
      MembersNoZero(members, depth + 1, fmt);
      ObjectNoZero(members, depth, fmt);
    case _ =>
  }

  lemma IntegerNoZero(n: int)
    ensures '\0' !in Integer(n)
  {
    DecimalNoZero(if n < 0 then -n else n);
  }

  lemma {:induction false} PaddedNoZero(n: nat, k: nat)
    ensures '\0' !in Padded(n, k)
  {
    if k > 0 { PaddedNoZero(n / 10, k - 1); }
  }

  lemma PointNoZero(n: nat)
    ensures '\0' !in Point(n)
  {
    DecimalNoZero(n / MILLION);
    PaddedNoZero(n % MILLION, 6);
  }

  lemma PowerNoZero(e: int)
    ensures '\0' !in "e" + PowerText(e)
  {
    DecimalNoZero(if e < 0 then -e else e);
    PaddedNoZero(if e < 0 then -e else e, 2);
  }

  lemma NumberNoZero(d: real)
    ensures '\0' !in NumberText(d)
  {
    hide AsInt, AsWhole, AsPower, Integer, Point, PowerText, Rounded, Nearest, Toward0;
    NotZero(d);
    IntegerNoZero(Toward0(d));
    IntegerNoZero(d.Floor);
    if Abs(d) > 0.0 {
      PointNoZero(Rounded(Abs(d)).m);
      PowerNoZero(Rounded(Abs(d)).e);
    }
    PointNoZero(Nearest(Abs(d) * MILLION as real));
    assert '\0' !in Minus(d);
  }

  lemma QuotedNoZero(s: string)
    requires CString(s)
    ensures '\0' !in Quoted(s)
  {
    EscapedNoZero(s);
  }

  lemma ArrayNoZero(items: seq<Json>, depth: nat, fmt: bool)
    requires '\0' !in PrintItems(items, depth + 1, fmt)
    ensures '\0' !in Print(Arr(items), depth, fmt)
  {
    hide PrintItems;
  }

  lemma ObjectNoZero(members: seq<Member>, depth: nat, fmt: bool)
    requires '\0' !in PrintMembers(members, depth + 1, fmt)
    ensures '\0' !in Print(Obj(members), depth, fmt)
  {
    hide PrintMembers;
  }

  lemma {:induction false} ItemsNoZero(items: seq<Json>, depth: nat, fmt: bool)
    requires forall i :: 0 <= i < |items| ==> Printable(items[i])
    ensures '\0' !in PrintItems(items, depth, fmt)
    decreases items
  {
    if items != [] {
      PrintNoZero(items[0], depth, fmt);
      ItemsNoZero(items[1..], depth, fmt);
    }
  }

  lemma {:induction false} MembersNoZero(members: seq<Member>, depth: nat, fmt: bool)
    requires Printable(Obj(members))
    ensures '\0' !in PrintMembers(members, depth, fmt)
    decreases members
  {
    hide Print, Quoted, Printable, CString;
    if members != [] {
      FirstMember(members);
      QuotedNoZero(members[0].name);
      PrintNoZero(members[0].value, depth, fmt);
      MembersNoZero(members[1..], depth, fmt);
    }
  }

  // ---------------------------------------------------------------- arrays and objects

  /** What print_array reserves for the entries. */
  ghost function ItemsRoom(items: seq<Json>, depth: nat, fmt: bool): nat {
    if items == [] then 0
    else |Print(items[0], depth, fmt)| + 2 + (if fmt then 1 else 0) + ItemsRoom(items[1..], depth, fmt)
  }

  lemma {:induction false} ItemsFit(items: seq<Json>, depth: nat, fmt: bool)
    ensures |PrintItems(items, depth, fmt)| <= ItemsRoom(items, depth, fmt)
  {
    hide Print;
    if items != [] { ItemsFit(items[1..], depth, fmt); }
  }

  /** What print_object reserves for the entries. */
  ghost function MembersRoom(members: seq<Member>, depth: nat, fmt: bool): nat {
    if members == [] then 0
    else |Print(members[0].value, depth, fmt)| + |Quoted(members[0].name)| + 2 + (if fmt then 2 + depth else 0)
         + MembersRoom(members[1..], depth, fmt)
  }

  lemma {:induction false} MembersFit(members: seq<Member>, depth: nat, fmt: bool)
    ensures |PrintMembers(members, depth, fmt)| <= MembersRoom(members, depth, fmt)
  {
    hide Print, Quoted;
    if members != [] { MembersFit(members[1..], depth, fmt); }
  }

  /** print_value: a tree `depth` levels down as text in a buffer of its own. */
  method PrintValue(v: Json, depth: nat, fmt: bool) returns (out: array<char>)
    requires Printable(v)
    ensures fresh(out) && Holds(out, Print(v, depth, fmt))
    decreases v
  {
    hide Print, PrintItems, PrintMembers, Quoted, NumberText;
    PrintAtoms(v, depth, fmt);
    match v {
      case Null => out := Strdup("null");
      case False => out := Strdup("false");
      case True => out := Strdup("true");
      case Number(d) => out := PrintNumber(d);
      case Str(s) => out := PrintStringPtr(s);
      case Arr(items) => out := PrintArray(items, depth, fmt);
      case Obj(members) => out := PrintObject(members, depth, fmt);
    }
  }

  lemma ItemsTail(items: seq<Json>, i: nat, depth: nat, fmt: bool)
    requires i < |items|
    ensures PrintItems(items[i..], depth, fmt) ==
            Print(items[i], depth, fmt)
            + (if i == |items| - 1 then "" else "," + If(fmt, " ") + PrintItems(items[i+1..], depth, fmt))
    ensures ItemsRoom(items[i..], depth, fmt) ==
            |Print(items[i], depth, fmt)| + 2 + (if fmt then 1 else 0) + ItemsRoom(items[i+1..], depth, fmt)
  {
    hide Print;
    assert items[i..][1..] == items[i+1..];
  }

  lemma NoItemsRoom(items: seq<Json>, depth: nat, fmt: bool)
    ensures items == [] ==> ItemsRoom(items, depth, fmt) == 0 && PrintItems(items, depth, fmt) == ""
  {
  }

  /** The texts of the items, one buffer each, and the size of the buffer for all of them. */
  method PrintEntries(items: seq<Json>, depth: nat, fmt: bool) returns (entries: seq<array<char>>, len: nat)
    requires Printable(Arr(items))
    ensures |entries| == |items|
    ensures forall k :: 0 <= k < |items| ==> fresh(entries[k]) && Holds(entries[k], Print(items[k], depth, fmt))
    ensures len == 5 + ItemsRoom(items, depth, fmt)
    decreases items, 0
  {
    hide Print, PrintItems, ItemsRoom, Printable;
    PrintableItems(items);
    entries, len := [], 5;
    var i := 0;
    assert items[0..] == items;
    while i < |items|
      invariant 0 <= i <= |items| && |entries| == i
      invariant forall k :: 0 <= k < i ==> fresh(entries[k]) && Holds(entries[k], Print(items[k], depth, fmt))
      invariant len + ItemsRoom(items[i..], depth, fmt) == 5 + ItemsRoom(items, depth, fmt)
    {
      ItemsTail(items, i, depth, fmt);
      var ret := PrintValue(items[i], depth, fmt);
      PrintNoZero(items[i], depth, fmt);
      var n := Strlen(ret, Print(items[i], depth, fmt));
      entries := entries + [ret];
      len := len + n + 2 + (if fmt then 1 else 0);
      i := i + 1;
    }
    NoItemsRoom(items[i..], depth, fmt);
  }

  lemma PrintableItems(items: seq<Json>)
    requires Printable(Arr(items))
    ensures forall i :: 0 <= i < |items| ==> Printable(items[i])
  {
  }

  method PrintArray(items: seq<Json>, depth: nat, fmt: bool) returns (out: array<char>)
    requires Printable(Arr(items))
    ensures fresh(out) && Holds(out, Print(Arr(items), depth, fmt))
    decreases items, 1
  {
    hide Print, PrintItems, ItemsRoom, Printable;
    ArrayText(items, depth, fmt, "");
    assert Print(Arr(items), depth, fmt) + "" == Print(Arr(items), depth, fmt);
    if items == [] {
      out := Strdup("[]");
      return;
    }
    PrintableItems(items);
    var entries, len := PrintEntries(items, depth + 1, fmt);
    ItemsFit(items, depth + 1, fmt);
    out := new char[len];
    var p := Emit(out, 0, "[");
    p := FillItems(out, p, entries, items, depth + 1, fmt);
    p := Emit(out, p, "]");
    Regroup("[", PrintItems(items, depth + 1, fmt), "]");
    assert "]" + "" == "]" && out[..0] + "[" == "[";
    out[p] := '\0';
  }

  /** The loop that composes the array. */
  method FillItems(out: array<char>, p: nat, entries: seq<array<char>>, items: seq<Json>, depth: nat, fmt: bool) returns (q: nat)
    requires Printable(Arr(items)) && |entries| == |items| && p + |PrintItems(items, depth, fmt)| <= out.Length
    requires forall k :: 0 <= k < |items| ==> entries[k] != out && Holds(entries[k], Print(items[k], depth, fmt))
    modifies out
    ensures q == p + |PrintItems(items, depth, fmt)| && out[..q] == old(out[..p]) + PrintItems(items, depth, fmt)
  {
    hide Print, PrintItems, ItemsRoom, Printable, If;
    PrintableItems(items);
    ghost var goal := out[..p] + PrintItems(items, depth, fmt);
    q := p;
    var i := 0;
    assert items[0..] == items;
    while i < |items|
      invariant 0 <= i <= |items| && q <= out.Length
      invariant forall k :: 0 <= k < |items| ==> entries[k] != out && Holds(entries[k], Print(items[k], depth, fmt))
      invariant out[..q] + PrintItems(items[i..], depth, fmt) == goal
    {
      ItemsTail(items, i, depth, fmt);
      PrintNoZero(items[i], depth, fmt);
      ghost var was, t, more := out[..q], Print(items[i], depth, fmt), PrintItems(items[i+1..], depth, fmt);
      NoItemsRoom(items[i+1..], depth, fmt);
      q := Copy(out, q, entries[i], t);
      if i != |items| - 1 {
        Regroup(was, t, "," + If(fmt, " ") + more);
        Regroup(was + t, "," + If(fmt, " "), more);
        q := Emit(out, q, "," + If(fmt, " "));
      } else {
        assert more == "" && t + "" == t;
      }
      i := i + 1;
    }
    NoItemsRoom(items[i..], depth, fmt);
    assert out[..q] + "" == out[..q];
  }

  function Line(name: string, text: string, last: bool, depth: nat, fmt: bool): string {
    If(fmt, Tabs(depth)) + Quoted(name) + (":" + If(fmt, "\t")) + text + ((if last then "" else ",") + If(fmt, "\n"))
  }

  lemma MembersTail(members: seq<Member>, i: nat, depth: nat, fmt: bool)
    requires i < |members|
    ensures var t := Print(members[i].value, depth, fmt);
            && PrintMembers(members[i..], depth, fmt) ==
               Line(members[i].name, t, i == |members| - 1, depth, fmt) + PrintMembers(members[i+1..], depth, fmt)
            && MembersRoom(members[i..], depth, fmt) ==
               |t| + |Quoted(members[i].name)| + 2 + (if fmt then 2 + depth else 0) + MembersRoom(members[i+1..], depth, fmt)
  {
    hide Print, Quoted, If, Tabs, PrintMembers;
    assert members[i..][1..] == members[i+1..];
    UnfoldMembers(members[i..], depth, fmt);
    var a, q, x, t := If(fmt, Tabs(depth)), Quoted(members[i].name), If(fmt, "\t"), Print(members[i].value, depth, fmt);
    var comma, nl := if i == |members| - 1 then "" else ",", If(fmt, "\n");
    Regroup(a + q, ":", x);
    Regroup(a + q + (":" + x) + t, comma, nl);
  }

  lemma NoMembersRoom(members: seq<Member>, depth: nat, fmt: bool)
    ensures members == [] ==> MembersRoom(members, depth, fmt) == 0 && PrintMembers(members, depth, fmt) == ""
  {
  }

  lemma PrintableMember(members: seq<Member>, i: nat)
    requires Printable(Obj(members)) && i < |members|
    ensures CString(members[i].name) && Printable(members[i].value)
  {
  }

  method PutMember(out: array<char>, p: nat, name: array<char>, entry: array<char>, last: bool, depth: nat, fmt: bool,
                   ghost m: Member) returns (q: nat)
    requires Holds(name, Quoted(m.name)) && Holds(entry, Print(m.value, depth, fmt)) && name != out && entry != out
    requires CString(m.name) && Printable(m.value)
    requires p + |Line(m.name, Print(m.value, depth, fmt), last, depth, fmt)| <= out.Length
    modifies out
    ensures var line := Line(m.name, Print(m.value, depth, fmt), last, depth, fmt);
            q == p + |line| && out[..q] == old(out[..p]) + line
  {
    hide Print, Quoted, If, Tabs, Printable, CString;
    QuotedNoZero(m.name);
    PrintNoZero(m.value, depth, fmt);
    ghost var was, t := out[..p], Print(m.value, depth, fmt);
    var x := ":" + If(fmt, "\t");
    var end := (if last then "" else ",") + If(fmt, "\n");
    q := Emit(out, p, If(fmt, Tabs(depth)));
    q := Copy(out, q, name, Quoted(m.name));
    q := Emit(out, q, x);
    q := Copy(out, q, entry, t);
    q := Emit(out, q, end);
    Gather(was, If(fmt, Tabs(depth)), Quoted(m.name), x, t, end);
  }

  /** The texts of the names and of the values, and the size of the buffer for all of them. */
  method PrintPairs(members: seq<Member>, depth: nat, fmt: bool)
    returns (names: seq<array<char>>, entries: seq<array<char>>, len: nat)
    requires Printable(Obj(members))
    ensures |names| == |entries| == |members|
    ensures forall k :: 0 <= k < |members| ==> fresh(names[k]) && Holds(names[k], Quoted(members[k].name))
    ensures forall k :: 0 <= k < |members| ==> fresh(entries[k]) && Holds(entries[k], Print(members[k].value, depth, fmt))
    ensures len == 7 + (if fmt then depth else 0) + MembersRoom(members, depth, fmt)
    decreases members, 0
  {
    hide Print, PrintMembers, MembersRoom, Printable, Quoted, CString;
    names, entries, len := [], [], 7 + (if fmt then depth else 0);
    var i := 0;
    assert members[0..] == members;
    while i < |members|
      invariant 0 <= i <= |members| && |names| == |entries| == i
      invariant forall k :: 0 <= k < i ==> fresh(names[k]) && Holds(names[k], Quoted(members[k].name))
      invariant forall k :: 0 <= k < i ==> fresh(entries[k]) && Holds(entries[k], Print(members[k].value, depth, fmt))
      invariant len + MembersRoom(members[i..], depth, fmt) ==
                7 + (if fmt then depth else 0) + MembersRoom(members, depth, fmt)
    {
      var m := members[i];
      MembersTail(members, i, depth, fmt);
      PrintableMember(members, i);
      var str := PrintStringPtr(m.name);
      var ret := PrintValue(m.value, depth, fmt);
      QuotedNoZero(m.name);
      PrintNoZero(m.value, depth, fmt);
      var n := Strlen(str, Quoted(m.name));
      var k := Strlen(ret, Print(m.value, depth, fmt));
      names, entries := names + [str], entries + [ret];
      len := len + k + n + 2 + (if fmt then 2 + depth else 0);
      i := i + 1;
    }
    NoMembersRoom(members[i..], depth, fmt);
  }

  lemma TabsLength(depth: nat, fmt: bool)
    ensures |If(fmt, Tabs(depth))| == (if fmt then depth else 0) && |If(fmt, "\n")| == if fmt then 1 else 0
    ensures |If(fmt, "\n" + Tabs(if depth == 0 then 0 else depth - 1))| <= if fmt then depth + 1 else 0
  {
  }

  lemma ObjectPieces(members: seq<Member>, depth: nat, fmt: bool)
    ensures Print(Obj(members), depth, fmt) ==
            if members == [] then "{" + If(fmt, "\n" + Tabs(if depth == 0 then 0 else depth - 1)) + "}"
            else "{" + If(fmt, "\n") + PrintMembers(members, depth + 1, fmt) + If(fmt, Tabs(depth)) + "}"
  {
  }

  /** An object without members. */
  method PrintEmpty(depth: nat, fmt: bool) returns (out: array<char>)
    ensures fresh(out) && Holds(out, "{" + If(fmt, "\n" + Tabs(if depth == 0 then 0 else depth - 1)) + "}")
  {
    hide Tabs;
    TabsLength(if depth == 0 then 0 else depth - 1, true);
    out := new char[if fmt then depth + 4 else 3];
    var text := "{" + If(fmt, "\n" + Tabs(if depth == 0 then 0 else depth - 1)) + "}";
    var p := Emit(out, 0, text);
    assert out[..0] + text == text;
    out[p] := '\0';
    assert out[..p] == text;
  }

  method PrintObject(members: seq<Member>, depth: nat, fmt: bool) returns (out: array<char>)
    requires Printable(Obj(members))
    ensures fresh(out) && Holds(out, Print(Obj(members), depth, fmt))
    decreases members, 1
  {
    hide Print, PrintMembers, MembersRoom, Printable, Line, Quoted, Tabs, If;
    ObjectPieces(members, depth, fmt);
    TabsLength(depth, fmt);
    if members == [] {
      out := PrintEmpty(depth, fmt);
      return;
    }
    var p := 0;
    var names, entries, len := PrintPairs(members, depth + 1, fmt);
    MembersFit(members, depth + 1, fmt);
    out := new char[len];
    p := Emit(out, p, "{" + If(fmt, "\n"));
    assert out[..0] + ("{" + If(fmt, "\n")) == "{" + If(fmt, "\n");
    p := FillMembers(out, p, names, entries, members, depth + 1, fmt);
    p := Emit(out, p, If(fmt, Tabs(depth)));
    p := Emit(out, p, "}");
    out[p] := '\0';
    assert out[..p] == Print(Obj(members), depth, fmt);
  }

  /** The loop that composes the object. */
  method FillMembers(out: array<char>, p: nat, names: seq<array<char>>, entries: seq<array<char>>, members: seq<Member>,
                     depth: nat, fmt: bool) returns (q: nat)
    requires Printable(Obj(members)) && |names| == |entries| == |members|
    requires p + |PrintMembers(members, depth, fmt)| <= out.Length
    requires forall k :: 0 <= k < |members| ==> names[k] != out && Holds(names[k], Quoted(members[k].name))
    requires forall k :: 0 <= k < |members| ==> entries[k] != out && Holds(entries[k], Print(members[k].value, depth, fmt))
    modifies out
    ensures q == p + |PrintMembers(members, depth, fmt)| && out[..q] == old(out[..p]) + PrintMembers(members, depth, fmt)
  {
    hide Print, PrintMembers, MembersRoom, Printable, Line, Quoted, CString;
    ghost var goal := out[..p] + PrintMembers(members, depth, fmt);
    q := p;
    var i := 0;
    assert members[0..] == members;
    while i < |members|
      invariant 0 <= i <= |members| && q <= out.Length
      invariant forall k :: 0 <= k < |members| ==> names[k] != out && Holds(names[k], Quoted(members[k].name))
      invariant forall k :: 0 <= k < |members| ==> entries[k] != out && Holds(entries[k], Print(members[k].value, depth, fmt))
      invariant out[..q] + PrintMembers(members[i..], depth, fmt) == goal
    {
      MembersTail(members, i, depth, fmt);
      PrintableMember(members, i);
      Regroup(out[..q], Line(members[i].name, Print(members[i].value, depth, fmt), i == |members| - 1, depth, fmt),
              PrintMembers(members[i+1..], depth, fmt));
      q := PutMember(out, q, names[i], entries[i], i == |members| - 1, depth, fmt, members[i]);
      i := i + 1;
    }
    NoMembersRoom(members[i..], depth, fmt);
    assert out[..q] + "" == out[..q];
  }
}
