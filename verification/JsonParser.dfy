/** The parser of cJSON.c: loops over the text, recursion over nested values. */
module JsonParser {
  import opened JsonNumber
  import opened JsonText
  import opened JsonRoundTrip
  import opened JsonPrinter

  // ---------------------------------------------------------------- strings

  lemma CountStep(s: string, i: nat)
    requires i < |s| && s[i] != '\"'
    ensures s[i] != '\\' ==> Count(s[i..]) == Onto(1, Count(s[i+1..]))
    ensures s[i] == '\\' ==> Count(s[i..]) == if i + 1 == |s| then -1 else Onto(1, Count(s[i+2..]))
  {
    var r := s[i..];
    assert r[1..] == s[i+1..];
    if s[i] == '\\' && i + 1 == |s| {
      assert Counted(r[1..], true) == -1;
    } else if s[i] == '\\' {
      assert r[2..] == s[i+2..];
      CountShort(r);
    }
  }

  lemma Ends(r: string)
    requires r == [] || r[0] == '\"'
    ensures Count(r) == 0 && Filled(r) == 0 && Body(r) == ([], if r == [] then [] else r[1..])
  {
  }

  /** The first pass; -1 if it steps behind the end of the text. */
  method Measure(s: string) returns (len: int)
    requires s != []
    ensures len == Count(s[1..])
  {
    hide Counted;
    var ptr := 1;
    len := 0;
    while ptr < |s| && s[ptr] != '\"'
      invariant 1 <= ptr <= |s| && len >= 0
      invariant Count(s[1..]) == Onto(len, Count(s[ptr..]))
      decreases |s| - ptr
    {
      CountStep(s, ptr);
      if s[ptr] == '\\' && ptr + 1 == |s| { return -1; }
      len := len + 1;
      ptr := ptr + (if s[ptr] == '\\' then 2 else 1);
    }
    Ends(s[ptr..]);
  }

  /** The transcoder writes the bytes of a code point from the last to the first. */
  method PutUtf8(out: array<char>, n: nat, code: nat) returns (ok: bool, q: nat)
    requires 0 < code < 0x110000
    modifies out
    ensures ok <==> n + |Utf8(code)| < out.Length
    ensures ok ==> q == n + |Utf8(code)| && out[..q] == old(out[..n]) + Utf8(code)
  {
    var uc, len := code, 4;
    if uc < 0x80 { len := 1; } else if uc < 0x800 { len := 2; } else if uc < 0x10000 { len := 3; }
    q := n + len;
    if q >= out.Length { return false, n; }
    ok := true;
    if len >= 4 { out[n+3] := (0x80 + uc % 64) as char; uc := uc / 64; }
    if len >= 3 { out[n+2] := (0x80 + uc % 64) as char; uc := uc / 64; }
    if len >= 2 { out[n+1] := (0x80 + uc % 64) as char; uc := uc / 64; }
    var mark := if len == 1 then 0 else if len == 2 then 0xC0 else if len == 3 then 0xE0 else 0xF0;
    out[n] := (mark + uc) as char;
    Quotients(code);
    assert out[n..q] == Utf8(code);
    assert out[..q] == out[..n] + out[n..q];
  }

  lemma Quotients(u: nat)
    ensures u / 64 / 64 == u / 4096 && u / 64 / 64 / 64 == u / 262144
  {
  }

  /** One step of the second pass stays inside the text, and leaves room for the terminator. */
  predicate Room(r: string, n: nat, size: nat)
    requires r != []
  {
    Stride(r) <= |r| && n + |Written(r)| < size
  }

  /** A \u escape, `r[0]` being the backslash. */
  method ReadUnicode(r: string, out: array<char>, n: nat) returns (ok: bool, used: nat, q: nat)
    requires Begins(r, '\\') && |r| >= 2 && r[1] == 'u' && n < out.Length
    modifies out
    ensures ok <==> Room(r, n, out.Length)
    ensures ok ==> used == Stride(r) && q == n + |Written(r)| && out[..q] == old(out[..n]) + Written(r)
  {
    hide Hex4, Utf8;
    ok, used, q := true, 6, n;
    if |r| < 6 { return false, 0, n; }
    var uc := Hex4(r[2..6]);
    if IsLow(uc) || uc == 0 { return; }
    if IsHigh(uc) {
      if |r| < 8 || r[6] != '\\' || r[7] != 'u' { return; }
      if |r| < 12 { return false, 0, n; }
      var uc2 := Hex4(r[8..12]);
      used := 12;
      if !IsLow(uc2) { return; }
      uc := 0x10000 + uc % 1024 * 1024 + uc2 % 1024;
    }
    ok, q := PutUtf8(out, n, uc);
  }

  /** One step of the second pass. */
  method ReadChar(s: string, ptr: nat, out: array<char>, n: nat) returns (ok: bool, ptr': nat, n': nat)
    requires ptr < |s| && n < out.Length
    modifies out
    ensures ok <==> Room(s[ptr..], n, out.Length)
    ensures ok ==> ptr' == ptr + Stride(s[ptr..]) && n' == n + |Written(s[ptr..])|
    ensures ok ==> out[..n'] == old(out[..n]) + Written(s[ptr..])
  {
    hide Unicode, Unescaped;
    ok, ptr', n' := false, ptr, n;
    if s[ptr] != '\\' {
      if n + 1 < out.Length {
        n' := Emit(out, n, [s[ptr]]);
        ok, ptr' := true, ptr + 1;
      }
    } else if ptr + 1 < |s| {
      if s[ptr+1] != 'u' {
        if n + 1 < out.Length {
          n' := Emit(out, n, [Unescaped(s[ptr+1])]);
          ok, ptr' := true, ptr + 2;
        }
      } else {
        var used;
        ok, used, n' := ReadUnicode(s[ptr..], out, n);
        ptr' := ptr + used;
      }
    }
  }

  /** parse_string: one pass to size the buffer, one to fill it. */
  method ReadString(s: string) returns (p: Parsed<string>)
    ensures p == ParseString(s)
  {
    hide Stride, Written, Counted;
    if !Begins(s, '\"') { return Fail; }
    var len := Measure(s);
    if len < 0 { return Overrun; }
    var out := new char[len + 1];
    var n, ptr := 0, 1;
    ghost var r := s[1..];
    assert Filled(r) >= 0 ==> [] + Body(r).0 == Body(r).0;
    assert out[..n] == [];
    while ptr < |s| && s[ptr] != '\"'
      invariant 1 <= ptr <= |s| && 0 <= n <= len
      invariant fresh(out) && out.Length == len + 1
      invariant Follows(r, out[..n], s[ptr..])
      decreases |s| - ptr
    {
      ghost var done := out[..n];
      var ok, ptr', n' := ReadChar(s, ptr, out, n);
      StepFollows(r, done, s[ptr..]);
      if !ok { return Overrun; }
      assert s[ptr..][Stride(s[ptr..])..] == s[ptr'..];
      ptr, n := ptr', n';
    }
    Ends(s[ptr..]);
    assert out[..n] + [] == out[..n];
    out[n] := '\0';
    var rest := if ptr < |s| then s[ptr..][1..] else [];
    p := Done(out[..n], rest);
  }

  /** The second pass over `r` has written `front` and has `t` ahead. */
  ghost predicate Follows(r: string, front: string, t: string) {
    && Filled(r) == Onto(|front|, Filled(t))
    && (Filled(r) >= 0 ==> Body(r) == (front + Body(t).0, Body(t).1))
  }

  lemma StepFollows(r: string, front: string, t: string)
    requires Follows(r, front, t) && t != [] && t[0] != '\"'
    ensures Stride(t) > |t| ==> Filled(r) == -1
    ensures Stride(t) <= |t| ==> Follows(r, front + Written(t), t[Stride(t)..])
  {
    hide Stride, Written;
    if Stride(t) <= |t| {
      hide Filled, Body;
      OneStep(t);
      if Filled(r) >= 0 { Regroup(front, Written(t), Body(t[Stride(t)..]).0); }
    }
  }

  // ---------------------------------------------------------------- numbers

  method ReadDigits(acc: nat, num: string) returns (n: nat, rest: string)
    ensures (n, rest) == Digits(acc, num)
  {
    n, rest := acc, num;
    while rest != [] && IsDigit(rest[0])
      invariant Digits(n, rest) == Digits(acc, num)
      decreases |rest|
    {
      n, rest := n * 10 + (rest[0] as int - '0' as int), rest[1..];
    }
  }

  method ReadExponent(s: string) returns (e: int, num: string)
    ensures (e, num) == Exponent(s)
  {
    hide Digits;
    e, num := 0, s;
    if num != [] && (num[0] == 'e' || num[0] == 'E') {
      num := num[1..];
      var negative := Begins(num, '-');
      if Begins(num, '+') || Begins(num, '-') { num := num[1..]; }
      e, num := ReadDigits(0, num);
      if negative { e := -e; }
    }
  }

  /** parse_number */
  method ReadNumber(s: string) returns (p: Parsed<Json>)
    requires Begins(s, '-') || (s != [] && IsDigit(s[0]))
    ensures p == ParseNumber(s)
  {
    hide Digits, Scaled, Exponent;
    var num, sign, n, scale := s, 1.0, 0, 0;
    if num[0] == '-' { sign, num := -1.0, num[1..]; }
    if Begins(num, '0') { num := num[1..]; }
    if num != [] && '1' <= num[0] <= '9' { n, num := ReadDigits(0, num); }
    if |num| >= 2 && num[0] == '.' && IsDigit(num[1]) {
      var whole := |num| - 1;
      n, num := ReadDigits(n, num[1..]);
      scale := |num| - whole;
    }
    var e;
    e, num := ReadExponent(num);
    p := Done(Number(Scaled(sign, n, scale + e)), num);
  }

  // ---------------------------------------------------------------- values

  method SkipSpace(s: string) returns (r: string)
    ensures r == Skip(s)
  {
    r := s;
    while r != [] && r[0] as int <= 32
      invariant Skip(r) == Skip(s)
      decreases |r|
    {
      r := r[1..];
    }
  }

  /** What stopped the parser of a part stops the parser of the whole. */
  function Stopped<T, U>(p: Parsed<T>): Parsed<U>
    requires !p.Done?
  {
    if p.Fail? then Fail else Overrun
  }

  /** parse_value */
  method ReadValue(s: string) returns (p: Parsed<Json>)
    ensures p == ParseValue(s)
    decreases |s|, 1
  {
    hide ParseItems, ParseMembers, ParseString, ParseNumber;
    if StartsWith(s, "null") { return Done(Null, s[4..]); }
    if StartsWith(s, "false") { return Done(False, s[5..]); }
    if StartsWith(s, "true") { return Done(True, s[4..]); }
    if Begins(s, '\"') {
      var q := ReadString(s);
      return if q.Done? then Done(Str(q.value), q.rest) else Stopped(q);
    }
    if Begins(s, '-') || (s != [] && IsDigit(s[0])) { p := ReadNumber(s); return; }
    if Begins(s, '[') { p := ReadArray(s); return; }
    if Begins(s, '{') { p := ReadObject(s); return; }
    return Fail;
  }

  /** parse_array: the children are linked on one after another. */
  method ReadArray(s: string) returns (p: Parsed<Json>)
    requires Begins(s, '[')
    ensures p == ParseValue(s)
    decreases |s|, 0
  {
    hide ParseItems, ParseMembers, ParseString, ParseNumber, ParseValue, Prepend, MoreItems, Skip;
    ArrayUnfold(s);
    var value := SkipSpace(s[1..]);
    if Begins(value, ']') { return Done(Arr([]), value[1..]); }
    ghost var all := ParseItems(s[1..]);
    SkipTwice(s[1..]);
    ItemsUnfold(s[1..], all);
    var start := SkipSpace(value);
    var child := ReadValue(start);
    if !child.Done? { return Stopped(child); }
    value := SkipSpace(child.rest);
    var children := [child.value];
    while Begins(value, ',')
      invariant |value| < |s| && all == Prepend(children, MoreItems(value))
      decreases |value|
    {
      MoreUnfold(value, children, all);
      start := SkipSpace(value[1..]);
      child := ReadValue(start);
      if !child.Done? { return Stopped(child); }
      value := SkipSpace(child.rest);
      children := children + [child.value];
    }
    MoreEnds(value, children, all);
    if Begins(value, ']') { return Done(Arr(children), value[1..]); }
    return Fail;
  }

  lemma ArrayUnfold(s: string)
    requires Begins(s, '[')
    ensures Begins(Skip(s[1..]), ']') ==> ParseValue(s) == Done(Arr([]), Skip(s[1..])[1..])
    ensures !Begins(Skip(s[1..]), ']') ==>
              var p := ParseItems(s[1..]); ParseValue(s) == if p.Done? then Done(Arr(p.value), p.rest) else Stopped(p)
  {
    hide ParseItems;
    NoWord(s);
  }

  lemma SkipTwice(s: string)
    ensures Skip(Skip(s)) == Skip(s)
  {
  }

  lemma ItemsUnfold(s: string, all: Parsed<seq<Json>>)
    requires all == ParseItems(s)
    ensures var p := ParseValue(Skip(s)); all == if p.Done? then Prepend([p.value], MoreItems(Skip(p.rest))) else Stopped(p)
  {
    hide ParseValue, MoreItems;
  }

  lemma MoreUnfold(value: string, children: seq<Json>, all: Parsed<seq<Json>>)
    requires Begins(value, ',') && all == Prepend(children, MoreItems(value))
    ensures var p := ParseValue(Skip(value[1..])); all == if p.Done? then Prepend(children + [p.value], MoreItems(Skip(p.rest))) else Stopped(p)
  {
    hide ParseValue, ParseItems;
    ItemsUnfold(value[1..], ParseItems(value[1..]));
    var p := ParseValue(Skip(value[1..]));
    if p.Done? { PrependTwice(children, p.value, MoreItems(Skip(p.rest))); }
  }

  lemma PrependTwice<T>(front: seq<T>, x: T, p: Parsed<seq<T>>)
    ensures Prepend(front, Prepend([x], p)) == Prepend(front + [x], p)
  {
    if p.Done? { assert front + ([x] + p.value) == front + [x] + p.value; }
  }

  lemma MoreEnds(value: string, children: seq<Json>, all: Parsed<seq<Json>>)
    requires !Begins(value, ',') && all == Prepend(children, MoreItems(value))
    ensures all == if Begins(value, ']') then Done(children, value[1..]) else Fail
  {
    assert children + [] == children;
  }

  /** One member: its name, a colon, its value. */
  method ReadMember(value: string) returns (p: Parsed<Member>)
    ensures p == ParseMember(value)
    decreases |value|, 2
  {
    hide ParseString, ParseValue, Skip;
    var start := SkipSpace(value);
    var name := ReadString(start);
    if !name.Done? { return Stopped(name); }
    var after := SkipSpace(name.rest);
    if !Begins(after, ':') { return Fail; }
    after := SkipSpace(after[1..]);
    var child := ReadValue(after);
    return if child.Done? then Done(Member(name.value, child.value), child.rest) else Stopped(child);
  }

  /** parse_object */
  method ReadObject(s: string) returns (p: Parsed<Json>)
    requires Begins(s, '{')
    ensures p == ParseValue(s)
    decreases |s|, 0
  {
    hide ParseItems, ParseMembers, ParseMember, ParseString, ParseNumber, ParseValue, Prepend, MoreMembers, Skip;
    ObjectUnfold(s);
    var value := SkipSpace(s[1..]);
    if Begins(value, '}') { return Done(Obj([]), value[1..]); }
    ghost var all := ParseMembers(s[1..]);
    SkipTwice(s[1..]);
    SkipFirst(s[1..]);
    MembersUnfold(s[1..], all);
    var child := ReadMember(value);
    if !child.Done? { return Stopped(child); }
    value := SkipSpace(child.rest);
    var children := [child.value];
    while Begins(value, ',')
      invariant |value| < |s| && all == Prepend(children, MoreMembers(value))
      decreases |value|
    {
      NextUnfold(value, children, all);
      child := ReadMember(value[1..]);
      if !child.Done? { return Stopped(child); }
      value := SkipSpace(child.rest);
      children := children + [child.value];
    }
    NextEnds(value, children, all);
    if Begins(value, '}') { return Done(Obj(children), value[1..]); }
    return Fail;
  }

  lemma SkipFirst(s: string)
    ensures ParseMember(Skip(s)) == ParseMember(s)
  {
    hide ParseString, ParseValue;
    SkipTwice(s);
  }

  lemma ObjectUnfold(s: string)
    requires Begins(s, '{')
    ensures Begins(Skip(s[1..]), '}') ==> ParseValue(s) == Done(Obj([]), Skip(s[1..])[1..])
    ensures !Begins(Skip(s[1..]), '}') ==>
              var p := ParseMembers(s[1..]); ParseValue(s) == if p.Done? then Done(Obj(p.value), p.rest) else Stopped(p)
  {
    hide ParseMembers;
    NoWord(s);
  }

  lemma MembersUnfold(s: string, all: Parsed<seq<Member>>)
    requires all == ParseMembers(s)
    ensures var p := ParseMember(s); all == if p.Done? then Prepend([p.value], MoreMembers(Skip(p.rest))) else Stopped(p)
  {
    hide ParseMember, MoreMembers;
  }

  lemma NextUnfold(value: string, children: seq<Member>, all: Parsed<seq<Member>>)
    requires Begins(value, ',') && all == Prepend(children, MoreMembers(value))
    ensures var p := ParseMember(value[1..]); all == if p.Done? then Prepend(children + [p.value], MoreMembers(Skip(p.rest))) else Stopped(p)
  {
    hide ParseMember, ParseMembers;
    MembersUnfold(value[1..], ParseMembers(value[1..]));
    var p := ParseMember(value[1..]);
    if p.Done? { PrependTwice(children, p.value, MoreMembers(Skip(p.rest))); }
  }

  lemma NextEnds(value: string, children: seq<Member>, all: Parsed<seq<Member>>)
    requires !Begins(value, ',') && all == Prepend(children, MoreMembers(value))
    ensures all == if Begins(value, '}') then Done(children, value[1..]) else Fail
  {
    assert children + [] == children;
  }

  /** cJSON_ParseWithOpts */
  method ReadText(text: string, toTheEnd: bool) returns (p: Parsed<Json>)
    ensures p == Parse(text, toTheEnd)
  {
    hide ParseValue, Skip;
    var start := SkipSpace(text);
    p := ReadValue(start);
    if p.Done? && toTheEnd {
      var end := SkipSpace(p.rest);
      p := if end == "" then Done(p.value, "") else Fail;
    }
  }
}
