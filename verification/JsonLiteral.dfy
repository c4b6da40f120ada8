/** The two passes over a string literal: one looks for the closing quote and sizes the buffer, the other fills it,
    and takes the characters of a \u escape without looking. */
module JsonLiteral {
  import opened JsonText

  /** The number of characters before the quote that ends the first pass, or before the end of the text. */
  function Close(r: string, inside: bool): (n: nat)
    ensures n <= |r|
  {
    if r == [] || (!inside && r[0] == '\"') then 0 else 1 + Close(r[1..], !inside && r[0] == '\\')
  }

  /** The second pass steps over that quote, `q` characters ahead, instead of meeting it or an earlier one. */
  predicate Jumps(r: string, q: nat)
    requires q <= |r|
    decreases |r|
  {
    q != 0 && r[0] != '\"' && (Stride(r) > q || Jumps(r[Stride(r)..], q - Stride(r)))
  }

  // ---------------------------------------------------------------- the first pass over some characters

  /** How many of them it counts. */
  function Units(s: string, inside: bool): nat {
    if s == [] then 0 else (if inside then 0 else 1) + Units(s[1..], !inside && s[0] == '\\')
  }

  /** Whether it has just passed a backslash then. */
  predicate Inside(s: string, inside: bool) {
    if s == [] then inside else Inside(s[1..], !inside && s[0] == '\\')
  }

  function Debt(inside: bool): nat { if inside then 1 else 0 }

  lemma {:induction false} Advance(r: string, inside: bool, k: nat)
    requires k <= Close(r, inside)
    ensures Counted(r, inside) == Onto(Units(r[..k], inside), Counted(r[k..], Inside(r[..k], inside)))
    ensures Close(r, inside) == k + Close(r[k..], Inside(r[..k], inside))
  {
    hide Counted, Close, Units, Inside;
    NoUnits(inside);
    if k == 0 {
      assert r[0..] == r && r[..0] == [];
    } else {
      FirstStep(r, inside);
      UnitsStep(r[..k], inside);
      Advance(r[1..], !inside && r[0] == '\\', k - 1);
      assert r[..k][1..] == r[1..][..k-1] && r[1..][k-1..] == r[k..];
    }
  }

  lemma NoUnits(inside: bool)
    ensures Units([], inside) == 0 && Inside([], inside) == inside
  {
  }

  lemma FirstStep(r: string, inside: bool)
    requires Close(r, inside) > 0
    ensures r != []
    ensures Counted(r, inside) == Onto(if inside then 0 else 1, Counted(r[1..], !inside && r[0] == '\\'))
    ensures Close(r, inside) == 1 + Close(r[1..], !inside && r[0] == '\\')
  {
  }

  lemma UnitsStep(s: string, inside: bool)
    requires s != []
    ensures Units(s, inside) == (if inside then 0 else 1) + Units(s[1..], !inside && s[0] == '\\')
    ensures Inside(s, inside) == Inside(s[1..], !inside && s[0] == '\\')
  {
  }

  /** A backslash passed last has been counted. */
  lemma {:induction false} UnitsPay(s: string, inside: bool)
    ensures Debt(Inside(s, inside)) <= Units(s, inside) + Debt(inside)
  {
    if s != [] { UnitsPay(s[1..], !inside && s[0] == '\\'); }
  }

  lemma {:induction false} UnitsSplit(a: string, b: string, inside: bool)
    ensures Units(a + b, inside) == Units(a, inside) + Units(b, Inside(a, inside))
    ensures Inside(a + b, inside) == Inside(b, Inside(a, inside))
  {
    if a == [] {
      assert a + b == b;
    } else {
      assert (a + b)[1..] == a[1..] + b;
      UnitsSplit(a[1..], b, !inside && a[0] == '\\');
    }
  }

  lemma {:induction false} PlainUnits(s: string)
    requires '\\' !in s
    ensures Units(s, false) == |s| && !Inside(s, false)
  {
    if s != [] {
      assert s[0] in s && forall c :: c in s[1..] ==> c in s;
      PlainUnits(s[1..]);
    }
  }

  lemma HexIsPlain(h: string)
    requires |h| == 4 && Hex4(h) != 0
    ensures '\\' !in h
  {
    assert HexValue('\\') == -1;
  }

  /** An escape that stands for something has its four digits counted. */
  lemma UnicodeUnits(r: string, inside: bool)
    requires Begins(r, '\\') && |r| >= 6 && r[1] == 'u' && Hex4(r[2..6]) != 0
    ensures Units(r[..6], inside) == 5
  {
    var a, h := r[..2], r[2..6];
    assert r[..6] == a + h && a == ['\\', 'u'] && a[1..] == ['u'] && a[1..][1..] == [];
    HexIsPlain(h);
    PlainUnits(h);
    UnitsSplit(a, h, inside);
    assert Units(['u'], true) == Units([], false) && Units(['u'], false) == 1;
  }

  /** What one step of the second pass writes, the first pass has counted. */
  lemma StepPays(r: string, inside: bool)
    requires r != [] && (inside || r[0] != '\"') && Stride(r) <= Close(r, inside)
    ensures var s := r[..Stride(r)];
            |Written(r)| + Debt(Inside(s, inside)) <= Units(s, inside) + Debt(inside)
  {
    hide Hex4, Utf8, Unescaped;
    var k := Stride(r);
    var s := r[..k];
    UnitsPay(s, inside);
    if k == 1 {
      assert s == [r[0]] && s[1..] == [];
    } else if k == 2 {
      assert s == [r[0], r[1]] && s[1..] == [r[1]] && s[1..][1..] == [];
      assert inside ==> Close(r, inside) == 1 + Close(r[1..], false) && r[1..][0] == r[1];
      PairUnits(r[0], r[1], inside);
    } else if Written(r) != [] {
      UnicodeUnits(r, inside);
      if k == 6 {
        DigitsEnd(r, inside);
      } else {
        assert s == r[..6] + r[6..12];
        UnitsSplit(r[..6], r[6..12], inside);
      }
    }
  }

  lemma PairUnits(a: char, b: char, inside: bool)
    requires a == '\\' && (inside ==> b != '\"')
    ensures 1 + Debt(Inside([a, b], inside)) <= Units([a, b], inside) + Debt(inside)
  {
    assert [a, b][1..] == [b] && [b][1..] == [];
    assert Units([b], !inside) == (if inside then 1 else 0);
    assert Inside([b], !inside) == (inside && b == '\\');
  }

  lemma DigitsEnd(r: string, inside: bool)
    requires Begins(r, '\\') && |r| >= 6 && r[1] == 'u' && Hex4(r[2..6]) != 0
    ensures !Inside(r[..6], inside)
  {
    var a, h := r[..2], r[2..6];
    assert r[..6] == a + h && a == ['\\', 'u'] && a[1..] == ['u'] && a[1..][1..] == [];
    HexIsPlain(h);
    PlainUnits(h);
    UnitsSplit(a, h, inside);
  }

  // ---------------------------------------------------------------- without a jump it fits

  /** `inside` is where the first pass is while the second starts on a character. */
  lemma {:induction false} NoJumpFits(r: string, inside: bool)
    requires Counted(r, inside) >= 0 && !Jumps(r, Close(r, inside))
    ensures 0 <= Filled(r) <= Counted(r, inside) + Debt(inside)
    decreases |r|
  {
    hide Written, Units, Inside, Counted, Close;
    CloseMeans(r, inside);
    if r != [] && r[0] != '\"' && Close(r, inside) != 0 {
      var k := Stride(r);
      Advance(r, inside, k);
      StepPays(r, inside);
      NoJumpFits(r[k..], Inside(r[..k], inside));
    }
  }

  lemma CloseMeans(r: string, inside: bool)
    ensures r == [] ==> Close(r, inside) == 0
    ensures r != [] && r[0] != '\"' ==> Close(r, inside) > 0
  {
  }

  /** The content never outgrows the buffer the first pass sized, unless the second pass jumps over the quote. */
  lemma BodyFits(r: string)
    requires Count(r) >= 0 && !Jumps(r, Close(r, false))
    ensures Fits(r) && |Body(r).0| <= Count(r)
  {
    NoJumpFits(r, false);
  }

  // ---------------------------------------------------------------- a literal, whatever follows it

  /** A literal without its opening quote: the first pass ends at its last character. */
  predicate IsLiteral(lit: string) {
    lit != [] && Close(lit, false) == |lit| - 1
  }

  lemma {:induction false} CloseStays(lit: string, inside: bool, rest: string)
    requires Close(lit, inside) < |lit|
    ensures Close(lit + rest, inside) == Close(lit, inside) && Counted(lit + rest, inside) == Counted(lit, inside) >= 0
    ensures lit[Close(lit, inside)] == '\"'
  {
    assert (lit + rest)[0] == lit[0];
    if inside || lit[0] != '\"' {
      assert (lit + rest)[1..] == lit[1..] + rest;
      CloseStays(lit[1..], !inside && lit[0] == '\\', rest);
    }
  }

  predicate EndsQuoted(r: string) { r != [] && r[|r|-1] == '\"' }

  lemma QuoteIsNoDigit(h: string)
    requires |h| == 4 && '\"' in h
    ensures Hex4(h) == 0
  {
    assert HexValue('\"') == -1;
  }

  /** How far a step goes does not depend on what follows a quote. */
  lemma StrideStays(r: string, rest: string)
    requires EndsQuoted(r)
    ensures Stride(r + rest) == Stride(r)
  {
    hide Hex4;
    var s := r + rest;
    if |r| >= 2 && r[0] == '\\' && r[1] == 'u' && |s| >= 6 {
      if |r| < 6 {
        assert s[2..6][|r| - 3] == '\"';
        QuoteIsNoDigit(s[2..6]);
      } else {
        assert s[2..6] == r[2..6];
        if |r| == 6 { assert r[2..6][3] == '\"'; QuoteIsNoDigit(r[2..6]); }
      }
    }
  }

  lemma {:induction false} JumpsStay(r: string, rest: string)
    requires EndsQuoted(r)
    ensures Jumps(r + rest, |r| - 1) == Jumps(r, |r| - 1)
    decreases |r|
  {
    hide Stride;
    StrideStays(r, rest);
    assert (r + rest)[0] == r[0];
    var k := Stride(r);
    if |r| > 1 && r[0] != '\"' && k <= |r| - 1 {
      assert (r + rest)[k..] == r[k..] + rest;
      JumpsStay(r[k..], rest);
    }
  }

  /** Letters, and a quote. */
  function Letters(n: nat): (s: string)
    ensures |s| == n + 1
  {
    if n == 0 then "\"" else "a" + Letters(n - 1)
  }

  lemma {:induction false} LettersFill(n: nat)
    ensures Filled(Letters(n)) == n
  {
    if n > 0 {
      assert Letters(n)[1..] == Letters(n - 1);
      LettersFill(n - 1);
    }
  }

  lemma {:induction false} LettersFrom(n: nat, j: nat)
    requires j <= n
    ensures Letters(n)[j..] == Letters(n - j)
  {
    if j > 0 {
      assert Letters(n)[j..] == Letters(n)[1..][j-1..];
      assert Letters(n)[1..] == Letters(n - 1);
      LettersFrom(n - 1, j - 1);
    }
  }

  /** Having jumped, it writes what follows the literal. */
  lemma {:induction false} JumpFills(r: string, n: nat)
    requires EndsQuoted(r) && Jumps(r, |r| - 1) && n >= 12
    ensures Filled(r + Letters(n)) >= n - 11
    decreases |r|
  {
    hide Stride, Written;
    var s, k := r + Letters(n), Stride(r);
    StrideStays(r, Letters(n));
    assert s[0] == r[0];
    if k > |r| - 1 {
      assert s[k..] == Letters(n)[k - |r|..];
      LettersFrom(n, k - |r|);
      LettersFill(n - (k - |r|));
    } else {
      assert s[k..] == r[k..] + Letters(n);
      JumpFills(r[k..], n);
    }
  }

  /** A literal is read within its buffer, whatever follows it, exactly when the second pass does not jump over its
      closing quote. */
  lemma FitsIff(lit: string)
    requires IsLiteral(lit)
    ensures (forall rest :: Fits(lit + rest)) <==> !Jumps(lit, |lit| - 1)
  {
    hide Filled, Counted, Close, Jumps;
    CloseStays(lit, false, "");
    assert EndsQuoted(lit);
    if Jumps(lit, |lit| - 1) {
      var n := Count(lit) + 12;
      CloseStays(lit, false, Letters(n));
      JumpFills(lit, n);
      assert !Fits(lit + Letters(n));
    } else {
      forall rest ensures Fits(lit + rest) {
        CloseStays(lit, false, rest);
        JumpsStay(lit, rest);
        BodyFits(lit + rest);
      }
    }
  }

  /** So the parser reads it without running over, whatever follows it, exactly then. */
  lemma ReadsIff(lit: string)
    requires IsLiteral(lit)
    ensures (forall rest :: ParseString("\"" + lit + rest).Done?) <==> !Jumps(lit, |lit| - 1)
  {
    hide Fits, Jumps, ParseString;
    FitsIff(lit);
    if Jumps(lit, |lit| - 1) {
      var rest :| !Fits(lit + rest);
      ReadsWhole(lit, rest);
    } else {
      forall rest ensures ParseString("\"" + lit + rest).Done? {
        ReadsWhole(lit, rest);
      }
    }
  }

  lemma ReadsWhole(lit: string, rest: string)
    ensures ParseString("\"" + lit + rest).Done? <==> Fits(lit + rest)
  {
    hide Fits;
    assert ("\"" + lit + rest)[1..] == lit + rest;
  }

  /** A quote right after a \u is jumped over: the first pass counts one character, the second writes two. */
  lemma JumpedQuoteOverruns()
    ensures var lit, rest := "\\u\"", "xxxab\"";
            IsLiteral(lit) && Jumps(lit, 2) && Count(lit + rest) == 1 && Filled(lit + rest) == 2
  {
    var lit, r := "\\u\"", "\\u\"" + "xxxab\"";
    assert lit[1..] == "u\"" && lit[1..][1..] == "\"";
    assert Counted(lit[1..][1..], false) == 0;
    CloseStays(lit, false, "xxxab\"");
    assert r == "\\u\"xxxab\"" && r[2..6][0] == '\"';
    QuoteIsNoDigit(r[2..6]);
    var t := r[6..];
    assert t == "ab\"" && t[1..] == "b\"" && t[1..][1..] == "\"";
    assert Filled(t[1..][1..]) == 0 && Filled(t[1..]) == 1 && Filled(t) == 2;
  }

  /** A quote among what a \u takes is no harm if the first pass has passed it too, as an escaped one. */
  lemma EscapedQuoteFits(rest: string)
    ensures Fits("\\u\\\"ab\"" + rest)
  {
    hide Filled, Counted;
    var lit := "\\u\\\"ab\"";
    assert lit[1..] == "u\\\"ab\"" && lit[1..][1..] == "\\\"ab\"" && lit[2..] == "\\\"ab\"";
    assert lit[2..][1..] == "\"ab\"" && lit[2..][1..][1..] == "ab\"" && lit[4..] == "ab\"";
    assert lit[4..][1..] == "b\"" && lit[4..][1..][1..] == "\"";
    assert Close(lit[4..][1..][1..], false) == 0;
    assert Close(lit[4..], false) == 2;
    assert Close(lit[2..], false) == 4;
    assert lit[2..6][1] == '\"';
    QuoteIsNoDigit(lit[2..6]);
    FitsIff(lit);
  }
}
