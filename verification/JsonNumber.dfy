/** How numbers are written: the C formats "%d", "%.0f", "%f" and "%e", on real numbers. */
module JsonNumber {
  function Digit(d: nat): char
    requires d < 10
  {
    '0' + d as char
  }

  function Decimal(n: nat): string {
    if n < 10 then [Digit(n)] else Decimal(n / 10) + [Digit(n % 10)]
  }

  /** The C formats "%d" and, for whole numbers, "%.0f". */
  function Integer(n: int): string {
    if n < 0 then "-" + Decimal(-n) else Decimal(n)
  }

  /** The last `k` digits, zeros included. */
  function Padded(n: nat, k: nat): (s: string)
    ensures |s| == k
  {
    if k == 0 then "" else Padded(n / 10, k - 1) + [Digit(n % 10)]
  }

  function Pow10(e: int): real
    decreases if e < 0 then -e else e
  {
    if e == 0 then 1.0 else if e > 0 then 10.0 * Pow10(e - 1) else Pow10(e + 1) / 10.0
  }

  lemma {:induction false} Pow10Step(e: int)
    ensures Pow10(e + 1) == 10.0 * Pow10(e) && Pow10(e) > 0.0
    decreases if e < 0 then -e else e
  {
    if e > 0 { Pow10Step(e - 1); } else if e < 0 { Pow10Step(e + 1); }
  }

  lemma {:induction false} Pow10Grows(a: int, b: int)
    requires a <= b
    ensures 0.0 < Pow10(a) <= Pow10(b)
    decreases b - a
  {
    Pow10Step(a);
    if a < b { Pow10Grows(a + 1, b); }
  }

  function Abs(x: real): real { if x < 0.0 then -x else x }

  function Toward0(x: real): int { if x >= 0.0 then x.Floor else -((-x).Floor) }

  /** A double is below ten to the 309. */
  predicate Finite(x: real) { Abs(x) < Pow10(309) }

  predicate Whole(x: real) { x == x.Floor as real }

  /** To the nearest whole number, to the even one of two. */
  function Nearest(x: real): (n: int)
    ensures Whole(x) ==> n as real == x
    ensures x >= 0.0 ==> n >= 0
    ensures -0.5 <= n as real - x <= 0.5
  {
    var f := x.Floor;
    var part := x - f as real;
    if part < 0.5 || (part == 0.5 && f % 2 == 0) then f else f + 1
  }

  // ---------------------------------------------------------------- which format

  const EPSILON: real := 1.0 / 4503599627370496.0

  /** "%d" */
  predicate AsInt(d: real) {
    Abs(Toward0(d) as real - d) <= EPSILON && -2147483648.0 <= d <= 2147483647.0
  }

  /** "%.0f" */
  predicate AsWhole(d: real) {
    Abs(d.Floor as real - d) <= EPSILON && Abs(d) < Pow10(60)
  }

  /** "%e" */
  predicate AsPower(d: real) {
    Abs(d) < 0.000001 || Abs(d) > 1000000000.0
  }

  lemma NotZero(d: real)
    ensures !AsInt(d) ==> Abs(d) > 0.0
  {
    assert AsInt(0.0);
  }

  // ---------------------------------------------------------------- the formats

  function Minus(d: real): string { if d < 0.0 then "-" else "" }
  function Sign(d: real): real { if d < 0.0 then -1.0 else 1.0 }

  function Scaled(sign: real, n: nat, e: int): real {
    sign * n as real * Pow10(e)
  }

  const MILLION := 1000000

  /** Digits before and after the point. */
  function Point(n: nat): string {
    Decimal(n / MILLION) + "." + Padded(n % MILLION, 6)
  }

  /** The power of ten at or below a number. */
  function Exp10(x: real): (e: int)
    requires x > 0.0
    ensures Pow10(e) <= x < Pow10(e + 1)
  {
    if x >= 1.0 then Exp10Up(x) else Exp10Down(x)
  }

  function Exp10Up(x: real): (e: int)
    requires x >= 1.0
    ensures Pow10(e) <= x < Pow10(e + 1) && e >= 0
    decreases x.Floor
  {
    assert Pow10(1) == 10.0 && Pow10(0) == 1.0;
    if x < 10.0 then 0
    else
      var e := Exp10Up(x / 10.0);
      Pow10Step(e);
      Pow10Step(e + 1);
      e + 1
  }

  function Exp10Down(x: real): (e: int)
    requires 0.0 < x < 1.0
    ensures Pow10(e) <= x < Pow10(e + 1) && e < 0
    decreases (1.0 / x).Floor
  {
    assert Pow10(-1) == 0.1 && Pow10(0) == 1.0;
    if x * 10.0 >= 1.0 then -1
    else
      Smaller(x);
      var e := Exp10Down(x * 10.0);
      Pow10Step(e);
      Pow10Step(e - 1);
      e - 1
  }

  lemma Smaller(x: real)
    requires 0.0 < x < 0.1
    ensures 0 <= (1.0 / (x * 10.0)).Floor < (1.0 / x).Floor
  {
    var y := 1.0 / x;
    assert x * y == 1.0;
    if 0.0 <= y <= 10.0 { SmallProduct(x, y); }
    assert y > 10.0;
    assert 1.0 / (x * 10.0) == y / 10.0;
  }

  lemma SmallProduct(x: real, y: real)
    requires 0.0 < x < 0.1 && 0.0 <= y <= 10.0
    ensures x * y < 1.0
  {
    assert x * y <= x * 10.0;
  }

  lemma Quotient(x: real, u: real)
    requires x > 0.0 && u > 0.0
    ensures x / u > 0.0 && x / u * u == x
  {
  }

  /** Seven digits and a power of ten: `m` times ten to the `e` - 6. */
  datatype Power = Power(m: nat, e: int)

  function Rounded(x: real): (p: Power)
    requires x > 0.0
  {
    var e, m := Exp10(x), Nearest(Scale(x));
    if m == 10 * MILLION then Power(MILLION, e + 1) else Power(m, e)
  }

  function PowerText(e: int): string {
    var a := if e < 0 then -e else e;
    (if e < 0 then "-" else "+") + (if a < 100 then Padded(a, 2) else Decimal(a))
  }

  /** print_number */
  function NumberText(d: real): string {
    if AsInt(d) then Integer(Toward0(d))
    else if AsWhole(d) then Integer(d.Floor)
    else if AsPower(d) then
      NotZero(d);
      var p := Rounded(Abs(d));
      Minus(d) + Point(p.m) + ("e" + PowerText(p.e))
    else Minus(d) + Point(Nearest(Abs(d) * MILLION as real))
  }

  /** The number that text stands for. */
  function Shown(d: real): real {
    if AsInt(d) then Toward0(d) as real
    else if AsWhole(d) then d.Floor as real
    else if AsPower(d) then
      NotZero(d);
      var p := Rounded(Abs(d));
      Scaled(Sign(d), p.m, p.e - 6)
    else Scaled(Sign(d), Nearest(Abs(d) * MILLION as real), -6)
  }

  /** A number is written without loss if it is whole, has at most six decimals, or at most seven digits in all,
      depending on the format it falls under. */
  predicate Exact(d: real) {
    if AsInt(d) || AsWhole(d) then Whole(d)
    else if AsPower(d) then
      NotZero(d);
      Whole(Scale(Abs(d)))
    else Whole(Abs(d) * MILLION as real)
  }

  lemma TenMillion(e: int)
    ensures Pow10(e + 1) == 10000000.0 * Pow10(e - 6) && Pow10(e - 6) > 0.0
  {
    Pow10Step(e);
    Pow10Step(e - 1);
    Pow10Step(e - 2);
    Pow10Step(e - 3);
    Pow10Step(e - 4);
    Pow10Step(e - 5);
    Pow10Step(e - 6);
  }

  lemma OneIff(x: real, u: real, y: real)
    requires u > 0.0 && x == y * u
    ensures Nearest(y) as real * u == x <==> Whole(y)
  {
    Cancel(Nearest(y) as real, y, u);
    assert Whole(Nearest(y) as real);
  }

  lemma CarryIff(x: real, u: real, y: real)
    requires u > 0.0 && x == y * u && y < 10000000.0 && Nearest(y) == 10 * MILLION
    ensures 10000000.0 * u != x && !Whole(y)
  {
    Cancel(10000000.0, y, u);
  }

  /** What is rounded: one digit before and six behind the point. */
  function Scale(x: real): (y: real)
    requires x > 0.0
    ensures 0.0 < y < 10000000.0 && Pow10(Exp10(x) - 6) > 0.0 && y * Pow10(Exp10(x) - 6) == x
  {
    TenMillion(Exp10(x));
    Scaling(x, Pow10(Exp10(x) - 6), Pow10(Exp10(x) + 1));
    x / Pow10(Exp10(x) - 6)
  }

  lemma Scaling(x: real, u: real, v: real)
    requires x > 0.0 && u > 0.0 && x < v == 10000000.0 * u
    ensures 0.0 < x / u < 10000000.0 && x / u * u == x
  {
    Quotient(x, u);
    Below(x / u, 10000000.0, u);
  }

  lemma RoundedIff(x: real)
    requires x > 0.0
    ensures var p := Rounded(x); p.m as real * Pow10(p.e - 6) == x <==> Whole(Scale(x))
  {
    hide Pow10, Nearest, Whole, Exp10, Scale;
    var e, y := Exp10(x), Scale(x);
    OneIff(x, Pow10(e - 6), y);
    if Nearest(y) == 10 * MILLION {
      CarryIff(x, Pow10(e - 6), y);
      CarriedOver(Pow10(e - 6), e);
    }
  }

  lemma CarriedOver(u: real, e: int)
    requires u == Pow10(e - 6)
    ensures MILLION as real * Pow10(e + 1 - 6) == 10000000.0 * u
  {
    Pow10Step(e - 6);
    assert e - 6 + 1 == e + 1 - 6;
  }

  lemma Below(a: real, b: real, u: real)
    requires u > 0.0 && a * u < b * u
    ensures a < b
  {
  }

  lemma Cancel(a: real, b: real, u: real)
    requires u > 0.0
    ensures a * u == b * u <==> a == b
  {
    if a < b { assert a * u < b * u; } else if a > b { assert a * u > b * u; }
  }

  lemma SixthPower()
    ensures Pow10(-6) * 1000000.0 == 1.0
  {
    TenMillion(-1);
    Pow10Step(-1);
    assert Pow10(0) == 1.0;
    assert Pow10(-7 + 1) == 10.0 * Pow10(-7) by { Pow10Step(-7); }
  }

  lemma FixedIff(x: real)
    requires x >= 0.0
    ensures var n := Nearest(x * MILLION as real); n as real * Pow10(-6) == x <==> Whole(x * MILLION as real)
  {
    hide Pow10;
    SixthPower();
    var n, u := Nearest(x * MILLION as real), Pow10(-6);
    Cancel(n as real * u, x, 1000000.0);
    assert n as real * u * 1000000.0 == n as real * (u * 1000000.0) == n as real;
    assert Whole(n as real);
  }

  /** The text stands for the number itself exactly when it is written without loss. */
  lemma ShownIff(d: real)
    ensures Shown(d) == d <==> Exact(d)
  {
    hide Pow10, Rounded, Nearest, AsPower, Exp10, Scaled, Abs, Whole, AsInt, AsWhole, Sign;
    var x := Abs(d);
    WholeIff(d);
    if !AsInt(d) && !AsWhole(d) {
      NotZero(d);
      if AsPower(d) {
        RoundedIff(x);
        var p := Rounded(x);
        Signed(d, p.m as real * Pow10(p.e - 6));
        Pulled(Sign(d), p.m, p.e - 6);
      } else {
        FixedIff(x);
        var n := Nearest(x * MILLION as real);
        Signed(d, n as real * Pow10(-6));
        Pulled(Sign(d), n, -6);
      }
    }
  }

  lemma WholeIff(d: real)
    ensures Toward0(d) as real == d <==> Whole(d)
    ensures d.Floor as real == d <==> Whole(d)
  {
    var n, m := d.Floor, (-d).Floor;
    IntFloor(-n);
    IntFloor(-m);
    assert (-n) as real == -(n as real) && (-m) as real == -(m as real);
  }

  lemma IntFloor(n: int)
    ensures (n as real).Floor == n
  {
  }

  lemma Pulled(sign: real, n: nat, e: int)
    ensures Scaled(sign, n, e) == sign * (n as real * Pow10(e))
  {
  }

  lemma Signed(d: real, y: real)
    ensures Sign(d) * y == d <==> y == Abs(d)
  {
  }
}
