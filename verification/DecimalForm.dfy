/** Canonical decimal strings: a normal form for numeric equality. */
module DecimalForm {
  import opened Wrappers

  type Digit = d: int | 0 <= d < 10

  /** `Decimal.as_tuple()` of a finite decimal. */
  datatype Decimal = Decimal(negative: bool, digits: seq<Digit>, exponent: int)

  /** No leading coefficient zeros; zero is the single digit 0 (or none). */
  predicate Finite(d: Decimal) {
    |d.digits| <= 1 || d.digits[0] != 0
  }

  // ---------------------------------------------------------------------------
  // Numeric value

  function Pow10(n: nat): nat {
    if n == 0 then 1 else 10 * Pow10(n - 1)
  }

  function Coefficient(digits: seq<Digit>): nat {
    if digits == [] then 0 else Coefficient(digits[..|digits| - 1]) * 10 + digits[|digits| - 1]
  }

  /** The value scaled by ten to the power `-e`, for an `e` at or below the exponent. */
  function Scaled(d: Decimal, e: int): int
    requires e <= d.exponent
  {
    var magnitude := Coefficient(d.digits) * Pow10(d.exponent - e);
    if d.negative then -magnitude else magnitude
  }

  function Lower(a: int, b: int): int {
    if a <= b then a else b
  }

  /** Numeric equality: equal once both are scaled to a common exponent. */
  predicate SameValue(a: Decimal, b: Decimal) {
    var e := Lower(a.exponent, b.exponent);
    Scaled(a, e) == Scaled(b, e)
  }

  // ---------------------------------------------------------------------------
  // Rendering

  function DigitChar(d: Digit): char {
    ('0' as int + d) as char
  }

  function DigitText(digits: seq<Digit>): string {
    seq(|digits|, i requires 0 <= i < |digits| => DigitChar(digits[i]))
  }

  function Zeros(n: nat): string {
    seq(n, i => '0')
  }

  /** What the stripping loop leaves: no trailing zero digit. */
  function Stripped(d: Decimal): Decimal
    decreases |d.digits|
  {
    if d.digits == [] || d.digits[|d.digits| - 1] != 0 then d
    else Stripped(Decimal(d.negative, d.digits[..|d.digits| - 1], d.exponent + 1))
  }

  function Placed(s: Decimal): string
    requires s.digits != []
  {
    var text := DigitText(s.digits);
    if s.exponent >= 0 then text + Zeros(s.exponent)
    else
      var point := |text| + s.exponent;
      if point > 0 then text[..point] + "." + text[point..] else "0." + Zeros(-point) + text
  }

  function Render(d: Decimal): string {
    var s := Stripped(d);
    if s.digits == [] then "0" else (if s.negative then "-" else "") + Placed(s)
  }

  /** `canonical_decimal_string`, with its loop. */
  method CanonicalDecimalString(d: Decimal) returns (text: string)
    ensures text == Render(d)
  {
    var significant, exponent := d.digits, d.exponent;
    while significant != [] && significant[|significant| - 1] == 0
      invariant Stripped(Decimal(d.negative, significant, exponent)) == Stripped(d)
      decreases |significant|
    {
      significant := significant[..|significant| - 1];
      exponent := exponent + 1;
    }
    if significant == [] {
      return "0";
    }
    var coefficient := DigitText(significant);
    var rendered;
    if exponent >= 0 {
      rendered := coefficient + Zeros(exponent);
    } else {
      var point := |coefficient| + exponent;
      if point > 0 {
        rendered := coefficient[..point] + "." + coefficient[point..];
      } else {
        rendered := "0." + Zeros(-point) + coefficient;
      }
    }
    text := (if d.negative then "-" else "") + rendered;
  }

  // ---------------------------------------------------------------------------
  // Reading back

  predicate IsDigit(c: char) {
    '0' <= c <= '9'
  }

  function DigitsOf(t: string): Option<seq<Digit>> {
    if t == [] then Some([])
    else if !IsDigit(t[0]) then None
    else
      var rest :- DigitsOf(t[1..]);
      Some([t[0] as int - '0' as int] + rest)
  }

  /** Position of the first point, or the length. */
  function PointAt(t: string): (n: nat)
    ensures n <= |t|
  {
    if t == [] || t[0] == '.' then 0 else 1 + PointAt(t[1..])
  }

  function AfterPoint(t: string, point: nat): string {
    if point < |t| then t[point + 1..] else []
  }

  /** Fixed-point notation: an optional sign, digits, and optionally a point and digits. */
  function ReadUnsigned(t: string): Option<(seq<Digit>, int)> {
    var whole := DigitsOf(t[..PointAt(t)]);
    var fraction := DigitsOf(AfterPoint(t, PointAt(t)));
    if whole.Some? && fraction.Some? then Some((whole.value + fraction.value, -|fraction.value|)) else None
  }

  function ReadDecimal(t: string): Option<Decimal> {
    var negative := t != [] && t[0] == '-';
    var (digits, exponent) :- ReadUnsigned(if negative then t[1..] else t);
    Some(Decimal(negative, digits, exponent))
  }

  lemma {:induction false} DigitsOfText(digits: seq<Digit>)
    ensures DigitsOf(DigitText(digits)) == Some(digits)
  {
    if digits != [] {
      assert DigitText(digits)[1..] == DigitText(digits[1..]);
      DigitsOfText(digits[1..]);
      assert digits == [digits[0]] + digits[1..];
    }
  }

  function ZeroDigits(n: nat): seq<Digit> {
    seq(n, i => 0)
  }

  lemma DigitTextConcat(a: seq<Digit>, b: seq<Digit>)
    ensures DigitText(a + b) == DigitText(a) + DigitText(b)
  {
  }

  lemma ZerosText(n: nat)
    ensures Zeros(n) == DigitText(ZeroDigits(n))
  {
  }

  lemma {:induction false} PointAfter(digits: seq<Digit>, rest: string)
    requires rest == [] || rest[0] == '.'
    ensures PointAt(DigitText(digits) + rest) == |digits|
  {
    var t := DigitText(digits) + rest;
    if digits == [] {
      assert t == rest;
    } else {
      assert t[1..] == DigitText(digits[1..]) + rest;
      PointAfter(digits[1..], rest);
    }
  }

  lemma ReadWhole(whole: seq<Digit>)
    ensures ReadUnsigned(DigitText(whole)) == Some((whole, 0))
  {
    DigitsOfText(whole);
    PointAfter(whole, []);
    assert DigitText(whole) + [] == DigitText(whole);
    assert DigitText(whole)[..|whole|] == DigitText(whole);
    assert whole + [] == whole;
  }

  /** Where a text is cut by its point. */
  lemma CutAtPoint(a: string, b: string)
    ensures var t := a + ("." + b); t[..|a|] == a && t[|a| + 1..] == b && |t| == |a| + 1 + |b|
  {
  }

  lemma ReadFixed(whole: seq<Digit>, fraction: seq<Digit>)
    ensures ReadUnsigned(DigitText(whole) + ("." + DigitText(fraction))) == Some((whole + fraction, -|fraction|))
  {
    DigitsOfText(whole);
    DigitsOfText(fraction);
    PointAfter(whole, "." + DigitText(fraction));
    CutAtPoint(DigitText(whole), DigitText(fraction));
  }

  /** The digits and exponent that reading the placed digits gives: zeros padded on one side. */
  function PlacedDigits(s: Decimal): (seq<Digit>, int) {
    if s.exponent >= 0 then (s.digits + ZeroDigits(s.exponent), 0)
    else if |s.digits| + s.exponent > 0 then (s.digits, s.exponent)
    else ([0] + ZeroDigits(-(|s.digits| + s.exponent)) + s.digits, s.exponent)
  }

  lemma ReadPlaced(s: Decimal)
    requires s.digits != []
    ensures ReadUnsigned(Placed(s)) == Some(PlacedDigits(s))
    ensures Placed(s) != [] && Placed(s)[0] != '-'
  {
    if s.exponent >= 0 {
      ReadPlacedWhole(s);
    } else if |s.digits| + s.exponent > 0 {
      ReadPlacedInside(s);
    } else {
      ReadPlacedBefore(s);
    }
  }

  lemma Leads(digits: seq<Digit>, rest: string)
    requires digits != []
    ensures var t := DigitText(digits) + rest; t != [] && t[0] == DigitChar(digits[0]) != '-'
  {
  }

  lemma ReadPlacedWhole(s: Decimal)
    requires s.digits != [] && s.exponent >= 0
    ensures ReadUnsigned(Placed(s)) == Some(PlacedDigits(s)) && Placed(s) != [] && Placed(s)[0] != '-'
  {
    PlacedWhole(s.digits, s.exponent);
    ReadWhole(s.digits + ZeroDigits(s.exponent));
    Leads(s.digits, Zeros(s.exponent));
  }

  lemma ReadPlacedInside(s: Decimal)
    requires s.digits != [] && s.exponent < 0 < |s.digits| + s.exponent
    ensures ReadUnsigned(Placed(s)) == Some(PlacedDigits(s)) && Placed(s) != [] && Placed(s)[0] != '-'
  {
    ReadInside(s.digits, |s.digits| + s.exponent);
  }

  lemma ReadInside(digits: seq<Digit>, point: nat)
    requires 0 < point < |digits|
    ensures var text := DigitText(digits);
            var t := text[..point] + "." + text[point..];
            ReadUnsigned(t) == Some((digits, point - |digits|)) && t != [] && t[0] != '-'
  {
    var whole, fraction := digits[..point], digits[point..];
    PlacedInside(digits, point);
    ReadFixed(whole, fraction);
    assert whole + fraction == digits;
    Leads(whole, "." + DigitText(fraction));
  }

  lemma ReadPlacedBefore(s: Decimal)
    requires s.digits != [] && |s.digits| + s.exponent <= 0
    ensures ReadUnsigned(Placed(s)) == Some(PlacedDigits(s)) && Placed(s) != [] && Placed(s)[0] != '-'
  {
    ReadBefore(s.digits, -(|s.digits| + s.exponent));
  }

  lemma ReadBefore(digits: seq<Digit>, zeros: nat)
    ensures var t := "0." + Zeros(zeros) + DigitText(digits);
            ReadUnsigned(t) == Some(([0] + ZeroDigits(zeros) + digits, -(zeros + |digits|))) && t[0] != '-'
  {
    PlacedBefore(digits, zeros);
    ReadFixed([0], ZeroDigits(zeros) + digits);
    assert [0] + (ZeroDigits(zeros) + digits) == [0] + ZeroDigits(zeros) + digits;
  }

  lemma PlacedWhole(digits: seq<Digit>, zeros: nat)
    ensures DigitText(digits) + Zeros(zeros) == DigitText(digits + ZeroDigits(zeros))
  {
    ZerosText(zeros);
    DigitTextConcat(digits, ZeroDigits(zeros));
  }

  lemma PlacedInside(digits: seq<Digit>, point: nat)
    requires point <= |digits|
    ensures var text := DigitText(digits);
            text[..point] + "." + text[point..] == DigitText(digits[..point]) + ("." + DigitText(digits[point..]))
  {
    assert DigitText(digits)[..point] == DigitText(digits[..point]);
    assert DigitText(digits)[point..] == DigitText(digits[point..]);
  }

  lemma PlacedBefore(digits: seq<Digit>, zeros: nat)
    ensures "0." + Zeros(zeros) + DigitText(digits) == DigitText([0]) + ("." + DigitText(ZeroDigits(zeros) + digits))
  {
    ZerosText(zeros);
    DigitTextConcat(ZeroDigits(zeros), digits);
    assert DigitText([0]) == "0";
  }

  // ---------------------------------------------------------------------------
  // Values of padded and stripped digits

  lemma CoefficientLast(digits: seq<Digit>, last: Digit)
    ensures Coefficient(digits + [last]) == Coefficient(digits) * 10 + last
  {
    assert (digits + [last])[..|digits|] == digits;
  }

  lemma Products(x: int, y: int, z: int)
    ensures x * y * z == x * (y * z) && (-x) * y == -(x * y)
    ensures x * (10 * y) == (x * y) * 10 && (x * y + z) * 10 == (x * y) * 10 + z * 10
  {
  }

  lemma {:induction false} CoefficientConcat(a: seq<Digit>, b: seq<Digit>)
    ensures Coefficient(a + b) == Coefficient(a) * Pow10(|b|) + Coefficient(b)
  {
    if b == [] {
      assert a + b == a;
    } else {
      var n := |b| - 1;
      var head, last := b[..n], b[n];
      assert b == head + [last] && a + b == (a + head) + [last];
      CoefficientConcat(a, head);
      CoefficientLast(a + head, last);
      CoefficientLast(head, last);
      assert Pow10(|b|) == 10 * Pow10(n);
      Products(Coefficient(a), Pow10(n), Coefficient(head));
    }
  }

  lemma {:induction false} CoefficientZeros(n: nat)
    ensures Coefficient(ZeroDigits(n)) == 0
  {
    if n > 0 {
      assert ZeroDigits(n)[..n - 1] == ZeroDigits(n - 1);
      CoefficientZeros(n - 1);
    }
  }

  lemma {:induction false} Pow10Adds(a: nat, b: nat)
    ensures Pow10(a + b) == Pow10(a) * Pow10(b) && Pow10(a) > 0
  {
    if a > 0 {
      Pow10Adds(a - 1, b);
      assert Pow10(a + b) == 10 * Pow10(a - 1 + b);
      Products(10, Pow10(a - 1), Pow10(b));
    }
  }

  /** Scaling further multiplies. */
  lemma ScaledFurther(d: Decimal, e: int, f: int)
    requires f <= e <= d.exponent
    ensures Scaled(d, f) == Scaled(d, e) * Pow10(e - f)
  {
    var c: int, p: int, q: int := Coefficient(d.digits), Pow10(d.exponent - e), Pow10(e - f);
    Pow10Adds(d.exponent - e, e - f);
    Products(c, p, q);
    Products(c * p, q, 0);
  }

  /** Equality does not depend on the common exponent chosen. */
  lemma SameValueAt(a: Decimal, b: Decimal, e: int)
    requires e <= a.exponent && e <= b.exponent
    ensures SameValue(a, b) <==> Scaled(a, e) == Scaled(b, e)
  {
    var m := Lower(a.exponent, b.exponent);
    ScaledFurther(a, m, e);
    ScaledFurther(b, m, e);
    Pow10Adds(m - e, 0);
    Cancel(Scaled(a, m), Scaled(b, m), Pow10(m - e));
  }

  lemma Cancel(x: int, y: int, k: int)
    requires k > 0
    ensures x * k == y * k <==> x == y
  {
    if x < y {
      assert (y - x) * k > 0;
    } else if x > y {
      assert (x - y) * k > 0;
    }
  }

  lemma SameValueTransitive(a: Decimal, b: Decimal, c: Decimal)
    requires SameValue(a, b) && SameValue(b, c)
    ensures SameValue(a, c)
  {
    var e := Lower(a.exponent, Lower(b.exponent, c.exponent));
    SameValueAt(a, b, e);
    SameValueAt(b, c, e);
    SameValueAt(a, c, e);
  }

  lemma {:induction false} StrippedSame(d: Decimal)
    ensures SameValue(Stripped(d), d)
    ensures var s := Stripped(d);
            && s.exponent >= d.exponent && s.negative == d.negative && |s.digits| <= |d.digits|
            && (s.digits != [] ==> s.digits[|s.digits| - 1] != 0)
            && (Finite(d) && s.digits != [] ==> s.digits[0] != 0)
            && s.digits == d.digits[..|s.digits|]
    decreases |d.digits|
  {
    if d.digits != [] && d.digits[|d.digits| - 1] == 0 {
      var head := d.digits[..|d.digits| - 1];
      var t := Decimal(d.negative, head, d.exponent + 1);
      StrippedSame(t);
      assert Pow10(1) == 10 && Pow10(0) == 1;
      assert Coefficient(d.digits) == Coefficient(head) * 10;
      assert Scaled(t, d.exponent) == Scaled(d, d.exponent);
      SameValueTransitive(Stripped(t), t, d);
    } else {
      assert d.digits[..|d.digits|] == d.digits;
    }
  }

  /** The same coefficient at the same exponent is the same value. */
  lemma SameCoefficient(negative: bool, a: seq<Digit>, b: seq<Digit>, exponent: int)
    requires Coefficient(a) == Coefficient(b)
    ensures SameValue(Decimal(negative, a, exponent), Decimal(negative, b, exponent))
  {
  }

  lemma PaddedRight(negative: bool, digits: seq<Digit>, zeros: nat)
    ensures SameValue(Decimal(negative, digits + ZeroDigits(zeros), 0), Decimal(negative, digits, zeros))
  {
    CoefficientConcat(digits, ZeroDigits(zeros));
    CoefficientZeros(zeros);
    assert Pow10(0) == 1;
  }

  lemma PaddedLeft(digits: seq<Digit>, zeros: nat)
    ensures Coefficient([0] + ZeroDigits(zeros) + digits) == Coefficient(digits)
  {
    CoefficientConcat([0] + ZeroDigits(zeros), digits);
    assert [0] + ZeroDigits(zeros) == ZeroDigits(zeros + 1);
    CoefficientZeros(zeros + 1);
  }

  /** Placing the point and padding with zeros keeps the value. */
  lemma PlacedSame(s: Decimal)
    requires s.digits != []
    ensures SameValue(Decimal(s.negative, PlacedDigits(s).0, PlacedDigits(s).1), s)
  {
    if s.exponent >= 0 {
      PaddedRight(s.negative, s.digits, s.exponent);
    } else if |s.digits| + s.exponent > 0 {
      SameCoefficient(s.negative, s.digits, s.digits, s.exponent);
    } else {
      var zeros: int := -(|s.digits| + s.exponent);
      PaddedLeft(s.digits, zeros);
      SameCoefficient(s.negative, PlacedDigits(s).0, s.digits, s.exponent);
    }
  }

  // ---------------------------------------------------------------------------
  // Theorems

  /** Reading the rendered string back gives the exact value. */
  lemma RenderReadsBack(d: Decimal)
    ensures ReadDecimal(Render(d)).Some? && SameValue(ReadDecimal(Render(d)).value, d)
  {
    var s := Stripped(d);
    StrippedSame(d);
    if s.digits == [] {
      ReadWhole([0]);
      assert DigitText([0]) == "0";
      var r := ReadDecimal("0").value;
      assert Coefficient(s.digits) == 0 && Coefficient(r.digits) == 0;
      assert SameValue(r, s);
      SameValueTransitive(r, s, d);
    } else {
      ReadPlaced(s);
      PlacedSame(s);
      var t := Render(d);
      if s.negative {
        assert t[1..] == Placed(s);
      } else {
        assert t == Placed(s);
      }
      SameValueTransitive(ReadDecimal(t).value, s, d);
    }
  }

  lemma {:induction false} CoefficientPositive(digits: seq<Digit>)
    requires digits != [] && digits[0] != 0
    ensures Coefficient(digits) > 0
  {
    if |digits| > 1 {
      CoefficientPositive(digits[..|digits| - 1]);
    }
  }

  /** Digit strings without leading zeros are determined by their coefficient. */
  lemma {:induction false} CoefficientInjective(a: seq<Digit>, b: seq<Digit>)
    requires a != [] && b != [] && a[0] != 0 && b[0] != 0 && Coefficient(a) == Coefficient(b)
    ensures a == b
  {
    var m, n := |a| - 1, |b| - 1;
    assert Coefficient(a) % 10 == a[m] && Coefficient(b) % 10 == b[n];
    assert Coefficient(a) / 10 == Coefficient(a[..m]) && Coefficient(b) / 10 == Coefficient(b[..n]);
    if m > 0 { CoefficientPositive(a[..m]); }
    if n > 0 { CoefficientPositive(b[..n]); }
    if m > 0 && n > 0 {
      CoefficientInjective(a[..m], b[..n]);
    }
    assert a == a[..m] + [a[m]] && b == b[..n] + [b[n]];
  }

  /** Stripped non-zero decimals of equal value are identical. */
  lemma StrippedUnique(a: Decimal, b: Decimal)
    requires a.digits != [] && a.digits[0] != 0 && a.digits[|a.digits| - 1] != 0
    requires b.digits != [] && b.digits[0] != 0 && b.digits[|b.digits| - 1] != 0
    requires SameValue(a, b)
    ensures a == b
  {
    if a.exponent <= b.exponent {
      StrippedUniqueOrdered(a, b);
    } else {
      StrippedUniqueOrdered(b, a);
    }
  }

  lemma TensMultiple(y: nat, k: nat)
    requires k > 0
    ensures y * Pow10(k) % 10 == 0
  {
    assert y * Pow10(k) == 10 * (y * Pow10(k - 1));
  }

  /** Two scaled coefficients with signs are equal only if the signs are, once one of them is not zero. */
  lemma SignsAgree(n: bool, x: int, m: bool, y: int)
    requires x > 0 && y > 0 && (if n then -x else x) == (if m then -y else y)
    ensures n == m && x == y
  {
  }

  lemma LastDigit(digits: seq<Digit>)
    requires digits != []
    ensures Coefficient(digits) % 10 == digits[|digits| - 1]
  {
  }

  lemma StrippedUniqueOrdered(a: Decimal, b: Decimal)
    requires a.digits != [] && a.digits[0] != 0 && a.digits[|a.digits| - 1] != 0
    requires b.digits != [] && b.digits[0] != 0
    requires a.exponent <= b.exponent && SameValue(a, b)
    ensures a == b
  {
    var k := b.exponent - a.exponent;
    var x, y := Coefficient(a.digits), Coefficient(b.digits);
    CoefficientPositive(a.digits);
    CoefficientPositive(b.digits);
    Pow10Adds(k, 0);
    Positive(y, Pow10(k));
    assert Pow10(0) == 1;
    SignsAgree(a.negative, x, b.negative, y * Pow10(k));
    LastDigit(a.digits);
    if k > 0 {
      TensMultiple(y, k);
    }
    CoefficientInjective(a.digits, b.digits);
  }

  lemma Positive(x: int, y: int)
    requires x > 0 && y > 0
    ensures x * y > 0
  {
  }

  predicate IsZero(d: Decimal) {
    Stripped(d).digits == []
  }

  lemma ZeroIffCoefficient(d: Decimal)
    requires Finite(d)
    ensures IsZero(d) <==> Coefficient(d.digits) == 0
  {
    var s := Stripped(d);
    StrippedSame(d);
    ZeroTogether(s, d);
    if s.digits != [] {
      CoefficientPositive(s.digits);
    }
  }

  lemma SameValueSymmetric(a: Decimal, b: Decimal)
    ensures SameValue(a, b) <==> SameValue(b, a)
  {
  }

  lemma RenderEqual(a: Decimal, b: Decimal)
    requires Render(a) == Render(b)
    ensures SameValue(a, b)
  {
    RenderReadsBack(a);
    RenderReadsBack(b);
    var r := ReadDecimal(Render(a)).value;
    SameValueSymmetric(r, a);
    SameValueTransitive(a, r, b);
  }

  /** Equal values strip to the same digits, or both to none. */
  lemma StrippedEqual(a: Decimal, b: Decimal)
    requires Finite(a) && Finite(b) && SameValue(a, b)
    ensures Stripped(a) == Stripped(b) || (IsZero(a) && IsZero(b))
  {
    var s, t := Stripped(a), Stripped(b);
    StrippedSame(a);
    StrippedSame(b);
    SameValueTransitive(s, a, b);
    SameValueSymmetric(t, b);
    SameValueTransitive(s, b, t);
    ZeroIffCoefficient(a);
    ZeroIffCoefficient(b);
    ZeroTogether(a, b);
    if s.digits != [] {
      StrippedUnique(s, t);
    }
  }

  /** Two finite decimals render equally exactly when they are numerically equal, signed zeros and differing
      exponents included. */
  lemma RenderIsNormalForm(a: Decimal, b: Decimal)
    requires Finite(a) && Finite(b)
    ensures Render(a) == Render(b) <==> SameValue(a, b)
  {
    if Render(a) == Render(b) {
      RenderEqual(a, b);
    } else if SameValue(a, b) {
      StrippedEqual(a, b);
    }
  }

  lemma ZeroTogether(a: Decimal, b: Decimal)
    requires SameValue(a, b)
    ensures Coefficient(a.digits) == 0 <==> Coefficient(b.digits) == 0
  {
    var e := Lower(a.exponent, b.exponent);
    Pow10Adds(a.exponent - e, 0);
    Pow10Adds(b.exponent - e, 0);
    Cancel(Coefficient(a.digits), 0, Pow10(a.exponent - e));
    Cancel(Coefficient(b.digits), 0, Pow10(b.exponent - e));
  }

  /** Fixed-point text without redundant zeros: digits, then optionally a point and digits ending in a non-zero one. */
  ghost predicate Shaped(t: string, whole: seq<Digit>, fraction: seq<Digit>) {
    && whole != [] && (whole == [0] || whole[0] != 0)
    && (fraction != [] ==> fraction[|fraction| - 1] != 0)
    && t == DigitText(whole) + if fraction == [] then "" else "." + DigitText(fraction)
  }

  lemma PlacedShape(s: Decimal) returns (whole: seq<Digit>, fraction: seq<Digit>)
    requires s.digits != [] && s.digits[0] != 0 && s.digits[|s.digits| - 1] != 0
    ensures Shaped(Placed(s), whole, fraction)
    ensures whole != [0] || fraction != []
  {
    if s.exponent >= 0 {
      whole, fraction := s.digits + ZeroDigits(s.exponent), [];
      PlacedWhole(s.digits, s.exponent);
      assert whole[0] == s.digits[0];
      assert DigitText(whole) + "" == DigitText(whole);
    } else {
      var point := |s.digits| + s.exponent;
      if point > 0 {
        whole, fraction := s.digits[..point], s.digits[point..];
        PlacedInside(s.digits, point);
      } else {
        whole, fraction := [0], ZeroDigits(-point) + s.digits;
        PlacedBefore(s.digits, -point);
      }
    }
  }

  /** The output has no exponent, no sign on zero, no redundant leading zero and no trailing fractional zero. */
  lemma RenderShape(d: Decimal) returns (whole: seq<Digit>, fraction: seq<Digit>)
    requires Finite(d)
    ensures Shaped(Render(d), whole, fraction)
            || (Render(d) != [] && Render(d)[0] == '-' && Shaped(Render(d)[1..], whole, fraction) && (whole != [0] || fraction != []))
    ensures IsZero(d) <==> Render(d) == "0"
  {
    var s := Stripped(d);
    StrippedSame(d);
    assert DigitText([0]) == "0";
    if s.digits == [] {
      whole, fraction := [0], [];
      assert DigitText([0]) + "" == "0";
    } else {
      whole, fraction := PlacedShape(s);
      var t := Render(d);
      if s.negative {
        assert t[1..] == Placed(s);
      } else {
        assert t == Placed(s);
        NotZeroText(whole, fraction, t);
      }
    }
  }

  lemma NotZeroText(whole: seq<Digit>, fraction: seq<Digit>, t: string)
    requires Shaped(t, whole, fraction) && (whole != [0] || fraction != [])
    ensures t != "0"
  {
    assert t[0] == DigitChar(whole[0]);
    assert |whole| == 1 ==> whole == [whole[0]];
  }
}
