/** Orders on JSON object keys.

    The guest sorts keys with Go's `sort.Strings`, which compares UTF-8 bytes.  The host
    prints with RFC 8785, whose section 3.2.3 sorts by UTF-16 code units.  A `char` is a
    Unicode scalar value, so a `string` is exactly what both sides hold after decoding.
 */
module KeyOrder {

  function Utf8Char(c: char): seq<int> {
    var n := c as int;
    if n < 0x80 then [n]
    else if n < 0x800 then [0xC0 + n / 0x40, 0x80 + n % 0x40]
    else if n < 0x10000 then [0xE0 + n / 0x1000, 0x80 + n / 0x40 % 0x40, 0x80 + n % 0x40]
    else [0xF0 + n / 0x40000, 0x80 + n / 0x1000 % 0x40, 0x80 + n / 0x40 % 0x40, 0x80 + n % 0x40]
  }

  function Utf16Char(c: char): seq<int> {
    var n := c as int;
    if n < 0x10000 then [n] else [0xD800 + (n - 0x10000) / 0x400, 0xDC00 + (n - 0x10000) % 0x400]
  }

  function Utf8(s: string): seq<int> {
    if s == [] then [] else Utf8Char(s[0]) + Utf8(s[1..])
  }

  function Utf16(s: string): seq<int> {
    if s == [] then [] else Utf16Char(s[0]) + Utf16(s[1..])
  }

  /** Lexicographic order on sequences of code units; a proper prefix comes first. */
  predicate LexLess(a: seq<int>, b: seq<int>) {
    b != [] && (a == [] || a[0] < b[0] || (a[0] == b[0] && LexLess(a[1..], b[1..])))
  }

  /** The order of `sort.Strings`. */
  predicate KeyLess(a: string, b: string) {
    LexLess(Utf8(a), Utf8(b))
  }

  /** The order of section 3.2.3 of RFC 8785. */
  predicate Utf16Less(a: string, b: string) {
    LexLess(Utf16(a), Utf16(b))
  }

  /** Lexicographic order on scalar values: the reference both orders are compared with. */
  predicate ScalarLess(a: string, b: string) {
    b != [] && (a == [] || a[0] < b[0] || (a[0] == b[0] && ScalarLess(a[1..], b[1..])))
  }

  lemma {:induction false} LexCommonPrefix(u: seq<int>, x: seq<int>, y: seq<int>)
    ensures LexLess(u + x, u + y) == LexLess(x, y)
  {
    if u == [] {
      assert u + x == x && u + y == y;
    } else {
      assert (u + x)[1..] == u[1..] + x && (u + y)[1..] == u[1..] + y;
      LexCommonPrefix(u[1..], x, y);
    }
  }

  /** Two numbers compare by their quotients, then by their last base-64 digits. */
  lemma ByQuotient(m: nat, n: nat)
    ensures m / 0x40 != n / 0x40 ==> (m < n <==> m / 0x40 < n / 0x40)
    ensures m / 0x40 == n / 0x40 ==> (m < n <==> m % 0x40 < n % 0x40) && (m == n <==> m % 0x40 == n % 0x40)
  {
  }

  /** The same for the three numbers UTF-8 cuts a scalar into. */
  lemma ByDigits(m: nat, n: nat)
    ensures m / 0x1000 != n / 0x1000 ==> (m < n <==> m / 0x1000 < n / 0x1000)
    ensures m / 0x1000 == n / 0x1000 && m / 0x40 % 0x40 != n / 0x40 % 0x40 ==>
              (m < n <==> m / 0x40 % 0x40 < n / 0x40 % 0x40)
    ensures m / 0x1000 == n / 0x1000 && m / 0x40 % 0x40 == n / 0x40 % 0x40 ==>
              (m < n <==> m % 0x40 < n % 0x40) && (m == n <==> m % 0x40 == n % 0x40)
  {
    assert m / 0x40 / 0x40 == m / 0x1000 && n / 0x40 / 0x40 == n / 0x1000;
    ByQuotient(m, n);
    ByQuotient(m / 0x40, n / 0x40);
  }

  /** Where two byte strings first differ. */
  ghost predicate DiffersAt(p: seq<int>, q: seq<int>, k: nat, less: bool) {
    k < |p| && k < |q| && p[..k] == q[..k] && p[k] != q[k] && (p[k] < q[k] <==> less)
  }

  lemma Utf8DifferShort(c: char, d: char) returns (k: nat)
    requires c != d && c as int < 0x10000 && d as int < 0x10000
    ensures DiffersAt(Utf8Char(c), Utf8Char(d), k, c < d)
  {
    var p, q := Utf8Char(c), Utf8Char(d);
    if |p| != |q| || |p| == 1 {
      k := 0;
    } else if |p| == 2 {
      ByQuotient(c as int, d as int);
      k := if p[0] != q[0] then 0 else 1;
    } else {
      ByDigits(c as int, d as int);
      k := if p[0] != q[0] then 0 else if p[1] != q[1] then 1 else 2;
    }
  }

  lemma Utf8DifferLong(c: char, d: char) returns (k: nat)
    requires c != d && c as int >= 0x10000 && d as int >= 0x10000
    ensures DiffersAt(Utf8Char(c), Utf8Char(d), k, c < d)
  {
    var m, n := c as int, d as int;
    assert m / 0x1000 / 0x40 == m / 0x40000 && n / 0x1000 / 0x40 == n / 0x40000;
    ByDigits(m, n);
    ByQuotient(m / 0x1000, n / 0x1000);
    var p, q := Utf8Char(c), Utf8Char(d);
    if p[0] != q[0] {
      k := 0;
    } else if p[1] != q[1] {
      k := 1;
    } else if p[2] != q[2] {
      k := 2;
    } else {
      k := 3;
    }
  }

  /** Two different scalars encode to byte strings neither of which is a prefix of the other, and
      whatever follows them the comparison is decided by the scalars. */
  lemma Utf8CharOrder(c: char, d: char, x: seq<int>, y: seq<int>)
    requires c != d
    ensures LexLess(Utf8Char(c) + x, Utf8Char(d) + y) == (c < d)
  {
    if c as int < 0x10000 && d as int < 0x10000 {
      var k := Utf8DifferShort(c, d);
      LexDecided(Utf8Char(c), Utf8Char(d), x, y, k);
    } else if c as int >= 0x10000 && d as int >= 0x10000 {
      var k := Utf8DifferLong(c, d);
      LexDecided(Utf8Char(c), Utf8Char(d), x, y, k);
    } else {
      LexDecided(Utf8Char(c), Utf8Char(d), x, y, 0);
    }
  }

  /** A comparison decided inside two heads ignores what follows them. */
  lemma LexDecided(p: seq<int>, q: seq<int>, x: seq<int>, y: seq<int>, k: nat)
    requires k < |p| && k < |q| && p[..k] == q[..k] && p[k] != q[k]
    ensures LexLess(p + x, q + y) == (p[k] < q[k])
  {
    assert p + x == p[..k] + (p[k..] + x) && q + y == p[..k] + (q[k..] + y);
    LexCommonPrefix(p[..k], p[k..] + x, q[k..] + y);
  }

  /** Byte order on UTF-8 is scalar order. */
  lemma {:induction false} KeyLessIsScalarOrder(a: string, b: string)
    ensures KeyLess(a, b) == ScalarLess(a, b)
  {
    if b != [] {
      if a == [] {
        assert Utf8(b)[0] == Utf8Char(b[0])[0];
      } else if a[0] == b[0] {
        LexCommonPrefix(Utf8Char(a[0]), Utf8(a[1..]), Utf8(b[1..]));
        KeyLessIsScalarOrder(a[1..], b[1..]);
      } else {
        Utf8CharOrder(a[0], b[0], Utf8(a[1..]), Utf8(b[1..]));
      }
    }
  }

  lemma {:induction false} ScalarTrichotomy(a: string, b: string)
    ensures (if ScalarLess(a, b) then 1 else 0) + (if ScalarLess(b, a) then 1 else 0) + (if a == b then 1 else 0) == 1
  {
    if a != [] && b != [] && a[0] == b[0] {
      ScalarTrichotomy(a[1..], b[1..]);
      assert a == [a[0]] + a[1..] && b == [b[0]] + b[1..];
    }
  }

  lemma {:induction false} ScalarTransitive(a: string, b: string, c: string)
    requires ScalarLess(a, b) && ScalarLess(b, c)
    ensures ScalarLess(a, c)
  {
    if a != [] && a[0] == b[0] && b[0] == c[0] {
      ScalarTransitive(a[1..], b[1..], c[1..]);
    }
  }

  /** `sort.Strings` sorts by a strict total order, so a key set has one ascending listing. */
  lemma KeyLessIsStrictTotal(a: string, b: string, c: string)
    ensures !KeyLess(a, a)
    ensures KeyLess(a, b) && KeyLess(b, c) ==> KeyLess(a, c)
    ensures KeyLess(a, b) ==> !KeyLess(b, a)
    ensures a != b ==> KeyLess(a, b) || KeyLess(b, a)
  {
    KeyLessIsScalarOrder(a, a);
    KeyLessIsScalarOrder(a, b);
    KeyLessIsScalarOrder(b, a);
    KeyLessIsScalarOrder(b, c);
    KeyLessIsScalarOrder(a, c);
    ScalarTrichotomy(a, a);
    ScalarTrichotomy(a, b);
    if ScalarLess(a, b) && ScalarLess(b, c) {
      ScalarTransitive(a, b, c);
    }
  }

  predicate Supplementary(c: char) {
    c as int >= 0x10000
  }

  /** The pairs of scalars that UTF-16 orders the other way round: a surrogate pair starts below U+E000. */
  predicate InvertedPair(c: char, d: char) {
    (Supplementary(c) && 0xE000 <= d as int < 0x10000) || (Supplementary(d) && 0xE000 <= c as int < 0x10000)
  }

  /** The first position where two keys differ holds such a pair. */
  predicate InvertedKeys(a: string, b: string) {
    a != [] && b != [] && (if a[0] == b[0] then InvertedKeys(a[1..], b[1..]) else InvertedPair(a[0], b[0]))
  }

  lemma Utf16CharOrder(c: char, d: char, x: seq<int>, y: seq<int>)
    requires c != d
    ensures LexLess(Utf16Char(c) + x, Utf16Char(d) + y) == ((c < d) != InvertedPair(c, d))
  {
    LexDecided(Utf16Char(c), Utf16Char(d), x, y, if Utf16Char(c)[0] != Utf16Char(d)[0] then 0 else 1);
  }

  /** Host and guest order two different keys the same way exactly when their first difference is not
      a supplementary scalar against one in U+E000..U+FFFF. */
  lemma {:induction false} HostAndGuestOrder(a: string, b: string)
    requires a != b
    ensures (Utf16Less(a, b) == KeyLess(a, b)) == !InvertedKeys(a, b)
  {
    KeyLessIsScalarOrder(a, b);
    if a == [] {
      assert Utf16(b)[0] == Utf16Char(b[0])[0];
    } else if b != [] {
      if a[0] == b[0] {
        assert a == [a[0]] + a[1..] && b == [b[0]] + b[1..];
        LexCommonPrefix(Utf16Char(a[0]), Utf16(a[1..]), Utf16(b[1..]));
        KeyLessIsScalarOrder(a[1..], b[1..]);
        HostAndGuestOrder(a[1..], b[1..]);
      } else {
        Utf16CharOrder(a[0], b[0], Utf16(a[1..]), Utf16(b[1..]));
      }
    }
  }

  predicate NoSupplementary(s: string) {
    forall i | 0 <= i < |s| :: !Supplementary(s[i])
  }

  /** So on keys without supplementary characters the two printers agree on every comparison. */
  lemma {:induction false} AgreeWithoutSupplementary(a: string, b: string)
    requires NoSupplementary(a) && NoSupplementary(b)
    ensures Utf16Less(a, b) == KeyLess(a, b)
  {
    if a == b {
      KeyLessIsStrictTotal(a, a, a);
      LexIrreflexive(Utf16(a));
    } else {
      HostAndGuestOrder(a, b);
      NotInvertedWithoutSupplementary(a, b);
    }
  }

  lemma {:induction false} LexIrreflexive(u: seq<int>)
    ensures !LexLess(u, u)
  {
    if u != [] { LexIrreflexive(u[1..]); }
  }

  lemma {:induction false} NotInvertedWithoutSupplementary(a: string, b: string)
    requires NoSupplementary(a) && NoSupplementary(b)
    ensures !InvertedKeys(a, b)
  {
    if a != [] && b != [] && a[0] == b[0] {
      NotInvertedWithoutSupplementary(a[1..], b[1..]);
    }
  }

  /** A pair of keys the two printers do order differently. */
  lemma SupplementaryDisagrees()
    ensures KeyLess("\U{E000}", "\U{10000}") && Utf16Less("\U{10000}", "\U{E000}")
  {
    KeyLessIsScalarOrder("\U{E000}", "\U{10000}");
    assert Utf16("\U{10000}")[0] == 0xD800 && Utf16("\U{E000}")[0] == 0xE000;
  }

  /** The bytes of one scalar are UTF-8: a lead byte that tells their number, continuation bytes, and the scalar's bits in
      order. */
  lemma Utf8Decodes(c: char)
    ensures var n, b := c as int, Utf8Char(c);
            && (|b| == 1 <==> n < 0x80) && (|b| == 2 <==> 0x80 <= n < 0x800) && (|b| == 3 <==> 0x800 <= n < 0x10000)
            && (|b| == 4 <==> 0x10000 <= n) && 1 <= |b| <= 4
            && (forall i | 1 <= i < |b| :: 0x80 <= b[i] < 0xC0)
            && (|b| == 1 ==> b[0] == n)
            && (|b| == 2 ==> 0xC0 <= b[0] < 0xE0 && n == (b[0] - 0xC0) * 0x40 + (b[1] - 0x80))
            && (|b| == 3 ==> 0xE0 <= b[0] < 0xF0 && n == ((b[0] - 0xE0) * 0x40 + (b[1] - 0x80)) * 0x40 + (b[2] - 0x80))
            && (|b| == 4 ==> 0xF0 <= b[0] < 0xF8
                             && n == (((b[0] - 0xF0) * 0x40 + (b[1] - 0x80)) * 0x40 + (b[2] - 0x80)) * 0x40 + (b[3] - 0x80))
  {
    var n := c as int;
    assert n / 0x40 / 0x40 == n / 0x1000 && n / 0x1000 / 0x40 == n / 0x40000;
  }

  /** The code units of one scalar are UTF-16: itself, or a high and a low surrogate that carry its bits in order. */
  lemma Utf16Decodes(c: char)
    ensures var n, u := c as int, Utf16Char(c);
            if n < 0x10000 then u == [n]
            else && |u| == 2 && 0xD800 <= u[0] < 0xDC00 && 0xDC00 <= u[1] < 0xE000
                 && n == 0x10000 + (u[0] - 0xD800) * 0x400 + (u[1] - 0xDC00)
  {
  }
}
