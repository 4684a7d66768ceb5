/** Which literal is printed: the shortest one that reads back, with lower-case hexadecimal digits. */
module CanonicalEscapes {
  import opened Wrappers
  import opened CanonicalJson
  import opened CanonicalStrings

  /** Hexadecimal digits as RFC 8785 writes them. */
  predicate LowerHex(c: char) {
    '0' <= c <= '9' || 'a' <= c <= 'f'
  }

  /** Up to its closing quote, no escape of this literal has an upper-case digit. */
  predicate LowerEscapes(t: string)
    decreases |t|
  {
    if t == [] || t[0] == '\"' then true
    else if t[0] != '\\' then LowerEscapes(t[1..])
    else if |t| < 2 then true
    else if t[1] != 'u' then LowerEscapes(t[2..])
    else |t| < 6 || ((forall i | 2 <= i < 6 :: LowerHex(t[i])) && LowerEscapes(t[6..]))
  }

  /** The fewest characters that stand for one character inside a literal. */
  function Cost(c: char): nat {
    if c in {'\"', '\\', '\n', '\r', '\t', 0x08 as char, 0x0C as char} then 2 else if c as int < 0x20 then 6 else 1
  }

  function TotalCost(s: string): nat {
    if s == [] then 0 else Cost(s[0]) + TotalCost(s[1..])
  }

  /** One escape takes at least the cost of what it denotes, and if it takes just that, in lower case, it is the printed
      one. */
  lemma EscapeCosts(t: string)
    requires t != [] && t[0] == '\\' && ParseEscape(t).Some?
    ensures var (c, rest) := ParseEscape(t).value;
            && |rest| + Cost(c) <= |t|
            && (|rest| + Cost(c) == |t| && (|t| >= 6 && t[1] == 'u' ==> forall i | 2 <= i < 6 :: LowerHex(t[i])) ==>
                  t == FinalChar(c) + rest)
  {
    var (c, rest) := ParseEscape(t).value;
    if t[1] in {'\"', '\\', '/', 'b', 'f', 'n', 'r', 't'} {
      assert rest == t[2..];
      assert t == [t[0], t[1]] + rest;
    } else if |rest| + Cost(c) == |t| {
      assert Cost(c) == 6 && rest == t[6..];
      if forall i | 2 <= i < 6 :: LowerHex(t[i]) {
        ControlEscape(t, c);
        assert t == [t[0], t[1], t[2], t[3], t[4], t[5]] + rest;
      }
    }
  }

  lemma LowerHexDigit(x: char)
    requires LowerHex(x)
    ensures 0 <= HexValue(x) < 16 && x == HexDigit(HexValue(x))
  {
  }

  /** The only lower-case escape of a control character. */
  lemma ControlEscape(t: string, c: char)
    requires CodeUnit(t) == c as int < 0x20 && forall i | 2 <= i < 6 :: LowerHex(t[i])
    ensures |t| >= 6 && [t[0], t[1], t[2], t[3], t[4], t[5]] == "\\u00" + [HexDigit(c as int / 16), HexDigit(c as int % 16)]
  {
    LowerHexDigit(t[2]);
    LowerHexDigit(t[3]);
    LowerHexDigit(t[4]);
    LowerHexDigit(t[5]);
    var x, y, z, w := HexValue(t[2]), HexValue(t[3]), HexValue(t[4]), HexValue(t[5]);
    assert ((x * 16 + y) * 16 + z) * 16 + w == c as int;
    assert x == 0 && y == 0 && z == c as int / 16 && w == c as int % 16;
  }

  lemma FinalCharCost(c: char)
    ensures |FinalChar(c)| == Cost(c)
  {
  }

  /** A clean string is printed at its cost. */
  lemma {:induction false} BodyCost(s: string)
    requires CleanText(s)
    ensures |Body(s)| == TotalCost(s)
  {
    if s != [] {
      BodyCost(s[1..]);
      BodyStep(s);
      FinalCharCost(s[0]);
    }
  }

  /** Every literal takes at least the cost of the string it reads as. */
  lemma {:induction false} LiteralCosts(t: string)
    requires ParseChars(t).Some?
    ensures TotalCost(ParseChars(t).value.0) + 1 + |ParseChars(t).value.1| <= |t|
    decreases |t|
  {
    if t[0] != '\"' {
      if t[0] == '\\' {
        EscapeCosts(t);
        LiteralCosts(ParseEscape(t).value.1);
      } else {
        LiteralCosts(t[1..]);
      }
    }
  }

  /** No literal that reads back as a clean string is shorter than the printed one. */
  lemma PrintedIsShortest(s: string, t: string, rest: string)
    requires CleanText(s) && ParseChars(t) == Some((s, rest))
    ensures |EncodeString(s)| + |rest| <= |t| + 1
  {
    EncodedLiteral(s);
    BodyCost(s);
    LiteralCosts(t);
  }

  /** The printed literal is in lower case, clean or not. */
  lemma {:induction false} PrintedIsLowerCase(s: string, rest: string)
    ensures LowerEscapes(Body(s) + "\"" + rest)
    decreases |s|
  {
    if s == [] {
      assert (Body(s) + "\"" + rest)[0] == '\"';
    } else if StartsWith(s, ESCAPED_2028) || StartsWith(s, ESCAPED_2029) {
      var c := if StartsWith(s, ESCAPED_2028) then '\U{2028}' else '\U{2029}';
      PrintedIsLowerCase(s[6..], rest);
      assert Body(s) == ['\\', c] + Body(s[6..]);
      var t := Body(s) + "\"" + rest;
      assert t[0] == '\\' && t[1] == c && t[2..] == Body(s[6..]) + "\"" + rest;
    } else {
      PrintedIsLowerCase(s[1..], rest);
      BodyStep(s);
      Regroup(FinalChar(s[0]), Body(s[1..]), "\"");
      Regroup(FinalChar(s[0]), Body(s[1..]) + "\"", rest);
      LowerFirst(s[0], Body(s[1..]) + "\"" + rest);
    }
  }

  lemma LowerFirst(c: char, tail: string)
    requires LowerEscapes(tail)
    ensures LowerEscapes(FinalChar(c) + tail)
  {
    var u := FinalChar(c);
    var t := u + tail;
    assert t[0] == u[0];
    if |u| == 1 {
      assert t[1..] == tail;
    } else if |u| == 2 {
      assert t[1] == u[1] && t[2..] == tail;
    } else {
      assert forall i | 0 <= i < 6 :: t[i] == u[i];
      assert t[6..] == tail;
    }
  }

  /** The two together leave no choice: a lower-case literal of that length is the printed one. */
  lemma {:induction false} ShortestIsPrinted(t: string)
    requires ParseChars(t).Some? && LowerEscapes(t)
    requires |t| == TotalCost(ParseChars(t).value.0) + 1 + |ParseChars(t).value.1|
    ensures t == FinalBody(ParseChars(t).value.0) + "\"" + ParseChars(t).value.1
    decreases |t|
  {
    var (s, rest) := ParseChars(t).value;
    if t[0] == '\"' {
      assert t == "\"" + rest;
    } else {
      var after := if t[0] == '\\' then ParseEscape(t).value.1 else t[1..];
      LiteralCosts(after);
      if t[0] == '\\' {
        EscapeCosts(t);
        assert LowerEscapes(after);
      }
      assert t == FinalChar(s[0]) + after;
      ShortestIsPrinted(after);
      assert s[1..] == ParseChars(after).value.0;
      Regroup(FinalChar(s[0]), FinalBody(s[1..]), "\"");
      Regroup(FinalChar(s[0]), FinalBody(s[1..]) + "\"", rest);
    }
  }

  function FinalBody(s: string): string {
    if s == [] then [] else FinalChar(s[0]) + FinalBody(s[1..])
  }

  lemma {:induction false} CleanBody(s: string)
    requires CleanText(s)
    ensures Body(s) == FinalBody(s)
  {
    if s != [] {
      BodyStep(s);
      CleanBody(s[1..]);
    }
  }

  /** The printed form of a clean string is the one literal that reads back as it, is as short as any that does, and is
      in lower case. */
  lemma PrintedLiteralIsUnique(s: string, t: string)
    requires CleanText(s) && ParseChars(t) == Some((s, [])) && LowerEscapes(t)
    requires forall u | ParseChars(u) == Some((s, [])) :: |t| <= |u|
    ensures "\"" + t == EncodeString(s)
  {
    var printed := Body(s) + "\"";
    PrintedReads(s, printed);
    assert |t| <= |printed|;
    SameLengthIsPrinted(s, t);
  }

  lemma PrintedReads(s: string, printed: string)
    requires CleanText(s) && printed == Body(s) + "\""
    ensures ParseChars(printed) == Some((s, []))
  {
    LiteralReads(s, []);
    assert printed + [] == printed;
  }

  lemma SameLengthIsPrinted(s: string, t: string)
    requires CleanText(s) && ParseChars(t) == Some((s, [])) && LowerEscapes(t) && |t| <= |Body(s) + "\""|
    ensures "\"" + t == EncodeString(s)
  {
    EncodedLiteral(s);
    BodyCost(s);
    CleanBody(s);
    LiteralCosts(t);
    ShortestIsPrinted(t);
    assert t == (Body(s) + "\"") + [];
    Regroup("\"", Body(s), "\"");
  }
}
