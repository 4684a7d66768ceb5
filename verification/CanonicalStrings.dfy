/** String literals: what the two replacements after encoding do, and exactly when a literal reads back. */
module CanonicalStrings {
  import opened Wrappers
  import opened CanonicalJson

  /** No backslash is directly followed by `u2028` or `u2029`. */
  predicate CleanText(s: string) {
    s == [] || (!StartsWith(s, ESCAPED_2028) && !StartsWith(s, ESCAPED_2029) && CleanText(s[1..]))
  }

  /** The literal's body after the first replacement. */
  function OnceReplaced(s: string): string
    decreases |s|
  {
    if s == [] then []
    else if StartsWith(s, ESCAPED_2028) then ['\\', '\U{2028}'] + OnceReplaced(s[6..])
    else if s[0] == '\U{2028}' then [s[0]] + OnceReplaced(s[1..])
    else EscapeChar(s[0]) + OnceReplaced(s[1..])
  }

  /** The literal's body after both replacements. */
  function Body(s: string): string
    decreases |s|
  {
    if s == [] then []
    else if StartsWith(s, ESCAPED_2028) then ['\\', '\U{2028}'] + Body(s[6..])
    else if StartsWith(s, ESCAPED_2029) then ['\\', '\U{2029}'] + Body(s[6..])
    else if s[0] == '\U{2028}' || s[0] == '\U{2029}' then [s[0]] + Body(s[1..])
    else EscapeChar(s[0]) + Body(s[1..])
  }

  lemma NoMatch(t: string, pattern: string, k: nat)
    requires k < |pattern| && (k < |t| ==> t[k] != pattern[k])
    ensures !StartsWith(t, pattern)
  {
  }

  lemma ReplaceStep(t: string, pattern: string, replacement: string)
    requires pattern != [] && t != [] && !StartsWith(t, pattern)
    ensures ReplaceAll(t, pattern, replacement) == [t[0]] + ReplaceAll(t[1..], pattern, replacement)
  {
  }

  lemma ReplaceMatch(t: string, pattern: string, replacement: string)
    requires pattern != []
    ensures ReplaceAll(pattern + t, pattern, replacement) == replacement + ReplaceAll(t, pattern, replacement)
  {
    assert (pattern + t)[..|pattern|] == pattern && (pattern + t)[|pattern|..] == t;
  }

  /** A head in which no match begins is copied. */
  lemma {:induction false} ReplaceSkips(u: string, t: string, pattern: string, replacement: string)
    requires pattern != []
    requires forall i | 0 <= i < |u| :: !StartsWith(u[i..] + t, pattern)
    ensures ReplaceAll(u + t, pattern, replacement) == u + ReplaceAll(t, pattern, replacement)
  {
    if u == [] {
      assert u + t == t;
    } else {
      assert u[0..] == u;
      ReplaceStep(u + t, pattern, replacement);
      assert (u + t)[1..] == u[1..] + t;
      forall i | 0 <= i < |u[1..]| ensures !StartsWith(u[1..][i..] + t, pattern) {
        assert u[1..][i..] == u[i + 1..];
      }
      ReplaceSkips(u[1..], t, pattern, replacement);
    }
  }

  predicate PlainChar(c: char) {
    c == 'u' || '0' <= c <= '9'
  }

  /** A character is its own escape, or its escape begins with a backslash. */
  lemma EscapeHead(c: char)
    ensures EscapeChar(c) == [c] || (|EscapeChar(c)| >= 2 && EscapeChar(c)[0] == '\\')
    ensures PlainChar(c) ==> EscapeChar(c) == [c]
  {
  }

  /** No match begins inside the escape of a character other than a backslash, unless it is the pattern. */
  lemma EscapeSkipped(c: char, t: string, pattern: string, replacement: string)
    requires pattern == ESCAPED_2028 || pattern == ESCAPED_2029
    requires c != '\\' && !(c == '\U{2028}' && pattern == ESCAPED_2028) && !(c == '\U{2029}' && pattern == ESCAPED_2029)
    ensures ReplaceAll(EscapeChar(c) + t, pattern, replacement) == EscapeChar(c) + ReplaceAll(t, pattern, replacement)
  {
    var u := EscapeChar(c);
    forall i | 0 <= i < |u| ensures !StartsWith(u[i..] + t, pattern) {
      var w := u[i..] + t;
      assert w[0] == u[i];
      NoMatch(w, pattern, if u[i] != '\\' then 0 else if |u| == 2 then 1 else if u[2] == '0' then 2 else 5);
    }
    ReplaceSkips(u, t, pattern, replacement);
  }

  /** Words of `u` and digits: they are their own escapes, and no other escape begins like them. */
  predicate PlainWord(w: string) {
    forall i | 0 <= i < |w| :: PlainChar(w[i])
  }

  /** Where an escape stands in front of a text, a plain word matches only through the character itself. */
  lemma WordStep(c: char, escape: string, tail: string, w: string)
    requires w != [] && PlainChar(w[0])
    requires escape == [c] || (|escape| >= 2 && escape[0] == '\\' && !PlainChar(c))
    ensures StartsWith(escape + tail, w) == (c == w[0] && StartsWith(tail, w[1..]))
  {
    var t := escape + tail;
    HeadThenWord(t, w);
    if escape == [c] {
      assert t[1..] == tail;
    }
  }

  lemma {:induction false} WordAfterEscaping(s: string, w: string, after: string)
    requires PlainWord(w) && after != [] && after[0] == '\"'
    ensures StartsWith(EscapeAll(s) + after, w) == StartsWith(s, w)
  {
    if w != [] {
      assert PlainChar(w[0]);
      if s == [] {
        assert EscapeAll(s) + after == after;
        NoMatch(after, w, 0);
      } else {
        EscapeHead(s[0]);
        Regroup(EscapeChar(s[0]), EscapeAll(s[1..]), after);
        WordStep(s[0], EscapeChar(s[0]), EscapeAll(s[1..]) + after, w);
        WordAfterEscaping(s[1..], w[1..], after);
        HeadThenWord(s, w);
      }
    }
  }

  lemma HeadThenWord(t: string, w: string)
    requires w != [] && t != []
    ensures StartsWith(t, w) == (t[0] == w[0] && StartsWith(t[1..], w[1..]))
  {
    assert t == [t[0]] + t[1..] && w == [w[0]] + w[1..];
  }

  lemma Regroup(a: string, b: string, c: string)
    ensures (a + b) + c == a + (b + c)
  {
  }

  /** What stands for one character after the first replacement, when no pattern begins there. */
  function OnceChar(c: char): (r: string)
    ensures r == [c] || (|r| >= 2 && r[0] == '\\' && !PlainChar(c))
  {
    EscapeHead(c);
    if c == '\U{2028}' then [c] else EscapeChar(c)
  }

  /** The same after both replacements. */
  function FinalChar(c: char): string {
    if c == '\U{2028}' || c == '\U{2029}' then [c] else EscapeChar(c)
  }

  lemma OnceReplacedPattern(s: string)
    requires StartsWith(s, ESCAPED_2028)
    ensures s != [] && s[0] == '\\' && OnceReplaced(s) == ['\\', '\U{2028}'] + OnceReplaced(s[6..])
  {
  }

  /** One character at the front, when no replacement happens there. */
  lemma OnceReplacedStep(s: string)
    requires s != [] && !StartsWith(s, ESCAPED_2028)
    ensures OnceReplaced(s) == OnceChar(s[0]) + OnceReplaced(s[1..])
  {
  }

  lemma {:induction false} WordAfterFirstPass(s: string, w: string, after: string)
    requires PlainWord(w) && after != [] && after[0] == '\"'
    ensures StartsWith(OnceReplaced(s) + after, w) == StartsWith(s, w)
  {
    if w != [] {
      assert PlainChar(w[0]);
      if s == [] {
        assert OnceReplaced(s) + after == after;
        NoMatch(after, w, 0);
      } else if StartsWith(s, ESCAPED_2028) {
        OnceReplacedPattern(s);
        NoMatch(OnceReplaced(s) + after, w, 0);
        NoMatch(s, w, 0);
      } else {
        OnceReplacedStep(s);
        Regroup(OnceChar(s[0]), OnceReplaced(s[1..]), after);
        WordStep(s[0], OnceChar(s[0]), OnceReplaced(s[1..]) + after, w);
        WordAfterFirstPass(s[1..], w[1..], after);
        HeadThenWord(s, w);
      }
    }
  }

  lemma {:induction false} EscapeAllConcat(a: string, b: string)
    ensures EscapeAll(a + b) == EscapeAll(a) + EscapeAll(b)
  {
    if a == [] {
      assert a + b == b;
    } else {
      assert (a + b)[1..] == a[1..] + b;
      EscapeAllConcat(a[1..], b);
    }
  }

  lemma {:induction false} PlainWordEscapes(w: string)
    requires PlainWord(w)
    ensures EscapeAll(w) == w
  {
    if w != [] {
      assert PlainChar(w[0]);
      EscapeHead(w[0]);
      PlainWordEscapes(w[1..]);
    }
  }

  /** A pattern right after a backslash is replaced; the backslash stays. */
  lemma MatchAfterBackslash(tail: string, pattern: string, replacement: string)
    requires pattern == ESCAPED_2028 || pattern == ESCAPED_2029
    ensures ReplaceAll(['\\'] + (pattern + tail), pattern, replacement)
         == ['\\'] + (replacement + ReplaceAll(tail, pattern, replacement))
  {
    var t := ['\\'] + (pattern + tail);
    assert t[1] == pattern[0];
    NoMatch(t, pattern, 1);
    ReplaceStep(t, pattern, replacement);
    assert t[1..] == pattern + tail;
    ReplaceMatch(tail, pattern, replacement);
  }

  /** What escaping makes of a clean text's opposite: the pattern appears behind an escaped backslash. */
  lemma EscapedPattern(s: string)
    requires StartsWith(s, ESCAPED_2028)
    ensures EscapeAll(s) == ['\\'] + (ESCAPED_2028 + EscapeAll(s[6..]))
  {
    var word := "u2028";
    assert s[1..] == word + s[6..];
    EscapeAllConcat(word, s[6..]);
    PlainWordEscapes(word);
    assert EscapeAll(s) == EscapeChar(s[0]) + EscapeAll(s[1..]) && EscapeChar(s[0]) == "\\\\";
    Regroup("\\\\", word, EscapeAll(s[6..]));
    assert "\\\\" + word == ['\\'] + ESCAPED_2028;
    Regroup(['\\'], ESCAPED_2028, EscapeAll(s[6..]));
  }

  /** The first `ReplaceAll`, up to the closing quote. */
  lemma {:induction false} FirstPass(s: string)
    ensures ReplaceAll(EscapeAll(s) + "\"", ESCAPED_2028, ['\U{2028}']) == OnceReplaced(s) + "\""
    decreases |s|
  {
    if s == [] {
    } else if StartsWith(s, ESCAPED_2028) {
      FirstPass(s[6..]);
      FirstPassPattern(s);
    } else {
      FirstPass(s[1..]);
      OnceReplacedStep(s);
      if s[0] == '\\' {
        FirstPassBackslash(s);
      } else {
        FirstPassOther(s);
      }
    }
  }

  lemma FirstPassPattern(s: string)
    requires StartsWith(s, ESCAPED_2028)
    ensures ReplaceAll(EscapeAll(s) + "\"", ESCAPED_2028, ['\U{2028}'])
         == ['\\', '\U{2028}'] + ReplaceAll(EscapeAll(s[6..]) + "\"", ESCAPED_2028, ['\U{2028}'])
  {
    EscapedPattern(s);
    MatchInText(EscapeAll(s), EscapeAll(s[6..]), ESCAPED_2028, '\U{2028}');
  }

  lemma MatchInText(text: string, rest: string, pattern: string, c: char)
    requires pattern == ESCAPED_2028 || pattern == ESCAPED_2029
    requires text == ['\\'] + (pattern + rest)
    ensures ReplaceAll(text + "\"", pattern, [c]) == ['\\', c] + ReplaceAll(rest + "\"", pattern, [c])
  {
    Regroup(['\\'], pattern + rest, "\"");
    Regroup(pattern, rest, "\"");
    MatchAfterBackslash(rest + "\"", pattern, [c]);
    Regroup(['\\'], [c], ReplaceAll(rest + "\"", pattern, [c]));
  }

  lemma FirstPassOther(s: string)
    requires s != [] && s[0] != '\\'
    ensures ReplaceAll(EscapeAll(s) + "\"", ESCAPED_2028, ['\U{2028}'])
         == OnceChar(s[0]) + ReplaceAll(EscapeAll(s[1..]) + "\"", ESCAPED_2028, ['\U{2028}'])
  {
    Regroup(EscapeChar(s[0]), EscapeAll(s[1..]), "\"");
    EscapedCharOnce(s[0], EscapeAll(s[1..]) + "\"");
  }

  lemma EscapedCharOnce(c: char, tail: string)
    requires c != '\\'
    ensures ReplaceAll(EscapeChar(c) + tail, ESCAPED_2028, ['\U{2028}']) == OnceChar(c) + ReplaceAll(tail, ESCAPED_2028, ['\U{2028}'])
  {
    if c == '\U{2028}' {
      ReplaceMatch(tail, ESCAPED_2028, ['\U{2028}']);
    } else {
      EscapeSkipped(c, tail, ESCAPED_2028, ['\U{2028}']);
    }
  }

  lemma FirstPassBackslash(s: string)
    requires s != [] && s[0] == '\\' && !StartsWith(s, ESCAPED_2028)
    ensures ReplaceAll(EscapeAll(s) + "\"", ESCAPED_2028, ['\U{2028}'])
         == "\\\\" + ReplaceAll(EscapeAll(s[1..]) + "\"", ESCAPED_2028, ['\U{2028}'])
  {
    var tail := EscapeAll(s[1..]) + "\"";
    WordAfterEscaping(s[1..], "u2028", "\"");
    BackslashPair(s, tail, ESCAPED_2028, ['\U{2028}']);
    assert EscapeAll(s) == EscapeChar(s[0]) + EscapeAll(s[1..]) && EscapeChar(s[0]) == "\\\\";
    Regroup("\\\\", EscapeAll(s[1..]), "\"");
  }

  /** An escaped backslash is copied unless the text it precedes completes the pattern. */
  lemma BackslashPair(s: string, tail: string, pattern: string, replacement: string)
    requires pattern == ESCAPED_2028 || pattern == ESCAPED_2029
    requires s != [] && s[0] == '\\' && !StartsWith(s, pattern)
    requires StartsWith(tail, pattern[1..]) == StartsWith(s[1..], pattern[1..])
    ensures ReplaceAll("\\\\" + tail, pattern, replacement) == "\\\\" + ReplaceAll(tail, pattern, replacement)
  {
    var u := "\\\\";
    HeadThenWord(s, pattern);
    forall i | 0 <= i < |u| ensures !StartsWith(u[i..] + tail, pattern) {
      var w := u[i..] + tail;
      if i == 1 {
        HeadThenWord(w, pattern);
        assert w[1..] == tail;
      } else {
        NoMatch(w, pattern, 1);
      }
    }
    ReplaceSkips(u, tail, pattern, replacement);
  }

  /** One character at the front of the final body, when no replacement happens there. */
  lemma BodyStep(s: string)
    requires s != [] && !StartsWith(s, ESCAPED_2028) && !StartsWith(s, ESCAPED_2029)
    ensures Body(s) == FinalChar(s[0]) + Body(s[1..])
  {
  }

  /** The second `ReplaceAll`, on what the first one left. */
  lemma {:induction false} SecondPass(s: string)
    ensures ReplaceAll(OnceReplaced(s) + "\"", ESCAPED_2029, ['\U{2029}']) == Body(s) + "\""
    decreases |s|
  {
    if s == [] {
    } else if StartsWith(s, ESCAPED_2028) {
      SecondPass(s[6..]);
      SecondPassSkipped(s);
    } else if StartsWith(s, ESCAPED_2029) {
      SecondPass(s[6..]);
      SecondPassMatch(s);
    } else {
      SecondPass(s[1..]);
      BodyStep(s);
      if s[0] == '\\' {
        SecondPassBackslash(s);
      } else {
        SecondPassOther(s);
      }
    }
  }

  lemma SecondPassSkipped(s: string)
    requires StartsWith(s, ESCAPED_2028)
    ensures ReplaceAll(OnceReplaced(s) + "\"", ESCAPED_2029, ['\U{2029}'])
         == ['\\', '\U{2028}'] + ReplaceAll(OnceReplaced(s[6..]) + "\"", ESCAPED_2029, ['\U{2029}'])
  {
    var tail := OnceReplaced(s[6..]) + "\"";
    var u := ['\\', '\U{2028}'];
    assert OnceReplaced(s) + "\"" == u + tail;
    forall i | 0 <= i < |u| ensures !StartsWith(u[i..] + tail, ESCAPED_2029) {
      NoMatch(u[i..] + tail, ESCAPED_2029, 1 - i);
    }
    ReplaceSkips(u, tail, ESCAPED_2029, ['\U{2029}']);
  }

  lemma SecondPassBackslash(s: string)
    requires s != [] && s[0] == '\\' && !StartsWith(s, ESCAPED_2028) && !StartsWith(s, ESCAPED_2029)
    ensures ReplaceAll(OnceReplaced(s) + "\"", ESCAPED_2029, ['\U{2029}'])
         == "\\\\" + ReplaceAll(OnceReplaced(s[1..]) + "\"", ESCAPED_2029, ['\U{2029}'])
  {
    var tail := OnceReplaced(s[1..]) + "\"";
    WordAfterFirstPass(s[1..], "u2029", "\"");
    BackslashPair(s, tail, ESCAPED_2029, ['\U{2029}']);
    OnceReplacedStep(s);
    assert OnceChar('\\') == "\\\\";
    Regroup("\\\\", OnceReplaced(s[1..]), "\"");
  }

  lemma SecondPassOther(s: string)
    requires s != [] && s[0] != '\\' && !StartsWith(s, ESCAPED_2028) && !StartsWith(s, ESCAPED_2029)
    ensures ReplaceAll(OnceReplaced(s) + "\"", ESCAPED_2029, ['\U{2029}'])
         == FinalChar(s[0]) + ReplaceAll(OnceReplaced(s[1..]) + "\"", ESCAPED_2029, ['\U{2029}'])
  {
    OnceReplacedStep(s);
    Regroup(OnceChar(s[0]), OnceReplaced(s[1..]), "\"");
    OnceCharReplaced(s[0], OnceReplaced(s[1..]) + "\"");
  }

  lemma OnceCharReplaced(c: char, tail: string)
    requires c != '\\'
    ensures ReplaceAll(OnceChar(c) + tail, ESCAPED_2029, ['\U{2029}']) == FinalChar(c) + ReplaceAll(tail, ESCAPED_2029, ['\U{2029}'])
  {
    if c == '\U{2029}' {
      ReplaceMatch(tail, ESCAPED_2029, ['\U{2029}']);
    } else if c == '\U{2028}' {
      var t := [c] + tail;
      NoMatch(t, ESCAPED_2029, 0);
      ReplaceStep(t, ESCAPED_2029, ['\U{2029}']);
      assert t[1..] == tail;
    } else {
      EscapeSkipped(c, tail, ESCAPED_2029, ['\U{2029}']);
    }
  }

  lemma OnceReplacedPlain(c: char, s: string)
    requires PlainChar(c)
    ensures OnceReplaced([c] + s) == [c] + OnceReplaced(s)
  {
    NoMatch([c] + s, ESCAPED_2028, 0);
    EscapeHead(c);
    assert ([c] + s)[1..] == s;
  }

  lemma {:induction false} OnceReplacedWord(w: string, x: string)
    requires PlainWord(w)
    ensures OnceReplaced(w + x) == w + OnceReplaced(x)
  {
    if w == [] {
      assert w + x == x;
    } else {
      assert PlainChar(w[0]);
      assert w == [w[0]] + w[1..];
      Regroup([w[0]], w[1..], x);
      OnceReplacedPlain(w[0], w[1..] + x);
      OnceReplacedWord(w[1..], x);
      Regroup([w[0]], w[1..], OnceReplaced(x));
    }
  }

  lemma SecondPassMatch(s: string)
    requires StartsWith(s, ESCAPED_2029)
    ensures ReplaceAll(OnceReplaced(s) + "\"", ESCAPED_2029, ['\U{2029}'])
         == ['\\', '\U{2029}'] + ReplaceAll(OnceReplaced(s[6..]) + "\"", ESCAPED_2029, ['\U{2029}'])
  {
    NoMatch(s, ESCAPED_2028, 5);
    OnceReplacedStep(s);
    assert s[1..] == "u2029" + s[6..];
    OnceReplacedWord("u2029", s[6..]);
    assert OnceChar('\\') == "\\\\";
    Regroup("\\\\", "u2029", OnceReplaced(s[6..]));
    assert "\\\\" + "u2029" == ['\\'] + ESCAPED_2029;
    Regroup(['\\'], ESCAPED_2029, OnceReplaced(s[6..]));
    MatchInText(OnceReplaced(s), OnceReplaced(s[6..]), ESCAPED_2029, '\U{2029}');
  }

  /** The printed literal. */
  lemma EncodedLiteral(s: string)
    ensures EncodeString(s) == "\"" + Body(s) + "\""
  {
    FirstPass(s);
    SecondPass(s);
    QuoteSkipped(EscapeAll(s) + "\"", ESCAPED_2028, ['\U{2028}']);
    QuoteSkipped(OnceReplaced(s) + "\"", ESCAPED_2029, ['\U{2029}']);
    assert "\"" + EscapeAll(s) + "\"" == "\"" + (EscapeAll(s) + "\"");
    assert "\"" + OnceReplaced(s) + "\"" == "\"" + (OnceReplaced(s) + "\"");
  }

  lemma QuoteSkipped(t: string, pattern: string, replacement: string)
    requires pattern == ESCAPED_2028 || pattern == ESCAPED_2029
    ensures ReplaceAll("\"" + t, pattern, replacement) == "\"" + ReplaceAll(t, pattern, replacement)
  {
    var w := "\"" + t;
    NoMatch(w, pattern, 0);
    ReplaceStep(w, pattern, replacement);
    assert w[1..] == t;
  }

  lemma HexRoundTrip(n: int)
    requires 0 <= n < 16
    ensures HexValue(HexDigit(n)) == n
  {
  }

  /** One escape reads back as its character. */
  lemma EscapeReads(c: char, t: string)
    requires EscapeChar(c) != [c] && c != '\U{2028}' && c != '\U{2029}'
    ensures EscapeChar(c)[0] == '\\' && ParseEscape(EscapeChar(c) + t) == Some((c, t))
  {
    var u := EscapeChar(c);
    var w := u + t;
    assert w[0] == u[0] && w[1] == u[1];
    if |u| == 2 {
      assert w[2..] == t;
    } else {
      HexRoundTrip(c as int / 16);
      HexRoundTrip(c as int % 16);
      assert w[2] == '0' && w[3] == '0' && w[4] == u[4] && w[5] == u[5];
      assert CodeUnit(w) == c as int;
      assert w[6..] == t;
    }
  }

  lemma PlainCharReads(c: char, tail: string)
    requires c as int >= 0x20 && c != '\"' && c != '\\'
    ensures ParseChars([c] + tail) == match ParseChars(tail) case Some(r) => Some(([c] + r.0, r.1)) case None => None
  {
    assert ([c] + tail)[1..] == tail;
  }

  lemma EscapedCharReads(c: char, tail: string)
    requires EscapeChar(c) != [c] && c != '\U{2028}' && c != '\U{2029}'
    ensures ParseChars(EscapeChar(c) + tail) == match ParseChars(tail) case Some(r) => Some(([c] + r.0, r.1)) case None => None
  {
    EscapeReads(c, tail);
    var w := EscapeChar(c) + tail;
    assert w != [] && w[0] == '\\';
  }

  lemma BrokenEscape(c: char, tail: string)
    requires c == '\U{2028}' || c == '\U{2029}'
    ensures ParseChars(['\\', c] + tail).None?
  {
    var w := ['\\', c] + tail;
    assert w[0] == '\\' && w[1] == c;
    assert CodeUnit(w) == -1;
    assert ParseEscape(w).None?;
  }

  /** A literal reads back as its string exactly when the string is clean; otherwise the decoder fails. */
  lemma {:induction false} LiteralReads(s: string, rest: string)
    ensures ParseChars(Body(s) + "\"" + rest) == if CleanText(s) then Some((s, rest)) else None
    decreases |s|
  {
    if s == [] {
      assert Body(s) + "\"" + rest == "\"" + rest;
      assert ("\"" + rest)[1..] == rest;
    } else if StartsWith(s, ESCAPED_2028) || StartsWith(s, ESCAPED_2029) {
      var c := if StartsWith(s, ESCAPED_2028) then '\U{2028}' else '\U{2029}';
      assert Body(s) == ['\\', c] + Body(s[6..]);
      Regroup(['\\', c], Body(s[6..]), "\"");
      Regroup(['\\', c], Body(s[6..]) + "\"", rest);
      BrokenEscape(c, Body(s[6..]) + "\"" + rest);
    } else {
      LiteralReads(s[1..], rest);
      BodyStep(s);
      Regroup(FinalChar(s[0]), Body(s[1..]), "\"");
      Regroup(FinalChar(s[0]), Body(s[1..]) + "\"", rest);
      FinalCharReads(s[0], Body(s[1..]) + "\"" + rest);
      assert s == [s[0]] + s[1..];
    }
  }

  lemma FinalCharReads(c: char, tail: string)
    ensures ParseChars(FinalChar(c) + tail) == match ParseChars(tail) case Some(r) => Some(([c] + r.0, r.1)) case None => None
  {
    if EscapeChar(c) == [c] || c == '\U{2028}' || c == '\U{2029}' {
      PlainCharReads(c, tail);
    } else {
      EscapedCharReads(c, tail);
    }
  }

  /** Every unclean string is printed as a literal that the decoder refuses. */
  lemma UncleanIsRefused(s: string)
    requires !CleanText(s)
    ensures Canonical(EncodeString(s)).None?
  {
    EncodedLiteral(s);
    LiteralReads(s, []);
    Regroup("\"", Body(s), "\"");
    assert Body(s) + "\"" + [] == Body(s) + "\"";
    QuotedValue(Body(s) + "\"", MAX_DEPTH);
  }

  lemma QuotedValue(w: string, depth: nat)
    ensures ParseValue("\"" + w, depth) == match ParseChars(w) case Some(r) => Some((Str(r.0), r.1)) case None => None
  {
    var t := "\"" + w;
    assert t[0] == '\"' && t[1..] == w;
  }

  /** A string the printer writes and its own decoder refuses. */
  lemma UncleanLiteralRefused()
    ensures EncodeString("\\u2028") == "\"\\\U{2028}\""
    ensures Canonical(EncodeString("\\u2028")).None?
  {
    var s := ESCAPED_2028;
    assert !CleanText(s);
    UncleanIsRefused(s);
    EncodedLiteral(s);
    assert s[6..] == [];
    assert Body(s) == ['\\', '\U{2028}'];
  }
}
