/** The guest agent's canonical JSON: the decoder it relies on and the printer it compares with.

    Text is a sequence of Unicode scalar values.  An object is a finite map, held as its members in
    ascending key order; `Assign` is the map assignment the decoder performs for each member.
 */
module CanonicalJson {
  import opened Wrappers
  import opened KeyOrder

  datatype Json =
    | Null
    | Bool(b: bool)
    | Num(text: string)
    | Str(s: string)
    | Arr(items: seq<Json>)
    | Obj(members: seq<Member>)

  datatype Member = Member(key: string, value: Json)

  /** A member as it was read, with the slice of the input its value came from (a `json.RawMessage`). */
  datatype Field = Field(key: string, value: Json, raw: string)

  /** The decoder's limit on nested arrays and objects. */
  const MAX_DEPTH: nat := 10000

  const MAX_SAFE_INTEGER: int := 9007199254740991

  // ---------------------------------------------------------------------------
  // Objects as finite maps

  ghost predicate Ascending(ms: seq<Member>) {
    forall i, j | 0 <= i < j < |ms| :: KeyLess(ms[i].key, ms[j].key)
  }

  function Assign(ms: seq<Member>, key: string, value: Json): seq<Member> {
    if ms == [] || KeyLess(key, ms[0].key) then [Member(key, value)] + ms
    else if ms[0].key == key then [Member(key, value)] + ms[1..]
    else [ms[0]] + Assign(ms[1..], key, value)
  }

  function AssignAll(ms: seq<Member>, fields: seq<Field>): seq<Member>
    decreases |fields|
  {
    if fields == [] then ms else AssignAll(Assign(ms, fields[0].key, fields[0].value), fields[1..])
  }

  // ---------------------------------------------------------------------------
  // Integers

  predicate IsDigit(c: char) {
    '0' <= c <= '9'
  }

  predicate AllDigits(t: string) {
    forall i | 0 <= i < |t| :: IsDigit(t[i])
  }

  predicate NaturalPattern(t: string) {
    |t| > 0 && '1' <= t[0] <= '9' && AllDigits(t)
  }

  /** `^(?:0|-?[1-9][0-9]*)$` */
  predicate IntegerPattern(t: string) {
    t == "0" || NaturalPattern(t) || (|t| > 0 && t[0] == '-' && NaturalPattern(t[1..]))
  }

  function NatValue(t: string): nat
    requires AllDigits(t)
  {
    if t == [] then 0 else NatValue(t[..|t| - 1]) * 10 + (t[|t| - 1] as int - '0' as int)
  }

  function IntValue(t: string): int
    requires IntegerPattern(t)
  {
    if t[0] == '-' then 0 - NatValue(t[1..]) else NatValue(t)
  }

  function DigitChar(d: int): char
    requires 0 <= d < 10
  {
    ('0' as int + d) as char
  }

  function FormatNat(n: nat): string {
    if n < 10 then [DigitChar(n)] else FormatNat(n / 10) + [DigitChar(n % 10)]
  }

  function FormatInt(n: int): string {
    if n < 0 then "-" + FormatNat(-n) else FormatNat(n)
  }

  // ---------------------------------------------------------------------------
  // Printing

  function HexDigit(n: int): char
    requires 0 <= n < 16
  {
    "0123456789abcdef"[n]
  }

  /** What `encoding/json` writes for one character with HTML escaping off (Go 1.24). */
  function EscapeChar(c: char): string {
    if c == '\"' then "\\\""
    else if c == '\\' then "\\\\"
    else if c as int == 0x08 then "\\b"
    else if c as int == 0x0C then "\\f"
    else if c == '\n' then "\\n"
    else if c == '\r' then "\\r"
    else if c == '\t' then "\\t"
    else if c as int < 0x20 then "\\u00" + [HexDigit(c as int / 16), HexDigit(c as int % 16)]
    else if c == '\U{2028}' then "\\u2028"
    else if c == '\U{2029}' then "\\u2029"
    else [c]
  }

  function EscapeAll(s: string): string {
    if s == [] then [] else EscapeChar(s[0]) + EscapeAll(s[1..])
  }

  /** `bytes.ReplaceAll`: leftmost, non-overlapping. */
  function ReplaceAll(t: string, pattern: string, replacement: string): string
    requires pattern != []
    decreases |t|
  {
    if |t| < |pattern| then t
    else if pattern <= t then replacement + ReplaceAll(t[|pattern|..], pattern, replacement)
    else [t[0]] + ReplaceAll(t[1..], pattern, replacement)
  }

  const ESCAPED_2028 := "\\u2028"
  const ESCAPED_2029 := "\\u2029"

  function EncodeString(s: string): string {
    var encoded := "\"" + EscapeAll(s) + "\"";
    var line := ReplaceAll(encoded, ESCAPED_2028, ['\U{2028}']);
    ReplaceAll(line, ESCAPED_2029, ['\U{2029}'])
  }

  predicate PrintableNumber(text: string) {
    IntegerPattern(text) && -MAX_SAFE_INTEGER <= IntValue(text) <= MAX_SAFE_INTEGER
  }

  /** The values the printer does not report an error for. */
  predicate Printable(v: Json)
    decreases v, 1
  {
    match v
    case Num(text) => PrintableNumber(text)
    case Arr(items) => PrintableItems(items)
    case Obj(members) => PrintableMembers(members)
    case _ => true
  }

  predicate PrintableItems(items: seq<Json>)
    decreases items, 0
  {
    items == [] || (Printable(items[0]) && PrintableItems(items[1..]))
  }

  predicate PrintableMembers(ms: seq<Member>)
    decreases ms, 0
  {
    ms == [] || (Printable(ms[0].value) && PrintableMembers(ms[1..]))
  }

  function Print(v: Json): string
    requires Printable(v)
    decreases v, 1
  {
    match v
    case Null => "null"
    case Bool(b) => if b then "true" else "false"
    case Num(text) => FormatInt(IntValue(text))
    case Str(s) => EncodeString(s)
    case Arr(items) => "[" + PrintItems(items) + "]"
    case Obj(members) => "{" + PrintMembers(members) + "}"
  }

  function PrintItems(items: seq<Json>): string
    requires PrintableItems(items)
    decreases items, 0
  {
    if items == [] then ""
    else if |items| == 1 then Print(items[0])
    else Print(items[0]) + "," + PrintItems(items[1..])
  }

  function PrintMember(m: Member): string
    requires Printable(m.value)
    decreases m.value, 2
  {
    EncodeString(m.key) + ":" + Print(m.value)
  }

  function PrintMembers(ms: seq<Member>): string
    requires PrintableMembers(ms)
    decreases ms, 0
  {
    if ms == [] then ""
    else if |ms| == 1 then PrintMember(ms[0])
    else PrintMember(ms[0]) + "," + PrintMembers(ms[1..])
  }

  // ---------------------------------------------------------------------------
  // Reading

  predicate IsSpace(c: char) {
    c == ' ' || c == '\t' || c == '\r' || c == '\n'
  }

  function SkipSpace(s: string): (r: string)
    ensures |r| <= |s|
  {
    if s != [] && IsSpace(s[0]) then SkipSpace(s[1..]) else s
  }

  function DigitCount(s: string): (n: nat)
    ensures n <= |s| && AllDigits(s[..n])
    ensures n < |s| ==> !IsDigit(s[n])
  {
    if s != [] && IsDigit(s[0]) then
      assert forall i | 0 < i < 1 + DigitCount(s[1..]) :: s[i] == s[1..][i - 1];
      1 + DigitCount(s[1..])
    else 0
  }

  /** Length of the integer part: `0` or a digit string not starting with `0`; 0 if there is none. */
  function IntegerLength(s: string): (n: nat)
    ensures n <= |s|
  {
    if s == [] || !IsDigit(s[0]) then 0 else if s[0] == '0' then 1 else DigitCount(s)
  }

  /** Length of `.digits`, or 0 if absent, or None if a point has no digit after it. */
  function FractionLength(s: string): (r: Option<nat>)
    ensures r.Some? ==> r.value <= |s|
  {
    if s == [] || s[0] != '.' then Some(0)
    else if DigitCount(s[1..]) == 0 then None else Some(1 + DigitCount(s[1..]))
  }

  function ExponentLength(s: string): (r: Option<nat>)
    ensures r.Some? ==> r.value <= |s|
  {
    if s == [] || (s[0] != 'e' && s[0] != 'E') then Some(0)
    else
      var sign := if |s| > 1 && (s[1] == '+' || s[1] == '-') then 1 else 0;
      var digits := DigitCount(s[1 + sign..]);
      if digits == 0 then None else Some(1 + sign + digits)
  }

  function ParseNumber(s: string): (r: Option<(string, string)>)
    ensures r.Some? ==> |r.value.1| < |s|
  {
    var sign := if s != [] && s[0] == '-' then 1 else 0;
    var integer := IntegerLength(s[sign..]);
    if integer == 0 then None
    else
      var fraction :- FractionLength(s[sign + integer..]);
      var exponent :- ExponentLength(s[sign + integer + fraction..]);
      var n := sign + integer + fraction + exponent;
      Some((s[..n], s[n..]))
  }

  function HexValue(c: char): int {
    if '0' <= c <= '9' then c as int - '0' as int
    else if 'a' <= c <= 'f' then c as int - 'a' as int + 10
    else if 'A' <= c <= 'F' then c as int - 'A' as int + 10
    else -1
  }

  /** The code unit of a `\uXXXX` at the start of `s`, or -1 (`getu4`). */
  function CodeUnit(s: string): (u: int)
    ensures -1 <= u < 0x10000
    ensures u >= 0 ==> |s| >= 6
  {
    if |s| < 6 || s[0] != '\\' || s[1] != 'u' then -1
    else
      var a, b, c, d := HexValue(s[2]), HexValue(s[3]), HexValue(s[4]), HexValue(s[5]);
      if a < 0 || b < 0 || c < 0 || d < 0 then -1 else ((a * 16 + b) * 16 + c) * 16 + d
  }

  /** One escape sequence at the start of `s`: the character it denotes and what follows it. */
  function ParseEscape(s: string): (r: Option<(char, string)>)
    requires s != [] && s[0] == '\\'
    ensures r.Some? ==> |r.value.1| < |s|
  {
    if |s| < 2 then None
    else if s[1] == '\"' || s[1] == '\\' || s[1] == '/' then Some((s[1], s[2..]))
    else if s[1] == 'b' then Some((0x08 as char, s[2..]))
    else if s[1] == 'f' then Some((0x0C as char, s[2..]))
    else if s[1] == 'n' then Some(('\n', s[2..]))
    else if s[1] == 'r' then Some(('\r', s[2..]))
    else if s[1] == 't' then Some(('\t', s[2..]))
    else
      var u := CodeUnit(s);
      if u < 0 then None
      else if !(0xD800 <= u < 0xE000) then Some((u as char, s[6..]))
      else
        var low := CodeUnit(s[6..]);
        if u < 0xDC00 && 0xDC00 <= low < 0xE000 then
          Some(((0x10000 + (u - 0xD800) * 0x400 + (low - 0xDC00)) as char, s[12..]))
        else Some(('\U{FFFD}', s[6..]))
  }

  /** The rest of a string literal after its opening quote. */
  function ParseChars(s: string): (r: Option<(string, string)>)
    ensures r.Some? ==> |r.value.1| < |s|
    decreases |s|
  {
    if s == [] || s[0] as int < 0x20 then None
    else if s[0] == '\"' then Some(("", s[1..]))
    else
      var (c, rest) :- if s[0] == '\\' then ParseEscape(s) else Some((s[0], s[1..]));
      var (tail, after) :- ParseChars(rest);
      Some(([c] + tail, after))
  }

  predicate StartsWith(s: string, prefix: string) {
    prefix <= s
  }

  /** One value, leading white space included; `depth` is the nesting still allowed. */
  function ParseValue(s: string, depth: nat): (r: Option<(Json, string)>)
    ensures r.Some? ==> |r.value.1| < |s|
    decreases |s|, 1
  {
    var t := SkipSpace(s);
    if t == [] then None
    else if t[0] == '{' then
      if depth == 0 then None
      else
        var body := SkipSpace(t[1..]);
        if body != [] && body[0] == '}' then Some((Obj([]), body[1..]))
        else
          var (fields, rest) :- ParseFields(body, depth - 1);
          Some((Obj(AssignAll([], fields)), rest))
    else if t[0] == '[' then
      if depth == 0 then None
      else
        var body := SkipSpace(t[1..]);
        if body != [] && body[0] == ']' then Some((Arr([]), body[1..]))
        else
          var (items, rest) :- ParseElements(body, depth - 1);
          Some((Arr(items), rest))
    else if t[0] == '\"' then
      var (text, rest) :- ParseChars(t[1..]);
      Some((Str(text), rest))
    else if StartsWith(t, "null") then Some((Null, t[4..]))
    else if StartsWith(t, "true") then Some((Bool(true), t[4..]))
    else if StartsWith(t, "false") then Some((Bool(false), t[5..]))
    else
      var (text, rest) :- ParseNumber(t);
      Some((Num(text), rest))
  }

  /** One or more array elements up to and including the closing bracket. */
  function ParseElements(s: string, depth: nat): (r: Option<(seq<Json>, string)>)
    ensures r.Some? ==> |r.value.1| < |s|
    decreases |s|, 2
  {
    var (item, rest) :- ParseValue(s, depth);
    var after := SkipSpace(rest);
    if after == [] then None
    else if after[0] == ']' then Some(([item], after[1..]))
    else if after[0] != ',' then None
    else
      var (items, end) :- ParseElements(after[1..], depth);
      Some(([item] + items, end))
  }

  /** A member's key and the text of its value, white space around the colon skipped. */
  function ParseKey(s: string): (r: Option<(string, string)>)
    ensures r.Some? ==> |r.value.1| < |s|
  {
    var start := SkipSpace(s);
    if start == [] || start[0] != '\"' then None
    else
      var (key, rest) :- ParseChars(start[1..]);
      var colon := SkipSpace(rest);
      if colon == [] || colon[0] != ':' then None else Some((key, SkipSpace(colon[1..])))
  }

  /** One or more members up to and including the closing brace. */
  function ParseFields(s: string, depth: nat): (r: Option<(seq<Field>, string)>)
    ensures r.Some? ==> |r.value.1| < |s|
    decreases |s|, 2
  {
    var (key, text) :- ParseKey(s);
    var (value, rest) :- ParseValue(text, depth);
    ParseMoreFields(Field(key, value, text[..|text| - |rest|]), rest, depth)
  }

  function ParseMoreFields(field: Field, rest: string, depth: nat): (r: Option<(seq<Field>, string)>)
    ensures r.Some? ==> |r.value.1| < |rest|
    decreases |rest|, 3
  {
    var after := SkipSpace(rest);
    if after == [] then None
    else if after[0] == '}' then Some(([field], after[1..]))
    else if after[0] != ',' then None
    else
      var (fields, end) :- ParseFields(after[1..], depth);
      Some(([field] + fields, end))
  }

  /** A whole message: one value and nothing but white space after it. */
  function ParseDocument(content: string): Option<Json> {
    var (value, rest) :- ParseValue(content, MAX_DEPTH);
    if SkipSpace(rest) == [] then Some(value) else None
  }

  /** `canonicalJSON` */
  function Canonical(content: string): Option<string> {
    var value :- ParseDocument(content);
    if Printable(value) then Some(Print(value)) else None
  }

  /** The acceptance test of `decodeLaunch`. */
  predicate Accepted(content: string) {
    Canonical(content) == Some(content)
  }
}
