/** Printing then reading: exactly when a value survives, and what the acceptance test therefore accepts. */
module CanonicalRoundTrip {
  import opened Wrappers
  import opened KeyOrder
  import opened CanonicalJson
  import opened CanonicalStrings

  // ---------------------------------------------------------------------------
  // Which values

  /** Every object in the value is a finite map in key order; this is what the decoder builds. */
  ghost predicate WellFormed(v: Json)
    decreases v, 1
  {
    match v
    case Arr(items) => WellFormedItems(items)
    case Obj(members) => Ascending(members) && WellFormedMembers(members)
    case _ => true
  }

  ghost predicate WellFormedItems(items: seq<Json>)
    decreases items, 0
  {
    items == [] || (WellFormed(items[0]) && WellFormedItems(items[1..]))
  }

  ghost predicate WellFormedMembers(ms: seq<Member>)
    decreases ms, 0
  {
    ms == [] || (WellFormed(ms[0].value) && WellFormedMembers(ms[1..]))
  }

  /** All strings and keys are clean and nothing is nested deeper than `depth`. */
  predicate Readable(v: Json, depth: nat)
    decreases v, 1
  {
    match v
    case Str(s) => CleanText(s)
    case Arr(items) => depth > 0 && ReadableItems(items, depth - 1)
    case Obj(members) => depth > 0 && ReadableMembers(members, depth - 1)
    case _ => true
  }

  predicate ReadableItems(items: seq<Json>, depth: nat)
    decreases items, 0
  {
    items == [] || (Readable(items[0], depth) && ReadableItems(items[1..], depth))
  }

  predicate ReadableMembers(ms: seq<Member>, depth: nat)
    decreases ms, 0
  {
    ms == [] || (CleanText(ms[0].key) && Readable(ms[0].value, depth) && ReadableMembers(ms[1..], depth))
  }

  // ---------------------------------------------------------------------------
  // Integers

  lemma {:induction false} FormatNatValue(t: string)
    requires NaturalPattern(t)
    ensures NatValue(t) > 0 && FormatNat(NatValue(t)) == t
  {
    var head, last := t[..|t| - 1], t[|t| - 1];
    assert t == head + [last];
    var d := last as int - '0' as int;
    assert NatValue(t) == NatValue(head) * 10 + d;
    if head == [] {
      assert t == [last];
      assert DigitChar(d) == last;
    } else {
      assert head[0] == t[0];
      FormatNatValue(head);
      assert NatValue(t) / 10 == NatValue(head) && NatValue(t) % 10 == d;
      assert DigitChar(d) == last;
    }
  }

  /** `FormatInt` after `ParseInt` is the identity on canonical integer texts. */
  lemma FormatIntValue(t: string)
    requires IntegerPattern(t)
    ensures FormatInt(IntValue(t)) == t
  {
    if t == "0" {
      assert NatValue(t) == 0;
      assert FormatNat(0) == "0";
    } else if NaturalPattern(t) {
      FormatNatValue(t);
    } else {
      FormatNatValue(t[1..]);
      assert t == "-" + t[1..];
    }
  }

  /** What may follow a value inside canonical text. */
  predicate Delimited(rest: string) {
    rest == [] || rest[0] == ',' || rest[0] == ']' || rest[0] == '}'
  }

  lemma {:induction false} DigitCountStops(t: string, rest: string)
    requires AllDigits(t) && Delimited(rest)
    ensures DigitCount(t + rest) == |t|
  {
    if t == [] {
      assert t + rest == rest;
    } else {
      assert (t + rest)[1..] == t[1..] + rest;
      DigitCountStops(t[1..], rest);
    }
  }

  lemma NumberReads(t: string, rest: string)
    requires IntegerPattern(t) && Delimited(rest)
    ensures ParseNumber(t + rest) == Some((t, rest))
  {
    if t[0] == '-' {
      DigitsRead(t[1..], rest);
      assert t == "-" + t[1..];
      NumberAt(t, 1, t[1..], rest);
    } else {
      DigitsRead(t, rest);
      NumberAt(t, 0, t, rest);
    }
  }

  lemma NumberAt(t: string, sign: nat, digits: string, rest: string)
    requires digits != [] && Delimited(rest) && IntegerLength(digits + rest) == |digits|
    requires if t != [] && t[0] == '-' then sign == 1 && t == "-" + digits else sign == 0 && t == digits
    ensures ParseNumber(t + rest) == Some((t, rest))
  {
    var s := t + rest;
    assert s[0] == t[0] && s[sign..] == digits + rest;
    assert s[|t|..] == rest && s[..|t|] == t && |t| == sign + |digits|;
    assert FractionLength(rest) == Some(0) && ExponentLength(rest) == Some(0);
  }

  lemma DigitsRead(digits: string, rest: string)
    requires (digits == "0" || NaturalPattern(digits)) && Delimited(rest)
    ensures IntegerLength(digits + rest) == |digits|
  {
    assert (digits + rest)[0] == digits[0];
    if digits != "0" {
      DigitCountStops(digits, rest);
    }
  }

  // ---------------------------------------------------------------------------
  // Objects

  lemma {:induction false} AssignLargest(ms: seq<Member>, key: string, value: Json)
    requires forall i | 0 <= i < |ms| :: KeyLess(ms[i].key, key)
    ensures Assign(ms, key, value) == ms + [Member(key, value)]
  {
    if ms != [] {
      KeyLessIsStrictTotal(ms[0].key, key, key);
      AssignLargest(ms[1..], key, value);
    }
  }

  /** The fields the decoder would report for members in canonical text. */
  function FieldsOf(ms: seq<Member>): (fields: seq<Field>)
    requires PrintableMembers(ms)
    ensures |fields| == |ms|
  {
    if ms == [] then [] else [Field(ms[0].key, ms[0].value, Print(ms[0].value))] + FieldsOf(ms[1..])
  }

  lemma {:induction false} AssignAllAscending(done: seq<Member>, ms: seq<Member>)
    requires PrintableMembers(ms) && Ascending(done + ms)
    ensures AssignAll(done, FieldsOf(ms)) == done + ms
    decreases |ms|
  {
    if ms == [] {
      assert done + ms == done;
    } else {
      var all := done + ms;
      assert all[|done|] == ms[0];
      forall i | 0 <= i < |done| ensures KeyLess(done[i].key, ms[0].key) {
        assert all[i] == done[i];
      }
      AssignLargest(done, ms[0].key, ms[0].value);
      assert done + [ms[0]] + ms[1..] == all;
      AssignAllAscending(done + [ms[0]], ms[1..]);
      assert FieldsOf(ms)[1..] == FieldsOf(ms[1..]);
    }
  }

  lemma FieldsRebuild(ms: seq<Member>)
    requires PrintableMembers(ms) && Ascending(ms)
    ensures AssignAll([], FieldsOf(ms)) == ms
  {
    assert [] + ms == ms;
    AssignAllAscending([], ms);
  }

  // ---------------------------------------------------------------------------
  // Reading what was printed

  /** Printed values start with a character that is neither space nor punctuation of a container's end. */
  predicate ValueStart(t: string) {
    t != [] && !IsSpace(t[0]) && t[0] != ']' && t[0] != '}' && t[0] != ',' && t[0] != ':'
  }

  lemma {:induction false} PrintStarts(v: Json)
    requires Printable(v)
    ensures ValueStart(Print(v))
  {
    match v
    case Num(text) => FormatIntValue(text);
    case Str(s) => EncodedLiteral(s);
    case _ =>
  }

  lemma PrintItemsStarts(items: seq<Json>)
    requires PrintableItems(items) && items != []
    ensures ValueStart(PrintItems(items))
  {
    PrintStarts(items[0]);
  }

  lemma PrintMembersStarts(ms: seq<Member>)
    requires PrintableMembers(ms) && ms != []
    ensures PrintMembers(ms) != [] && PrintMembers(ms)[0] == '\"'
  {
    EncodedLiteral(ms[0].key);
  }

  lemma StringReads(s: string, rest: string, depth: nat)
    ensures ParseValue(EncodeString(s) + rest, depth) == if CleanText(s) then Some((Str(s), rest)) else None
  {
    EncodedLiteral(s);
    LiteralReads(s, rest);
    Regroup("\"", Body(s), "\"");
    Regroup("\"", Body(s) + "\"", rest);
    QuotedValue(Body(s) + "\"" + rest, depth);
  }

  /** A text that starts like no other value is read as a number. */
  lemma OtherwiseNumber(t: string, depth: nat)
    requires t != [] && (t[0] == '-' || IsDigit(t[0]))
    ensures ParseValue(t, depth) == match ParseNumber(t) case Some(r) => Some((Num(r.0), r.1)) case None => None
  {
    NoMatch(t, "null", 0);
    NoMatch(t, "true", 0);
    NoMatch(t, "false", 0);
  }

  lemma NullReads(t: string, rest: string, depth: nat)
    requires t == "null" + rest
    ensures ParseValue(t, depth) == Some((Null, rest))
  {
    assert t[0] == 'n' && t[4..] == rest && t[..4] == "null";
  }

  lemma TrueReads(t: string, rest: string, depth: nat)
    requires t == "true" + rest
    ensures ParseValue(t, depth) == Some((Bool(true), rest))
  {
    assert t[0] == 't' && t[4..] == rest && t[..4] == "true";
    NoMatch(t, "null", 0);
  }

  lemma FalseReads(t: string, rest: string, depth: nat)
    requires t == "false" + rest
    ensures ParseValue(t, depth) == Some((Bool(false), rest))
  {
    assert t[0] == 'f' && t[5..] == rest && t[..5] == "false";
    NoMatch(t, "null", 0);
    NoMatch(t, "true", 0);
  }

  lemma AtomReads(v: Json, rest: string, depth: nat)
    requires Printable(v) && (v.Null? || v.Bool? || v.Num?) && Delimited(rest)
    ensures ParseValue(Print(v) + rest, depth) == Some((v, rest))
  {
    match v
    case Num(text) =>
      FormatIntValue(text);
      NumberReads(text, rest);
      assert (text + rest)[0] == text[0];
      OtherwiseNumber(text + rest, depth);
    case _ =>
      NullReads("null" + rest, rest, depth);
      TrueReads("true" + rest, rest, depth);
      FalseReads("false" + rest, rest, depth);
  }

  /** The main lemma: canonical text reads back as the value it printed, or not at all. */
  lemma {:induction false} PrintReads(v: Json, rest: string, depth: nat)
    requires WellFormed(v) && Printable(v) && Delimited(rest)
    ensures ParseValue(Print(v) + rest, depth) == if Readable(v, depth) then Some((v, rest)) else None
    decreases v, 1
  {
    match v
    case Str(s) => StringReads(s, rest, depth);
    case Arr(items) => ArrayReads(items, rest, depth);
    case Obj(members) => ObjectReads(members, rest, depth);
    case _ => AtomReads(v, rest, depth);
  }

  lemma {:induction false} ArrayReads(items: seq<Json>, rest: string, depth: nat)
    requires WellFormedItems(items) && PrintableItems(items) && Delimited(rest)
    ensures ParseValue(Print(Arr(items)) + rest, depth)
         == if Readable(Arr(items), depth) then Some((Arr(items), rest)) else None
    decreases items, 3
  {
    var inner := PrintItems(items);
    Enclose("[", inner, "]", rest);
    if items == [] {
      EmptyArrayReads(rest, depth);
    } else {
      PrintItemsStarts(items);
      FilledArrayReads(inner, "]" + rest, depth);
      Regroup(inner, "]", rest);
      if depth > 0 {
        ItemsRead(items, rest, depth - 1);
      }
    }
  }

  lemma EmptyArrayReads(rest: string, depth: nat)
    ensures ParseValue("[" + ("" + "]" + rest), depth) == if depth > 0 then Some((Arr([]), rest)) else None
  {
    var body := "" + "]" + rest;
    assert body[0] == ']' && body[1..] == rest;
    OpenArray(body, depth);
  }

  lemma FilledArrayReads(inner: string, after: string, depth: nat)
    requires ValueStart(inner)
    ensures ParseValue("[" + (inner + after), depth)
         == if depth == 0 then None
            else match ParseElements(inner + after, depth - 1) case None => None case Some(r) => Some((Arr(r.0), r.1))
  {
    assert (inner + after)[0] == inner[0];
    OpenArray(inner + after, depth);
  }

  lemma Enclose(open: string, inner: string, close: string, rest: string)
    ensures open + inner + close + rest == open + (inner + close + rest)
  {
  }

  lemma OpenArray(body: string, depth: nat)
    requires body != [] && !IsSpace(body[0])
    ensures ParseValue("[" + body, depth)
         == if depth == 0 then None
            else if body[0] == ']' then Some((Arr([]), body[1..]))
            else match ParseElements(body, depth - 1) case None => None case Some(r) => Some((Arr(r.0), r.1))
  {
    var t := "[" + body;
    assert t[0] == '[' && t[1..] == body;
  }

  lemma {:induction false} ItemsRead(items: seq<Json>, rest: string, depth: nat)
    requires WellFormedItems(items) && PrintableItems(items) && items != []
    ensures ParseElements(PrintItems(items) + "]" + rest, depth)
         == if ReadableItems(items, depth) then Some((items, rest)) else None
    decreases items, 2
  {
    if |items| == 1 {
      assert items == [items[0]];
      var after := "]" + rest;
      assert PrintItems(items) + "]" + rest == Print(items[0]) + after;
      PrintReads(items[0], after, depth);
      assert after[1..] == rest;
    } else {
      var tail := PrintItems(items[1..]) + "]" + rest;
      var after := "," + tail;
      assert PrintItems(items) + "]" + rest == Print(items[0]) + after;
      PrintReads(items[0], after, depth);
      assert after[1..] == tail;
      ItemsRead(items[1..], rest, depth);
      assert items == [items[0]] + items[1..];
    }
  }

  lemma {:induction false} ObjectReads(ms: seq<Member>, rest: string, depth: nat)
    requires Ascending(ms) && WellFormedMembers(ms) && PrintableMembers(ms) && Delimited(rest)
    ensures ParseValue(Print(Obj(ms)) + rest, depth)
         == if Readable(Obj(ms), depth) then Some((Obj(ms), rest)) else None
    decreases ms, 4
  {
    Enclose("{", PrintMembers(ms), "}", rest);
    if ms == [] {
      EmptyObjectReads(rest, depth);
    } else if depth == 0 {
      PrintMembersStarts(ms);
      assert (PrintMembers(ms) + "}" + rest)[0] == '\"';
      OpenObject(PrintMembers(ms) + "}" + rest, 0);
    } else {
      FieldsRebuild(ms);
      BodyReads(ms, FieldsOf(ms), rest, depth);
    }
  }

  lemma {:induction false} BodyReads(ms: seq<Member>, fields: seq<Field>, rest: string, depth: nat)
    requires WellFormedMembers(ms) && PrintableMembers(ms) && ms != [] && depth > 0
    requires fields == FieldsOf(ms) && AssignAll([], fields) == ms
    ensures ParseValue("{" + (PrintMembers(ms) + "}" + rest), depth)
         == if ReadableMembers(ms, depth - 1) then Some((Obj(ms), rest)) else None
    decreases ms, 3
  {
    MembersRead(ms, rest, depth - 1);
    PrintMembersStarts(ms);
    FilledObjectReads(PrintMembers(ms), rest, depth, fields, ms, ReadableMembers(ms, depth - 1));
  }

  lemma FilledObjectReads(inner: string, rest: string, depth: nat, fields: seq<Field>, ms: seq<Member>, readable: bool)
    requires inner != [] && inner[0] == '\"' && depth > 0 && AssignAll([], fields) == ms
    requires ParseFields(inner + "}" + rest, depth - 1) == if readable then Some((fields, rest)) else None
    ensures ParseValue("{" + (inner + "}" + rest), depth) == if readable then Some((Obj(ms), rest)) else None
  {
    assert (inner + "}" + rest)[0] == inner[0];
    OpenObject(inner + "}" + rest, depth);
  }

  lemma EmptyObjectReads(rest: string, depth: nat)
    ensures ParseValue("{" + ("" + "}" + rest), depth) == if depth > 0 then Some((Obj([]), rest)) else None
  {
    var body := "" + "}" + rest;
    assert body[0] == '}' && body[1..] == rest;
    OpenObject(body, depth);
  }

  lemma OpenObject(body: string, depth: nat)
    requires body != [] && !IsSpace(body[0])
    ensures ParseValue("{" + body, depth)
         == if depth == 0 then None
            else if body[0] == '}' then Some((Obj([]), body[1..]))
            else match ParseFields(body, depth - 1) case None => None case Some(r) => Some((Obj(AssignAll([], r.0)), r.1))
  {
    var t := "{" + body;
    assert t[0] == '{' && t[1..] == body;
  }

  lemma KeyReads(key: string, text: string)
    requires text != [] && !IsSpace(text[0])
    ensures ParseKey(EncodeString(key) + ":" + text) == if CleanText(key) then Some((key, text)) else None
  {
    var colon := ":" + text;
    EncodedLiteral(key);
    LiteralReads(key, colon);
    Regroup("\"", Body(key), "\"");
    Regroup("\"" + (Body(key) + "\""), ":", text);
    Regroup("\"", Body(key) + "\"", colon);
    QuotedKey(Body(key) + "\"" + colon);
    assert colon[1..] == text;
  }

  lemma QuotedKey(w: string)
    ensures ParseKey("\"" + w) ==
            match ParseChars(w)
            case None => None
            case Some(r) =>
              var colon := SkipSpace(r.1);
              if colon == [] || colon[0] != ':' then None else Some((r.0, SkipSpace(colon[1..])))
  {
    var t := "\"" + w;
    assert t[0] == '\"' && t[1..] == w;
  }

  /** One member and what follows it. */
  lemma {:induction false} MemberReads(m: Member, after: string, depth: nat)
    requires WellFormed(m.value) && Printable(m.value) && Delimited(after)
    ensures ParseFields(PrintMember(m) + after, depth)
         == if CleanText(m.key) && Readable(m.value, depth)
            then ParseMoreFields(Field(m.key, m.value, Print(m.value)), after, depth)
            else None
    decreases m.value, 2
  {
    var value := Print(m.value);
    var text := value + after;
    PrintReads(m.value, after, depth);
    PrintStarts(m.value);
    assert text[0] == value[0];
    KeyReads(m.key, text);
    Regroup(EncodeString(m.key) + ":", value, after);
    assert text[..|text| - |after|] == value;
  }

  lemma {:induction false} MembersRead(ms: seq<Member>, rest: string, depth: nat)
    requires WellFormedMembers(ms) && PrintableMembers(ms) && ms != []
    ensures ParseFields(PrintMembers(ms) + "}" + rest, depth)
         == if ReadableMembers(ms, depth) then Some((FieldsOf(ms), rest)) else None
    decreases ms, 2
  {
    var field := Field(ms[0].key, ms[0].value, Print(ms[0].value));
    if |ms| == 1 {
      var after := "}" + rest;
      Regroup(PrintMember(ms[0]), "}", rest);
      MemberReads(ms[0], after, depth);
      AfterField(field, rest, depth);
      assert ms[1..] == [];
      assert FieldsOf(ms) == [field];
    } else {
      var tail := PrintMembers(ms[1..]) + "}" + rest;
      Sequel(PrintMember(ms[0]), PrintMembers(ms[1..]), "}", rest);
      MemberReads(ms[0], "," + tail, depth);
      MembersRead(ms[1..], rest, depth);
      AfterField(field, tail, depth);
    }
  }

  lemma Sequel(first: string, others: string, close: string, rest: string)
    ensures first + "," + others + close + rest == first + ("," + (others + close + rest))
  {
  }

  /** What follows a member: the end of the object, or a comma and more members. */
  lemma AfterField(field: Field, rest: string, depth: nat)
    ensures ParseMoreFields(field, "}" + rest, depth) == Some(([field], rest))
    ensures ParseMoreFields(field, "," + rest, depth)
         == match ParseFields(rest, depth) case None => None case Some(r) => Some(([field] + r.0, r.1))
  {
    assert ("}" + rest)[0] == '}' && ("}" + rest)[1..] == rest;
    assert ("," + rest)[0] == ',' && ("," + rest)[1..] == rest;
  }

  // ---------------------------------------------------------------------------
  // What the decoder builds

  ghost predicate Above(key: string, ms: seq<Member>) {
    forall i | 0 <= i < |ms| :: KeyLess(key, ms[i].key)
  }

  lemma AscendingCons(m: Member, ms: seq<Member>)
    requires Above(m.key, ms) && Ascending(ms)
    ensures Ascending([m] + ms)
  {
  }

  lemma AscendingTail(ms: seq<Member>)
    requires Ascending(ms) && ms != []
    ensures Above(ms[0].key, ms[1..]) && Ascending(ms[1..])
  {
  }

  lemma {:induction false} AssignAbove(low: string, ms: seq<Member>, key: string, value: Json)
    requires Above(low, ms) && KeyLess(low, key)
    ensures Above(low, Assign(ms, key, value))
  {
    if ms != [] && !KeyLess(key, ms[0].key) && ms[0].key != key {
      AssignAbove(low, ms[1..], key, value);
    }
  }

  lemma {:induction false} AssignKeepsAscending(ms: seq<Member>, key: string, value: Json)
    requires Ascending(ms) && WellFormedMembers(ms) && WellFormed(value)
    ensures Ascending(Assign(ms, key, value)) && WellFormedMembers(Assign(ms, key, value))
  {
    var m := Member(key, value);
    if ms == [] {
      assert [m] + ms == [m];
    } else {
      AscendingTail(ms);
      if KeyLess(key, ms[0].key) {
        forall i | 0 <= i < |ms| ensures KeyLess(key, ms[i].key) {
          KeyLessIsStrictTotal(key, ms[0].key, ms[i].key);
        }
        AscendingCons(m, ms);
        assert ([m] + ms)[1..] == ms;
      } else if ms[0].key == key {
        AscendingCons(m, ms[1..]);
        assert ([m] + ms[1..])[1..] == ms[1..];
      } else {
        KeyLessIsStrictTotal(key, ms[0].key, key);
        AssignKeepsAscending(ms[1..], key, value);
        AssignAbove(ms[0].key, ms[1..], key, value);
        AscendingCons(ms[0], Assign(ms[1..], key, value));
        assert ([ms[0]] + Assign(ms[1..], key, value))[1..] == Assign(ms[1..], key, value);
      }
    }
  }

  function Lookup(ms: seq<Member>, key: string): Option<Json> {
    if ms == [] then None else if ms[0].key == key then Some(ms[0].value) else Lookup(ms[1..], key)
  }

  lemma {:induction false} LookupBelow(ms: seq<Member>, key: string)
    requires Above(key, ms)
    ensures Lookup(ms, key) == None
  {
    if ms != [] {
      KeyLessIsStrictTotal(key, ms[0].key, key);
      LookupBelow(ms[1..], key);
    }
  }

  /** `Assign` is assignment on finite maps. */
  lemma {:induction false} LookupAssign(ms: seq<Member>, key: string, value: Json, k: string)
    requires Ascending(ms)
    ensures Lookup(Assign(ms, key, value), k) == if k == key then Some(value) else Lookup(ms, k)
  {
    var m := Member(key, value);
    if ms != [] {
      if KeyLess(key, ms[0].key) {
        assert ([m] + ms)[1..] == ms;
      } else if ms[0].key == key {
        assert ([m] + ms[1..])[1..] == ms[1..];
      } else {
        LookupAssign(ms[1..], key, value, k);
        assert ([ms[0]] + Assign(ms[1..], key, value))[1..] == Assign(ms[1..], key, value);
      }
    }
  }

  /** An ascending member list is determined by the map it represents. */
  lemma {:induction false} AscendingIsUnique(xs: seq<Member>, ys: seq<Member>)
    requires Ascending(xs) && Ascending(ys)
    requires forall k :: Lookup(xs, k) == Lookup(ys, k)
    ensures xs == ys
  {
    assert xs != [] ==> Lookup(xs, xs[0].key) == Lookup(ys, xs[0].key);
    assert ys != [] ==> Lookup(xs, ys[0].key) == Lookup(ys, ys[0].key);
    if xs != [] && ys != [] {
      var x, y := xs[0].key, ys[0].key;
      AscendingTail(xs);
      AscendingTail(ys);
      KeyLessIsStrictTotal(x, y, y);
      if KeyLess(x, y) {
        FirstKeySmallest(ys, x);
      } else if KeyLess(y, x) {
        FirstKeySmallest(xs, y);
      }
      forall k ensures Lookup(xs[1..], k) == Lookup(ys[1..], k) {
        assert Lookup(xs, k) == Lookup(ys, k);
        if k == x {
          LookupBelow(xs[1..], k);
          LookupBelow(ys[1..], k);
        }
      }
      AscendingIsUnique(xs[1..], ys[1..]);
      assert xs == [xs[0]] + xs[1..] && ys == [ys[0]] + ys[1..];
    }
  }

  lemma FirstKeySmallest(ms: seq<Member>, key: string)
    requires Ascending(ms) && ms != [] && KeyLess(key, ms[0].key)
    ensures Lookup(ms, key) == None
  {
    forall i | 0 <= i < |ms| ensures KeyLess(key, ms[i].key) {
      KeyLessIsStrictTotal(key, ms[0].key, ms[i].key);
    }
    LookupBelow(ms, key);
  }

  ghost predicate WellFormedFields(fields: seq<Field>) {
    forall i | 0 <= i < |fields| :: WellFormed(fields[i].value)
  }

  lemma {:induction false} AssignAllKeepsAscending(ms: seq<Member>, fields: seq<Field>)
    requires Ascending(ms) && WellFormedMembers(ms) && WellFormedFields(fields)
    ensures Ascending(AssignAll(ms, fields)) && WellFormedMembers(AssignAll(ms, fields))
    decreases |fields|
  {
    if fields != [] {
      AssignKeepsAscending(ms, fields[0].key, fields[0].value);
      AssignAllKeepsAscending(Assign(ms, fields[0].key, fields[0].value), fields[1..]);
    }
  }

  /** Every value the decoder returns is well formed. */
  lemma {:induction false} ParsedWellFormed(s: string, depth: nat)
    ensures ParseValue(s, depth).Some? ==> WellFormed(ParseValue(s, depth).value.0)
    decreases |s|, 1
  {
    var t := SkipSpace(s);
    if t != [] && depth > 0 && ParseValue(s, depth).Some? {
      var body := SkipSpace(t[1..]);
      if t[0] == '{' && !(body != [] && body[0] == '}') {
        ParsedFieldsWellFormed(body, depth - 1);
        AssignAllKeepsAscending([], ParseFields(body, depth - 1).value.0);
      } else if t[0] == '[' && !(body != [] && body[0] == ']') {
        ParsedItemsWellFormed(body, depth - 1);
      }
    }
  }

  lemma {:induction false} ParsedItemsWellFormed(s: string, depth: nat)
    ensures ParseElements(s, depth).Some? ==> WellFormedItems(ParseElements(s, depth).value.0)
    decreases |s|, 2
  {
    ParsedWellFormed(s, depth);
    if ParseElements(s, depth).Some? {
      var (item, rest) := ParseValue(s, depth).value;
      var after := SkipSpace(rest);
      if after[0] == ',' {
        ParsedItemsWellFormed(after[1..], depth);
        var items := ParseElements(after[1..], depth).value.0;
        assert ([item] + items)[1..] == items;
      }
    }
  }

  lemma {:induction false} ParsedFieldsWellFormed(s: string, depth: nat)
    ensures ParseFields(s, depth).Some? ==> WellFormedFields(ParseFields(s, depth).value.0)
    decreases |s|, 2
  {
    if ParseFields(s, depth).Some? {
      var (key, text) := ParseKey(s).value;
      ParsedWellFormed(text, depth);
      var (value, rest) := ParseValue(text, depth).value;
      assert ParseMoreFields(Field(key, value, text[..|text| - |rest|]), rest, depth).Some?;
      var after := SkipSpace(rest);
      if after[0] == ',' {
        ParsedFieldsWellFormed(after[1..], depth);
      }
    }
  }

  // ---------------------------------------------------------------------------
  // Theorems

  /** For every value the printer accepts, reading the print gives the value back, and the print passes the
      acceptance test, exactly when every string and key is clean and nesting stays within the decoder's limit.
      Otherwise the decoder refuses the print. */
  lemma RoundTrip(v: Json)
    requires WellFormed(v) && Printable(v)
    ensures ParseDocument(Print(v)) == if Readable(v, MAX_DEPTH) then Some(v) else None
    ensures Accepted(Print(v)) <==> Readable(v, MAX_DEPTH)
  {
    PrintReads(v, [], MAX_DEPTH);
    assert Print(v) + [] == Print(v);
  }

  /** The accepted messages are exactly the prints of readable values, and each has one value. */
  lemma AcceptedMessages(content: string)
    ensures Accepted(content) <==>
            exists v :: WellFormed(v) && Printable(v) && Readable(v, MAX_DEPTH) && content == Print(v)
    ensures Accepted(content) ==>
            var v := ParseDocument(content).value;
            WellFormed(v) && Printable(v) && Readable(v, MAX_DEPTH) && content == Print(v)
  {
    if Accepted(content) {
      ParsedWellFormed(content, MAX_DEPTH);
      RoundTrip(ParseDocument(content).value);
    }
    forall v | WellFormed(v) && Printable(v) && Readable(v, MAX_DEPTH) && content == Print(v)
      ensures Accepted(content)
    {
      RoundTrip(v);
    }
  }

  /** Printing is injective on readable values: equal texts, hence equal digests, name one value. */
  lemma PrintInjective(v: Json, w: Json)
    requires WellFormed(v) && Printable(v) && Readable(v, MAX_DEPTH)
    requires WellFormed(w) && Printable(w) && Readable(w, MAX_DEPTH)
    requires Print(v) == Print(w)
    ensures v == w
  {
    RoundTrip(v);
    RoundTrip(w);
  }
}
